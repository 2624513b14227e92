/** Which processes a shutdown terminates before it stops the service. */
module Workloads {
  import opened Wrappers

  type Pid = int

  datatype Proc = Proc(pid: Pid, ppid: Pid, initExe: bool)

  const MAX_WALK: nat := 64

  function Parents(procs: seq<Proc>): map<Pid, Pid> {
    if procs == [] then map[]
    else
      var p := procs[|procs| - 1];
      Parents(procs[..|procs| - 1])[p.pid := p.ppid]
  }

  /** The ancestor `k` steps up, if the table goes that far. */
  function Ancestor(parent: map<Pid, Pid>, pid: Pid, k: nat): Option<Pid> {
    if k == 0 then Some(pid)
    else
      var below := Ancestor(parent, pid, k - 1);
      if below.Some? && below.value in parent then Some(parent[below.value]) else None
  }

  /** `service` is `pid` or an ancestor of it, however far up. */
  ghost predicate Descends(parent: map<Pid, Pid>, pid: Pid, service: Pid) {
    exists k: nat :: Ancestor(parent, pid, k) == Some(service)
  }

  predicate DescendsWithin(parent: map<Pid, Pid>, pid: Pid, service: Pid, n: nat) {
    exists k: nat | k < n :: Ancestor(parent, pid, k) == Some(service)
  }

  method InService(parent: map<Pid, Pid>, service: Pid, pid: Pid) returns (r: bool)
    ensures r == DescendsWithin(parent, pid, service, 64)
  {
    var at := pid;
    for i := 0 to MAX_WALK
      invariant Ancestor(parent, pid, i) == Some(at)
      invariant !DescendsWithin(parent, pid, service, i)
    {
      if at == service {
        return true;
      }
      if at !in parent {
        forall k: nat | i < k
          ensures Ancestor(parent, pid, k) == None
        {
          GoneAbove(parent, pid, i, k);
        }
        return false;
      }
      at := parent[at];
    }
    return false;
  }

  lemma {:induction false} GoneAbove(parent: map<Pid, Pid>, pid: Pid, i: nat, k: nat)
    requires i < k && Ancestor(parent, pid, i).Some? && Ancestor(parent, pid, i).value !in parent
    ensures Ancestor(parent, pid, k) == None
    decreases k
  {
    if i < k - 1 {
      GoneAbove(parent, pid, i, k - 1);
    }
  }

  predicate Spared(parent: map<Pid, Pid>, service: Pid, p: Proc) {
    p.initExe || (service > 0 && DescendsWithin(parent, p.pid, service, MAX_WALK))
  }

  function Kept(procs: seq<Proc>, parent: map<Pid, Pid>, service: Pid): seq<Pid> {
    if procs == [] then []
    else
      var (rest, p) := (Kept(procs[..|procs| - 1], parent, service), procs[|procs| - 1]);
      if Spared(parent, service, p) then rest else rest + [p.pid]
  }

  method Select(procs: seq<Proc>, service: Pid) returns (out: seq<Pid>)
    ensures out == Kept(procs, Parents(procs), service)
  {
    var parent := map[];
    for i := 0 to |procs|
      invariant parent == Parents(procs[..i])
    {
      assert procs[..i + 1][..i] == procs[..i];
      parent := parent[procs[i].pid := procs[i].ppid];
    }
    assert procs[..|procs|] == procs;
    out := [];
    for i := 0 to |procs|
      invariant out == Kept(procs[..i], parent, service)
    {
      assert procs[..i + 1][..i] == procs[..i];
      var inService := InService(parent, service, procs[i].pid);
      if !procs[i].initExe && !(service > 0 && inService) {
        out := out + [procs[i].pid];
      }
    }
  }

  // The bounded walk against unbounded ancestry.

  /** Two ancestors that are the same process have the same ancestors. */
  lemma {:induction false} SameAbove(parent: map<Pid, Pid>, pid: Pid, i: nat, j: nat, more: nat)
    requires Ancestor(parent, pid, i) == Ancestor(parent, pid, j)
    ensures Ancestor(parent, pid, i + more) == Ancestor(parent, pid, j + more)
  {
    if more > 0 {
      SameAbove(parent, pid, i, j, more - 1);
    }
  }

  /** The nearest way up to `service` visits each process once. */
  predicate Nearest(parent: map<Pid, Pid>, pid: Pid, service: Pid, k: nat) {
    Ancestor(parent, pid, k) == Some(service) && !DescendsWithin(parent, pid, service, k)
  }

  lemma {:induction false} NearestExists(parent: map<Pid, Pid>, pid: Pid, service: Pid, k: nat)
    returns (n: nat)
    requires Ancestor(parent, pid, k) == Some(service)
    ensures n <= k && Nearest(parent, pid, service, n)
  {
    if DescendsWithin(parent, pid, service, k) {
      var less: nat :| less < k && Ancestor(parent, pid, less) == Some(service);
      n := NearestExists(parent, pid, service, less);
    } else {
      n := k;
    }
  }

  function Visited(parent: map<Pid, Pid>, pid: Pid, n: nat): set<Pid> {
    if n == 0 then {}
    else
      var last := Ancestor(parent, pid, n - 1);
      Visited(parent, pid, n - 1) + if last.Some? then {last.value} else {}
  }

  lemma {:induction false} NotVisited(parent: map<Pid, Pid>, pid: Pid, n: nat, x: Pid)
    requires forall i: nat | i < n :: Ancestor(parent, pid, i) != Some(x)
    ensures x !in Visited(parent, pid, n)
  {
    if n > 0 {
      NotVisited(parent, pid, n - 1, x);
    }
  }

  /** A way up that repeats a process can be cut short. */
  lemma CutShort(parent: map<Pid, Pid>, pid: Pid, service: Pid, k: nat, i: nat, j: nat)
    requires Ancestor(parent, pid, k) == Some(service) && i < j < k
    requires Ancestor(parent, pid, i) == Ancestor(parent, pid, j)
    ensures DescendsWithin(parent, pid, service, k)
  {
    SameAbove(parent, pid, i, j, k - j);
    var less := i + (k - j);
    assert less < k && Ancestor(parent, pid, less) == Some(service);
  }

  /** No process comes twice on the nearest way. */
  lemma NoRepeat(parent: map<Pid, Pid>, pid: Pid, service: Pid, k: nat, i: nat, j: nat)
    requires Nearest(parent, pid, service, k) && i < j < k
    ensures Ancestor(parent, pid, i) != Ancestor(parent, pid, j)
  {
    if Ancestor(parent, pid, i) == Ancestor(parent, pid, j) {
      CutShort(parent, pid, service, k, i, j);
    }
  }

  lemma {:induction false} StepsInTable(parent: map<Pid, Pid>, pid: Pid, k: nat, i: nat)
    requires Ancestor(parent, pid, k).Some? && i < k
    ensures Ancestor(parent, pid, i).Some? && Ancestor(parent, pid, i).value in parent
    decreases k
  {
    if i < k - 1 {
      StepsInTable(parent, pid, k - 1, i);
    }
  }

  lemma {:induction false} VisitedCount(parent: map<Pid, Pid>, pid: Pid, service: Pid, k: nat, n: nat)
    requires Nearest(parent, pid, service, k) && n <= k
    ensures |Visited(parent, pid, n)| == n && Visited(parent, pid, n) <= parent.Keys
  {
    if n > 0 {
      VisitedCount(parent, pid, service, k, n - 1);
      StepsInTable(parent, pid, k, n - 1);
      var last := Ancestor(parent, pid, n - 1).value;
      forall i: nat | i < n - 1
        ensures Ancestor(parent, pid, i) != Some(last)
      {
        NoRepeat(parent, pid, service, k, i, n - 1);
      }
      NotVisited(parent, pid, n - 1, last);
    }
  }

  lemma Fits<T>(a: set<T>, b: set<T>)
    requires a <= b
    ensures |a| <= |b|
  {
    assert b == a + (b - a);
  }

  /** The nearest way up is no longer than the table. */
  lemma NearestFits(parent: map<Pid, Pid>, pid: Pid, service: Pid, k: nat)
    requires Nearest(parent, pid, service, k)
    ensures k <= |parent|
  {
    VisitedCount(parent, pid, service, k, k);
    Fits(Visited(parent, pid, k), parent.Keys);
  }

  /** In any table of fewer than 64 entries, cyclic or not, the bounded walk finds exactly the
      descendants of the service. */
  lemma WalkIsDescent(parent: map<Pid, Pid>, pid: Pid, service: Pid)
    requires |parent| < 64
    ensures DescendsWithin(parent, pid, service, 64) <==> Descends(parent, pid, service)
  {
    if Descends(parent, pid, service) {
      var k: nat :| Ancestor(parent, pid, k) == Some(service);
      var n := NearestExists(parent, pid, service, k);
      NearestFits(parent, pid, service, n);
    }
  }

  lemma {:induction false} TableSize(procs: seq<Proc>)
    ensures |Parents(procs)| <= |procs|
  {
    if procs != [] {
      var (init, p) := (procs[..|procs| - 1], procs[|procs| - 1]);
      TableSize(init);
      assert Parents(procs).Keys == Parents(init).Keys + {p.pid};
      assert |Parents(procs).Keys| == |Parents(procs)| && |Parents(init).Keys| == |Parents(init)|;
    }
  }

  lemma {:induction false} KeptAre(procs: seq<Proc>, parent: map<Pid, Pid>, service: Pid, pid: Pid)
    ensures pid in Kept(procs, parent, service)
            <==> exists p <- procs :: p.pid == pid && !Spared(parent, service, p)
  {
    if procs != [] {
      var (init, p) := (procs[..|procs| - 1], procs[|procs| - 1]);
      KeptAre(init, parent, service, pid);
      assert procs == init + [p];
    }
  }

  /** With fewer than 64 processes, those terminated are exactly the ones that neither run init's binary
      nor descend from the service. */
  lemma WorkloadsAre(procs: seq<Proc>, service: Pid, pid: Pid)
    requires |procs| < 64
    ensures pid in Kept(procs, Parents(procs), service)
            <==> exists p <- procs :: p.pid == pid && !p.initExe
                                      && !(service > 0 && Descends(Parents(procs), pid, service))
  {
    TableSize(procs);
    WalkIsDescent(Parents(procs), pid, service);
    KeptAre(procs, Parents(procs), service, pid);
  }

  // The bound is sharp.

  /** A chain of `n` processes, each the child of the next, up to the service `3 + n`. */
  function Chain(n: nat): seq<Proc> {
    if n == 0 then [] else Chain(n - 1) + [Proc(2 + n, 3 + n, false)]
  }

  lemma {:induction false} ChainParents(n: nat)
    ensures |Chain(n)| == n
    ensures forall pid: Pid :: pid in Parents(Chain(n)) <==> 3 <= pid < 3 + n
    ensures forall pid: Pid | 3 <= pid < 3 + n :: Parents(Chain(n))[pid] == pid + 1
  {
    if n > 0 {
      ChainParents(n - 1);
      assert Chain(n)[..n - 1] == Chain(n - 1);
    }
  }

  lemma {:induction false} ChainAncestor(n: nat, k: nat)
    ensures Ancestor(Parents(Chain(n)), 3, k) == if k <= n then Some(3 + k) else None
  {
    ChainParents(n);
    if k > 0 {
      ChainAncestor(n, k - 1);
    }
  }

  /** For every larger table size there is a table on which the walk misses a descendant: the fewer
      than 64 entries that suffice are also needed. */
  lemma LongChainMissed(n: nat)
    requires n >= 64
    ensures |Chain(n)| == n
    ensures Descends(Parents(Chain(n)), 3, 3 + n)
    ensures !DescendsWithin(Parents(Chain(n)), 3, 3 + n, 64)
  {
    ChainParents(n);
    ChainAncestor(n, n);
    forall k: nat | k < 64
      ensures Ancestor(Parents(Chain(n)), 3, k) != Some(3 + n)
    {
      ChainAncestor(n, k);
    }
  }
}
