/** A stalled process has its stacks written once, in the first landed sample that finds it stalled. */
module AtopStalls {
  import opened Wrappers
  import opened AtopSample
  import opened AtopLog
  import opened AtopSums

  predicate Multi(ps: seq<Proc>, t: Task) {
    Swept(ps, t).Some? && Swept(ps, t).value.wchans.Some?
  }

  /** From snapshot `a` to before `n`, `t` is there with several threads, and was not before `a`. */
  predicate Stays(ls: seq<Turn>, a: nat, n: nat, t: Task)
    requires a <= n <= |ls|
  {
    && (a > 0 ==> !Multi(ls[a - 1].cur.procs, t))
    && forall k: nat | a <= k < n :: Multi(ls[k].cur.procs, t)
  }

  /** The stall test on sample `k`, given what the samples before it made of `t`. */
  function Test(track: Stall, ls: seq<Turn>, hertz: nat, k: nat, t: Task): (Stall, bool)
    requires k < |ls| && Multi(ls[k].cur.procs, t)
  {
    var (prev, p) := (PrevAt(ls, k), Swept(ls[k].cur.procs, t).value);
    var before := Before(prev, t);
    Observe(track, ls[k].cur.epoch, Idle(before, p, hertz, CoveredAt(ls, k)),
            Worked(prev, before, p))
  }

  /** The stall test folded over the landed samples of a stay, with nothing else remembered. */
  function Verdict(ls: seq<Turn>, hertz: nat, a: nat, k: nat, t: Task): (Stall, bool)
    requires a <= k < |ls| && Stays(ls, a, k + 1, t)
    decreases k
  {
    Test(if k == a then UNSEEN else Verdict(ls, hertz, a, k - 1, t).0, ls, hertz, k, t)
  }

  /** What the samples of a stay before `n` made of `t`. */
  function TrackAt(ls: seq<Turn>, hertz: nat, a: nat, n: nat, t: Task): Stall
    requires a <= n <= |ls| && Stays(ls, a, n, t)
  {
    if n == a then UNSEEN else Verdict(ls, hertz, a, n - 1, t).0
  }

  // One sample.

  /** What one sample makes of task `t`. */
  predicate JudgedAt(st: Stalls, prev: Option<Sys>, cur: Sys, hertz: nat, covered: nat, t: Task,
                     tracks: map<Task, Stall>, due: seq<Task>)
  {
    if !Multi(cur.procs, t) then t !in tracks && t !in due
    else
      var (track, stalled) :=
        Judged(st.tracks, prev, cur.epoch, Swept(cur.procs, t).value, hertz, covered);
      t in tracks && tracks[t] == track && (t in due <==> stalled && t !in st.dumped)
  }

  lemma {:induction false} AdvancedAt(st: Stalls, prev: Option<Sys>, cur: Sys, hertz: nat, covered: nat,
                                      t: Task)
    requires Distinct(cur.procs)
    ensures var (tracks, due) := Advanced(st, prev, cur.epoch, cur.procs, hertz, covered);
            JudgedAt(st, prev, cur, hertz, covered, t, tracks, due)
    decreases |cur.procs|
  {
    if cur.procs != [] {
      AdvancedAt(st, prev, cur.(procs := cur.procs[..|cur.procs| - 1]), hertz, covered, t);
    }
  }

  // Whole runs.

  function AdvancedFrom(st: Stalls, ls: seq<Turn>, hertz: nat, k: nat): (map<Task, Stall>, seq<Task>)
    requires k < |ls|
  {
    Advanced(st, PrevAt(ls, k), ls[k].cur.epoch, ls[k].cur.procs, hertz, CoveredAt(ls, k))
  }

  function Onward(st: Stalls, ls: seq<Turn>, hertz: nat, k: nat): Stalls
    requires k < |ls|
  {
    var (tracks, due) := AdvancedFrom(st, ls, hertz, k);
    Committed(st, tracks, due)
  }

  /** One more landed turn: what is remembered, and the stacks its sample carries. */
  lemma RunStep(ls: seq<Turn>, hertz: nat)
    requires ls != [] && forall turn <- ls :: turn.lands
    ensures var (n, run) := (|ls| - 1, Run(ls[..|ls| - 1], hertz));
            && Run(ls, hertz).stalls == Onward(run.stalls, ls, hertz, n)
            && |run.log| == n && |Run(ls, hertz).log| == n + 1
            && Run(ls, hertz).log[..n] == run.log
            && Run(ls, hertz).log[n].stacks == AdvancedFrom(run.stalls, ls, hertz, n).1
  {
    var n := |ls| - 1;
    RunLanded(ls[..n], hertz);
    assert PrevAt(ls[..n], n) == PrevAt(ls, n);
    assert ls[n].lands;
  }

  predicate Stalled(ls: seq<Turn>, hertz: nat, a: nat, k: nat, t: Task) {
    a <= k < |ls| && Stays(ls, a, k + 1, t) && Verdict(ls, hertz, a, k, t).1
  }

  predicate StalledBefore(ls: seq<Turn>, hertz: nat, a: nat, n: nat, t: Task) {
    exists k: nat | k < n :: Stalled(ls, hertz, a, k, t)
  }

  /** What is remembered of a task that stays since `a`, before sample `n`. */
  predicate Remembered(st: Stalls, ls: seq<Turn>, hertz: nat, a: nat, n: nat, t: Task)
    requires a <= n <= |ls| && Stays(ls, a, n, t)
  {
    && Track(st.tracks, t) == TrackAt(ls, hertz, a, n, t)
    && (t in st.dumped <==> StalledBefore(ls, hertz, a, n, t))
  }

  lemma AtArrival(st: Stalls, ls: seq<Turn>, hertz: nat, a: nat, t: Task)
    requires a < |ls| && PidsDistinct(ls) && !Multi(ls[a].cur.procs, t)
    ensures Remembered(Onward(st, ls, hertz, a), ls, hertz, a + 1, a + 1, t)
  {
    assert Distinct(ls[a].cur.procs);
    AdvancedAt(st, PrevAt(ls, a), ls[a].cur, hertz, CoveredAt(ls, a), t);
  }

  lemma DueWhenFirst(st: Stalls, ls: seq<Turn>, hertz: nat, a: nat, n: nat, t: Task)
    requires a <= n < |ls| && PidsDistinct(ls) && Stays(ls, a, n + 1, t)
    requires Remembered(st, ls, hertz, a, n, t)
    ensures var (tracks, due) := AdvancedFrom(st, ls, hertz, n);
            && t in tracks && tracks[t] == Verdict(ls, hertz, a, n, t).0
            && (t in due <==> Verdict(ls, hertz, a, n, t).1 && t !in st.dumped)
  {
    assert Distinct(ls[n].cur.procs);
    SweptTask(ls[n].cur.procs, t);
    AdvancedAt(st, PrevAt(ls, n), ls[n].cur, hertz, CoveredAt(ls, n), t);
  }

  lemma RememberedNext(st: Stalls, ls: seq<Turn>, hertz: nat, a: nat, n: nat, t: Task)
    requires a <= n < |ls| && PidsDistinct(ls) && Stays(ls, a, n + 1, t)
    requires Remembered(st, ls, hertz, a, n, t)
    ensures Remembered(Onward(st, ls, hertz, n), ls, hertz, a, n + 1, t)
  {
    DueWhenFirst(st, ls, hertz, a, n, t);
    OneMoreVerdict(ls, hertz, a, n, t);
  }

  lemma PrefixTest(track: Stall, ls: seq<Turn>, hertz: nat, k: nat, m: nat, t: Task)
    requires k < m <= |ls| && Multi(ls[k].cur.procs, t)
    ensures Test(track, ls[..m], hertz, k, t) == Test(track, ls, hertz, k, t)
  {
    assert PrevAt(ls[..m], k) == PrevAt(ls, k);
  }

  lemma {:induction false} PrefixVerdict(ls: seq<Turn>, hertz: nat, a: nat, k: nat, m: nat, t: Task)
    requires a <= k < m <= |ls| && Stays(ls, a, k + 1, t)
    ensures Stays(ls[..m], a, k + 1, t)
    ensures Verdict(ls[..m], hertz, a, k, t) == Verdict(ls, hertz, a, k, t)
    decreases k
  {
    if a < k {
      PrefixVerdict(ls, hertz, a, k - 1, m, t);
    }
    PrefixTest(if k == a then UNSEEN else Verdict(ls, hertz, a, k - 1, t).0, ls, hertz, k, m, t);
  }

  lemma PrefixOneStalled(ls: seq<Turn>, hertz: nat, a: nat, k: nat, m: nat, t: Task)
    requires a <= m <= |ls| && Stays(ls, a, m, t) && k < m
    ensures Stalled(ls[..m], hertz, a, k, t) <==> Stalled(ls, hertz, a, k, t)
  {
    if a <= k {
      PrefixVerdict(ls, hertz, a, k, m, t);
    }
  }

  lemma PrefixStalled(ls: seq<Turn>, hertz: nat, a: nat, n: nat, m: nat, t: Task)
    requires a <= n <= m <= |ls| && Stays(ls, a, m, t)
    ensures StalledBefore(ls[..m], hertz, a, n, t) <==> StalledBefore(ls, hertz, a, n, t)
  {
    if StalledBefore(ls[..m], hertz, a, n, t) {
      var k: nat :| k < n && Stalled(ls[..m], hertz, a, k, t);
      PrefixOneStalled(ls, hertz, a, k, m, t);
    }
    if StalledBefore(ls, hertz, a, n, t) {
      var k: nat :| k < n && Stalled(ls, hertz, a, k, t);
      PrefixOneStalled(ls, hertz, a, k, m, t);
    }
  }

  lemma PrefixTrack(ls: seq<Turn>, hertz: nat, a: nat, m: nat, t: Task)
    requires a <= m <= |ls| && Stays(ls, a, m, t) && Stays(ls[..m], a, m, t)
    ensures TrackAt(ls[..m], hertz, a, m, t) == TrackAt(ls, hertz, a, m, t)
  {
    if a < m {
      PrefixVerdict(ls, hertz, a, m - 1, m, t);
    }
  }

  lemma PrefixRemembered(st: Stalls, ls: seq<Turn>, hertz: nat, a: nat, m: nat, t: Task)
    requires a <= m <= |ls| && Stays(ls, a, m, t) && Stays(ls[..m], a, m, t)
    requires Remembered(st, ls[..m], hertz, a, m, t)
    ensures Remembered(st, ls, hertz, a, m, t)
  {
    PrefixStalled(ls, hertz, a, m, m, t);
    PrefixTrack(ls, hertz, a, m, t);
  }

  lemma RememberedOn(st: Stalls, ls: seq<Turn>, hertz: nat, a: nat, t: Task)
    requires ls != [] && PidsDistinct(ls) && a < |ls| && Stays(ls, a, |ls|, t)
    requires Stays(ls[..|ls| - 1], a, |ls| - 1, t)
    requires Remembered(st, ls[..|ls| - 1], hertz, a, |ls| - 1, t)
    ensures Remembered(Onward(st, ls, hertz, |ls| - 1), ls, hertz, a, |ls|, t)
  {
    PrefixRemembered(st, ls, hertz, a, |ls| - 1, t);
    RememberedNext(st, ls, hertz, a, |ls| - 1, t);
  }

  lemma {:induction false} RunRemembers(ls: seq<Turn>, hertz: nat, a: nat, t: Task)
    requires (forall turn <- ls :: turn.lands) && PidsDistinct(ls)
    requires a <= |ls| && Stays(ls, a, |ls|, t)
    ensures Remembered(Run(ls, hertz).stalls, ls, hertz, a, |ls|, t)
  {
    if ls != [] {
      var n := |ls| - 1;
      RunStep(ls, hertz);
      if a == |ls| {
        AtArrival(Run(ls[..n], hertz).stalls, ls, hertz, n, t);
      } else {
        RunRemembers(ls[..n], hertz, a, t);
        RememberedOn(Run(ls[..n], hertz).stalls, ls, hertz, a, t);
      }
    }
  }

  /** Later turns do not change what earlier samples carry. */
  lemma {:induction false} LogPrefix(ls: seq<Turn>, hertz: nat, n: nat)
    requires n < |ls| && forall turn <- ls :: turn.lands
    ensures |Run(ls, hertz).log| == |ls| && |Run(ls[..n + 1], hertz).log| == n + 1
    ensures Run(ls, hertz).log[n] == Run(ls[..n + 1], hertz).log[n]
  {
    RunStep(ls, hertz);
    if n + 1 < |ls| {
      var init := ls[..|ls| - 1];
      assert init[..n + 1] == ls[..n + 1];
      LogPrefix(init, hertz, n);
      SameEntry(Run(ls, hertz).log, Run(init, hertz).log, n);
    } else {
      assert ls[..n + 1] == ls;
    }
  }

  lemma SameEntry(log: seq<Entry>, init: seq<Entry>, n: nat)
    requires n < |init| <= |log| && log[..|init|] == init
    ensures log[n] == init[n]
  {
  }

  predicate FirstStall(ls: seq<Turn>, hertz: nat, a: nat, n: nat, t: Task) {
    Stalled(ls, hertz, a, n, t) && !StalledBefore(ls, hertz, a, n, t)
  }

  lemma StacksAt(ls: seq<Turn>, hertz: nat, a: nat, n: nat, t: Task)
    requires (forall turn <- ls :: turn.lands) && PidsDistinct(ls)
    requires a <= n == |ls| - 1 && Stays(ls, a, n + 1, t)
    ensures |Run(ls, hertz).log| == n + 1
    ensures t in Run(ls, hertz).log[n].stacks <==> FirstStall(ls, hertz, a, n, t)
  {
    RunStep(ls, hertz);
    RunRemembers(ls[..n], hertz, a, t);
    PrefixRemembered(Run(ls[..n], hertz).stalls, ls, hertz, a, n, t);
    DueWhenFirst(Run(ls[..n], hertz).stalls, ls, hertz, a, n, t);
  }

  lemma PrefixFirstStall(ls: seq<Turn>, hertz: nat, a: nat, n: nat, t: Task)
    requires a <= n < |ls| && Stays(ls, a, n + 1, t)
    ensures FirstStall(ls[..n + 1], hertz, a, n, t) <==> FirstStall(ls, hertz, a, n, t)
  {
    PrefixOneStalled(ls, hertz, a, n, n + 1, t);
    PrefixStalled(ls, hertz, a, n, n + 1, t);
  }

  lemma StacksLanded(ls: seq<Turn>, hertz: nat, a: nat, n: nat, t: Task)
    requires (forall turn <- ls :: turn.lands) && PidsDistinct(ls)
    requires a <= n < |ls| && Stays(ls, a, n + 1, t)
    ensures |Run(ls, hertz).log| == |ls|
    ensures t in Run(ls, hertz).log[n].stacks <==> FirstStall(ls, hertz, a, n, t)
  {
    LogPrefix(ls, hertz, n);
    StacksAt(ls[..n + 1], hertz, a, n, t);
    PrefixFirstStall(ls, hertz, a, n, t);
  }

  lemma OneMoreVerdict(ls: seq<Turn>, hertz: nat, a: nat, n: nat, t: Task)
    requires a <= n < |ls| && Stays(ls, a, n + 1, t)
    ensures StalledBefore(ls, hertz, a, n + 1, t)
            <==> StalledBefore(ls, hertz, a, n, t) || Verdict(ls, hertz, a, n, t).1
  {
    if Verdict(ls, hertz, a, n, t).1 {
      assert Stalled(ls, hertz, a, n, t);
    }
    if StalledBefore(ls, hertz, a, n, t) {
      var k: nat :| k < n && Stalled(ls, hertz, a, k, t);
      assert k < n + 1 && Stalled(ls, hertz, a, k, t);
    }
  }

  /** For every run, whatever writes failed: while a task stays multi-threaded, a landed sample carries
      its stacks if and only if that sample is the first to find it stalled, as judged from the landed
      samples alone. */
  lemma StacksOnFirstStall(turns: seq<Turn>, hertz: nat, a: nat, n: nat, t: Task)
    requires a <= n < |Landed(turns)| && PidsDistinct(Landed(turns)) && Stays(Landed(turns), a, n + 1, t)
    ensures n < |Run(turns, hertz).log|
    ensures t in Run(turns, hertz).log[n].stacks
            <==> FirstStall(Landed(turns), hertz, a, n, t)
  {
    FailedWritesLeaveNoTrace(turns, hertz);
    AllLanded(turns);
    StacksLanded(Landed(turns), hertz, a, n, t);
  }

  // What a stall is.

  function Ticks(p: Proc): nat {
    p.usage.utime + p.usage.stime
  }

  function Sectors(p: Proc): nat {
    p.usage.rsz + p.usage.wsz
  }

  function Elapsed(ls: seq<Turn>, k: nat): nat
    requires 0 < k < |ls|
  {
    var seconds := ls[k].cur.epoch - ls[k - 1].cur.epoch;
    if seconds < 1 then 1 else seconds
  }

  /** Over the interval before sample `k` the task, multi-threaded at both ends, stood in the same wait
      channels, moved no sector and used less than a tenth of one processor. */
  predicate IdleAt(ls: seq<Turn>, hertz: nat, k: nat, t: Task)
    requires k < |ls| && Multi(ls[k].cur.procs, t)
  {
    && k > 0 && Multi(ls[k - 1].cur.procs, t)
    && var (p, q) := (Swept(ls[k].cur.procs, t).value, Swept(ls[k - 1].cur.procs, t).value);
       && p.wchans.value.Keys == q.wchans.value.Keys
       && Sectors(p) <= Sectors(q)
       && (if Ticks(p) < Ticks(q) then 0 else Ticks(p) - Ticks(q)) * 10 < hertz * Elapsed(ls, k)
  }

  /** Over the interval before sample `k` the task used a tick of processor time or moved a sector. */
  predicate WorkedAt(ls: seq<Turn>, k: nat, t: Task)
    requires k < |ls| && Multi(ls[k].cur.procs, t)
  {
    && k > 0
    && var (p, was) := (Swept(ls[k].cur.procs, t).value, Swept(ls[k - 1].cur.procs, t));
       match was
       case Some(q) => Ticks(p) > Ticks(q) || Sectors(p) > Sectors(q)
       case None => Ticks(p) > 0 || Sectors(p) > 0
  }

  /** The sampler's tests say the same. */
  lemma TestsAre(ls: seq<Turn>, hertz: nat, k: nat, t: Task)
    requires k < |ls| && Multi(ls[k].cur.procs, t)
    ensures var (before, p) := (Before(PrevAt(ls, k), t), Swept(ls[k].cur.procs, t).value);
            && (IdleAt(ls, hertz, k, t) <==> Idle(before, p, hertz, CoveredAt(ls, k)))
            && (WorkedAt(ls, k, t) <==> Worked(PrevAt(ls, k), before, p))
  {
    if k > 0 && Multi(ls[k - 1].cur.procs, t) {
      var (p, q) := (Swept(ls[k].cur.procs, t).value, Swept(ls[k - 1].cur.procs, t).value);
      var ticks := Sub(Ticks(p), Ticks(q));
      assert CoveredAt(ls, k) == Elapsed(ls, k);
      TenPercent(ticks, hertz, Elapsed(ls, k));
    }
  }

  lemma TenPercent(ticks: nat, hertz: nat, elapsed: nat)
    ensures ticks * 100 < 10 * hertz * elapsed <==> ticks * 10 < hertz * elapsed
  {
    assert 10 * hertz * elapsed == 10 * (hertz * elapsed);
  }

  /** Sample `k` begins a stretch: the first of the stay, or one that is not idle. */
  predicate Begins(ls: seq<Turn>, hertz: nat, a: nat, k: nat, t: Task)
    requires a <= k < |ls| && Stays(ls, a, k + 1, t)
  {
    k == a || !IdleAt(ls, hertz, k, t)
  }

  /** `s` begins the stretch that sample `k` is in: every sample between is idle. */
  predicate StretchFrom(ls: seq<Turn>, hertz: nat, a: nat, s: nat, k: nat, t: Task)
    requires a <= k < |ls| && Stays(ls, a, k + 1, t)
  {
    a <= s <= k && Begins(ls, hertz, a, s, t) && forall j: nat | s < j <= k :: IdleAt(ls, hertz, j, t)
  }

  /** `t` worked in a sample that begins a stretch, up to `k`. */
  predicate WorkedUpTo(ls: seq<Turn>, hertz: nat, a: nat, k: nat, t: Task)
    requires a <= k < |ls| && Stays(ls, a, k + 1, t)
  {
    exists j: nat | a <= j <= k :: WorkBegins(ls, hertz, a, j, t)
  }

  predicate WorkBegins(ls: seq<Turn>, hertz: nat, a: nat, j: nat, t: Task)
    requires a <= j < |ls| && Stays(ls, a, j + 1, t)
  {
    Begins(ls, hertz, a, j, t) && WorkedAt(ls, j, t)
  }

  lemma WorkedMore(ls: seq<Turn>, hertz: nat, a: nat, k: nat, t: Task)
    requires a < k < |ls| && Stays(ls, a, k + 1, t)
    ensures WorkedUpTo(ls, hertz, a, k, t)
            <==> WorkedUpTo(ls, hertz, a, k - 1, t) || WorkBegins(ls, hertz, a, k, t)
  {
    if j: nat :| a <= j <= k && WorkBegins(ls, hertz, a, j, t) {
      assert j == k || a <= j <= k - 1;
    }
    if j: nat :| a <= j <= k - 1 && WorkBegins(ls, hertz, a, j, t) {
      assert a <= j <= k;
    }
  }

  /** The tracker holds when the current stretch began, how many samples it has lasted since, and whether
      there was work by then. */
  lemma {:induction false} TrackIs(ls: seq<Turn>, hertz: nat, a: nat, k: nat, t: Task) returns (s: nat)
    requires a <= k < |ls| && Stays(ls, a, k + 1, t)
    ensures StretchFrom(ls, hertz, a, s, k, t)
    ensures Verdict(ls, hertz, a, k, t).0
            == Stall(true, ls[s].cur.epoch, k - s, WorkedUpTo(ls, hertz, a, k, t))
    decreases k
  {
    TestsAre(ls, hertz, k, t);
    if k == a {
      s := a;
      assert WorkedAt(ls, a, t) ==> WorkBegins(ls, hertz, a, a, t);
    } else {
      s := TrackIs(ls, hertz, a, k - 1, t);
      WorkedMore(ls, hertz, a, k, t);
      if !IdleAt(ls, hertz, k, t) {
        s := k;
      }
    }
  }

  /** A stall, said without the tracker: an idle stretch of at least 300 seconds and 3 samples after the
      one it began with, by a task that had worked in a sample that began a stretch. */
  lemma StalledMeans(ls: seq<Turn>, hertz: nat, a: nat, k: nat, t: Task)
    requires a <= k < |ls| && Stays(ls, a, k + 1, t)
    ensures Stalled(ls, hertz, a, k, t)
            <==> exists s: nat | s <= k ::
                   && StretchFrom(ls, hertz, a, s, k, t)
                   && ls[k].cur.epoch - ls[s].cur.epoch >= 300 && k - s >= 3
                   && WorkedUpTo(ls, hertz, a, k, t)
  {
    var s := TrackIs(ls, hertz, a, k, t);
    if other: nat :| other <= k && StretchFrom(ls, hertz, a, other, k, t) {
      OneStretch(ls, hertz, a, s, other, k, t);
    }
  }

  lemma OneStretch(ls: seq<Turn>, hertz: nat, a: nat, s: nat, s': nat, k: nat, t: Task)
    requires a <= k < |ls| && Stays(ls, a, k + 1, t)
    requires StretchFrom(ls, hertz, a, s, k, t) && StretchFrom(ls, hertz, a, s', k, t)
    ensures s == s'
  {
  }

  // The stall as `Stall` is described: work in any sample up to the start of the stretch.

  predicate LongStretch(ls: seq<Turn>, hertz: nat, a: nat, s: nat, k: nat, t: Task)
    requires a <= k < |ls| && Stays(ls, a, k + 1, t)
  {
    && StretchFrom(ls, hertz, a, s, k, t)
    && ls[k].cur.epoch - ls[s].cur.epoch >= 300 && k - s >= 3
  }

  predicate WorkedBy(ls: seq<Turn>, a: nat, s: nat, t: Task)
    requires a <= s < |ls| && Stays(ls, a, s + 1, t)
  {
    exists j: nat | a <= j <= s :: WorkedAt(ls, j, t)
  }

  predicate Described(ls: seq<Turn>, hertz: nat, a: nat, k: nat, t: Task)
    requires a <= k < |ls| && Stays(ls, a, k + 1, t)
  {
    exists s: nat | a <= s <= k :: LongStretch(ls, hertz, a, s, k, t) && WorkedBy(ls, a, s, t)
  }

  /** All the work up to the start `s` of the stretch lies in idle samples of earlier stretches. */
  predicate OnlyIdleWork(ls: seq<Turn>, hertz: nat, a: nat, s: nat, t: Task)
    requires a <= s < |ls| && Stays(ls, a, s + 1, t)
  {
    forall j: nat | a <= j <= s && WorkedAt(ls, j, t) :: a < j < s && IdleAt(ls, hertz, j, t)
  }

  lemma WorkCounts(ls: seq<Turn>, hertz: nat, a: nat, s: nat, k: nat, t: Task)
    requires a <= k < |ls| && Stays(ls, a, k + 1, t) && StretchFrom(ls, hertz, a, s, k, t)
    ensures WorkedUpTo(ls, hertz, a, k, t)
            <==> WorkedBy(ls, a, s, t) && !OnlyIdleWork(ls, hertz, a, s, t)
  {
    if j: nat :| a <= j <= k && WorkBegins(ls, hertz, a, j, t) {
      assert j <= s;
      assert WorkedAt(ls, j, t);
    }
    if j: nat :| a <= j <= s && WorkedAt(ls, j, t) && !(a < j < s && IdleAt(ls, hertz, j, t)) {
      assert WorkBegins(ls, hertz, a, j, t);
    }
  }

  /** Every stall is a described one, and a described one is not a stall if and only if all the work up to
      the start of the stretch lies in idle samples of earlier stretches. */
  lemma StalledVersusDescribed(ls: seq<Turn>, hertz: nat, a: nat, k: nat, t: Task)
    requires a <= k < |ls| && Stays(ls, a, k + 1, t)
    ensures Stalled(ls, hertz, a, k, t) ==> Described(ls, hertz, a, k, t)
    ensures Described(ls, hertz, a, k, t) && !Stalled(ls, hertz, a, k, t)
            <==> exists s: nat | a <= s <= k ::
                   && LongStretch(ls, hertz, a, s, k, t)
                   && WorkedBy(ls, a, s, t) && OnlyIdleWork(ls, hertz, a, s, t)
  {
    var s := TrackIs(ls, hertz, a, k, t);
    WorkCounts(ls, hertz, a, s, k, t);
    forall other: nat | a <= other <= k && LongStretch(ls, hertz, a, other, k, t)
      ensures other == s
    {
      OneStretch(ls, hertz, a, s, other, k, t);
    }
    assert Stalled(ls, hertz, a, k, t)
      <==> LongStretch(ls, hertz, a, s, k, t) && WorkedBy(ls, a, s, t) && !OnlyIdleWork(ls, hertz, a, s, t);
  }

  // A run on which the two differ: a poller idles with a little work, changes its wait channel, and then
  // idles for five minutes without any.

  const POLLER := Task(7, 1)

  function Polled(epoch: int, ticks: nat, channel: string): Turn {
    Turn(Sys(epoch, map[],
             [Proc(POLLER, Usage(ticks, 0, 0, 0, 0, 0, 0, 0, 0, 0, 0), Some(map[channel := 2]))]),
         [], 1, true)
  }

  const POLLING: seq<Turn> :=
    [Polled(0, 5, "poll"), Polled(100, 6, "poll"), Polled(200, 6, "futex"), Polled(300, 6, "futex"),
     Polled(400, 6, "futex"), Polled(500, 6, "futex")]

  lemma PolledSwept(epoch: int, ticks: nat, channel: string)
    ensures var turn := Polled(epoch, ticks, channel);
            && Swept(turn.cur.procs, POLLER) == Some(turn.cur.procs[0])
            && Multi(turn.cur.procs, POLLER) && Distinct(turn.cur.procs)
  {
    var ps := Polled(epoch, ticks, channel).cur.procs;
    assert ps[..0] == [];
  }

  lemma PollingStays(k: nat)
    requires k < 6
    ensures Multi(POLLING[k].cur.procs, POLLER) && Distinct(POLLING[k].cur.procs)
    ensures Swept(POLLING[k].cur.procs, POLLER) == Some(POLLING[k].cur.procs[0])
    ensures POLLING[k].lands
  {
    PolledSwept(0, 5, "poll");
    PolledSwept(100, 6, "poll");
    PolledSwept(200, 6, "futex");
    PolledSwept(300, 6, "futex");
    PolledSwept(400, 6, "futex");
    PolledSwept(500, 6, "futex");
  }

  lemma ProcJudged(q: Proc, p: Proc, before: nat, ticks: nat, was: string, channel: string)
    requires q == Polled(0, before, was).cur.procs[0] && p == Polled(0, ticks, channel).cur.procs[0]
    requires before <= ticks <= before + 1
    ensures Idle(Some(q), p, 100, 100) <==> was == channel
    ensures Work(Some(q), p) == (ticks - before, 0)
  {
    assert q.wchans.value.Keys == {was} && p.wchans.value.Keys == {channel};
    assert was in {was};
  }

  lemma PollingJudged(k: nat)
    requires 1 <= k < 6 && Multi(POLLING[k].cur.procs, POLLER)
    ensures IdleAt(POLLING, 100, k, POLLER) <==> k != 2
    ensures WorkedAt(POLLING, k, POLLER) <==> k == 1
  {
    PollingStays(k);
    PollingStays(k - 1);
    var (before, was) := if k == 1 then (5, "poll") else if k == 2 then (6, "poll") else (6, "futex");
    ProcJudged(POLLING[k - 1].cur.procs[0], POLLING[k].cur.procs[0], before, 6, was,
               if k == 1 then "poll" else "futex");
  }

  lemma PollingDiffers()
    ensures (forall turn <- POLLING :: turn.lands) && PidsDistinct(POLLING) && Stays(POLLING, 0, 6, POLLER)
    ensures Described(POLLING, 100, 0, 5, POLLER) && !Stalled(POLLING, 100, 0, 5, POLLER)
  {
    forall k: nat | k < 6
      ensures Multi(POLLING[k].cur.procs, POLLER) && Distinct(POLLING[k].cur.procs) && POLLING[k].lands
    {
      PollingStays(k);
    }
    forall k: nat | 1 <= k < 6
      ensures IdleAt(POLLING, 100, k, POLLER) <==> k != 2
      ensures WorkedAt(POLLING, k, POLLER) <==> k == 1
    {
      PollingJudged(k);
    }
    assert !WorkedAt(POLLING, 0, POLLER);
    assert LongStretch(POLLING, 100, 0, 2, 5, POLLER);
    assert WorkedAt(POLLING, 1, POLLER);
    assert OnlyIdleWork(POLLING, 100, 0, 2, POLLER);
    StalledVersusDescribed(POLLING, 100, 0, 5, POLLER);
  }
}
