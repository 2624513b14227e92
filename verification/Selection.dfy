/** Which entries of a project tree `vk-agent archive` selects. */
module Selection {
  import opened Text
  import opened Wrappers
  import opened GlobPattern
  import opened GlobLiteral
  import opened ProjectPath

  /** An entry's path relative to the project, by components; the project itself is `[]`. */
  type Path = seq<string>

  /** A finite tree without symlinks. */
  datatype Tree = Tree(dirs: set<Path>, files: set<Path>) {
    predicate Has(p: Path) { p in dirs || p in files }

    ghost predicate Valid() {
      && [] in dirs
      && dirs !! files
      && (forall p: Path | Has(p) && p != [] :: Parent(p) in dirs)
      && (forall p: Path | Has(p) :: Names(p))
    }
  }

  function Parent(p: Path): Path
    requires p != []
  {
    p[..|p| - 1]
  }

  /** An entry as the source spells it: `.` for the project itself. */
  function Rel(p: Path): string {
    if p == [] then "." else Join(p, '/')
  }

  /** Splitting an entry's spelling gives its components back, so matching the one is matching the
      other. */
  lemma RelSplits(t: Tree, p: Path)
    requires t.Valid() && t.Has(p) && p != []
    ensures Split(Rel(p), '/') == p
  {
    forall name <- p
      ensures Free(name, '/')
    {
    }
    SplitJoin(p, '/');
  }

  lemma {:induction false} PrefixIsDir(t: Tree, p: Path, k: nat)
    requires t.Valid() && t.Has(p) && k < |p|
    ensures p[..k] in t.dirs
    decreases |p|
  {
    if k < |p| - 1 {
      PrefixIsDir(t, Parent(p), k);
      assert Parent(p)[..k] == p[..k];
    }
  }

  /** The entries at or below `dir`. */
  ghost function Below(t: Tree, dir: Path): set<Path> {
    set p <- t.dirs + t.files | dir <= p
  }

  function Listing(t: Tree, dir: Path): set<string> {
    set p <- t.dirs + t.files | |p| == |dir| + 1 && dir <= p :: p[|dir|]
  }

  lemma ListingIs(t: Tree, dir: Path, name: string)
    ensures name in Listing(t, dir) <==> t.Has(dir + [name])
  {
    if t.Has(dir + [name]) {
      assert (dir + [name])[|dir|] == name;
    }
    if name in Listing(t, dir) {
      var p :| p in t.dirs + t.files && |p| == |dir| + 1 && dir <= p && p[|dir|] == name;
      assert p == dir + [name];
    }
  }

  /** Everything below a directory is at or below one of the entries it lists. */
  lemma BelowListed(t: Tree, dir: Path, p: Path)
    requires t.Valid() && t.Has(p) && dir < p
    ensures dir in t.dirs && p[|dir|] in Listing(t, dir) && dir + [p[|dir|]] <= p
    ensures t.Has(dir + [p[|dir|]])
    ensures |p| > |dir| + 1 ==> dir + [p[|dir|]] in t.dirs
  {
    var child := p[..|dir| + 1];
    assert child == dir + [p[|dir|]];
    PrefixIsDir(t, p, |dir|);
    assert p[..|dir|] == dir;
    if |p| > |dir| + 1 {
      PrefixIsDir(t, p, |dir| + 1);
    } else {
      assert child == p;
    }
    ListingIs(t, dir, p[|dir|]);
  }

  // What is to be selected.

  ghost predicate Hits(pattern: string, p: Path) {
    Compile(pattern).Some? && Selects(Compile(pattern).value, p)
  }

  /** Some entry on the way down to `p`, `p` included and the project excluded, matches. */
  ghost predicate HitsAbove(pattern: string, p: Path) {
    exists k | 1 <= k <= |p| :: Hits(pattern, p[..k])
  }

  /** `p` matches and nothing above it does. */
  ghost predicate FirstHit(pattern: string, p: Path) {
    p != [] && Hits(pattern, p) && !HitsAbove(pattern, Parent(p))
  }

  /** What `pattern` names in the tree: the project for `.`, else its topmost matches. */
  ghost predicate Named(t: Tree, pattern: string, p: Path) {
    if pattern == "." then p == [] else t.Has(p) && FirstHit(pattern, p)
  }

  lemma {:induction false} TopmostHit(pattern: string, p: Path) returns (k: nat)
    requires HitsAbove(pattern, p)
    ensures 1 <= k <= |p| && FirstHit(pattern, p[..k])
    decreases |p|
  {
    k :| 1 <= k <= |p| && Hits(pattern, p[..k]);
    var above := Parent(p[..k]);
    if HitsAbove(pattern, above) {
      k := TopmostHit(pattern, above);
      assert above[..k] == p[..k];
    }
  }

  lemma HitsAboveShorter(pattern: string, p: Path, q: Path)
    requires q <= p && HitsAbove(pattern, q)
    ensures HitsAbove(pattern, p)
  {
    var k :| 1 <= k <= |q| && Hits(pattern, q[..k]);
    assert q[..k] == p[..k];
  }

  // The search for a pattern's topmost matches.

  predicate Kid(t: Tree, dir: Path, p: Path) {
    t.Has(p) && |p| == |dir| + 1 && dir <= p
  }

  /** A listed entry the search goes on into: a directory that does not match and is not as
      deep as the pattern's longest alternative. */
  ghost predicate Descends(t: Tree, compiled: Pattern, depth: Option<nat>, p: Path) {
    !Selects(compiled, p) && p in t.dirs && (depth.Some? ==> |p| < depth.value)
  }

  ghost function Weight(t: Tree, stack: seq<Path>): nat {
    if stack == [] then 0 else Weight(t, stack[..|stack| - 1]) + |Below(t, stack[|stack| - 1])|
  }

  lemma {:induction false} WeightPlus(t: Tree, a: seq<Path>, b: seq<Path>)
    ensures Weight(t, a + b) == Weight(t, a) + Weight(t, b)
  {
    if b == [] {
      Unit(a);
    } else {
      var c := b[..|b| - 1];
      WeightPlus(t, a, c);
      assert (a + b)[..|a + b| - 1] == a + c;
    }
  }

  lemma WeightPush(t: Tree, a: seq<Path>, p: Path)
    ensures Weight(t, a + [p]) == Weight(t, a) + |Below(t, p)|
  {
    assert (a + [p])[..|a + [p]| - 1] == a;
  }

  ghost function BelowNames(t: Tree, dir: Path, names: set<string>): set<Path> {
    set p <- t.dirs + t.files | dir < p && p[|dir|] in names
  }

  lemma BelowNamesPlus(t: Tree, dir: Path, names: set<string>, name: string)
    requires name !in names
    ensures |BelowNames(t, dir, names + {name})|
            == |BelowNames(t, dir, names)| + |Below(t, dir + [name])|
  {
    var child := dir + [name];
    assert BelowNames(t, dir, names + {name}) == BelowNames(t, dir, names) + Below(t, child) by {
      forall p <- t.dirs + t.files
        ensures dir < p && p[|dir|] == name <==> child <= p
      {
        if dir < p && p[|dir|] == name {
          assert p[..|dir| + 1] == child;
        }
        if child <= p {
          assert p[..|dir| + 1] == child && p[|dir|] == child[|dir|];
        }
      }
    }
    assert BelowNames(t, dir, names) !! Below(t, child);
  }

  /** One more element done. */
  lemma OneDone<T>(done: set<T>, todo: set<T>, all: set<T>, x: T)
    requires done !! todo && done + todo == all && x in todo
    ensures (done + {x}) !! (todo - {x}) && done + {x} + (todo - {x}) == all
  {
  }

  /** `hits` and `subs` are what the listed entries named in `done` come to. */
  ghost predicate Visited(t: Tree, dir: Path, compiled: Pattern, depth: Option<nat>, done: set<string>,
                          hits: set<Path>, subs: seq<Path>)
  {
    && (forall p :: p in hits <==> Kid(t, dir, p) && p[|dir|] in done && Selects(compiled, p))
    && (forall p :: p in subs <==>
          Kid(t, dir, p) && p[|dir|] in done && Descends(t, compiled, depth, p))
  }

  lemma VisitedHit(t: Tree, dir: Path, compiled: Pattern, depth: Option<nat>, done: set<string>,
                   hits: set<Path>, subs: seq<Path>, name: string)
    requires Visited(t, dir, compiled, depth, done, hits, subs)
    requires t.Has(dir + [name]) && Selects(compiled, dir + [name])
    ensures Visited(t, dir, compiled, depth, done + {name}, hits + {dir + [name]}, subs)
  {
    KidNamed(t, dir, name);
  }

  lemma VisitedSub(t: Tree, dir: Path, compiled: Pattern, depth: Option<nat>, done: set<string>,
                   hits: set<Path>, subs: seq<Path>, name: string)
    requires Visited(t, dir, compiled, depth, done, hits, subs)
    requires t.Has(dir + [name]) && Descends(t, compiled, depth, dir + [name])
    ensures Visited(t, dir, compiled, depth, done + {name}, hits, subs + [dir + [name]])
  {
    KidNamed(t, dir, name);
  }

  lemma VisitedNeither(t: Tree, dir: Path, compiled: Pattern, depth: Option<nat>, done: set<string>,
                       hits: set<Path>, subs: seq<Path>, name: string)
    requires Visited(t, dir, compiled, depth, done, hits, subs)
    requires !Selects(compiled, dir + [name]) && !Descends(t, compiled, depth, dir + [name])
    ensures Visited(t, dir, compiled, depth, done + {name}, hits, subs)
  {
    KidNamed(t, dir, name);
  }

  /** One directory of the search: which listed entries match, and which to search in turn. */
  method VisitDir(t: Tree, dir: Path, compiled: Pattern, depth: Option<nat>)
    returns (hits: set<Path>, subs: seq<Path>)
    requires t.Valid()
    ensures forall p :: p in hits <==> Kid(t, dir, p) && Selects(compiled, p)
    ensures forall p :: p in subs <==> Kid(t, dir, p) && Descends(t, compiled, depth, p)
    ensures if dir in t.dirs then Weight(t, subs) < |Below(t, dir)| else subs == []
  {
    hits, subs := {}, [];
    var names := Listing(t, dir);
    ghost var done: set<string> := {};
    assert BelowNames(t, dir, done) == {};
    while names != {}
      invariant done !! names && done + names == Listing(t, dir)
      invariant Visited(t, dir, compiled, depth, done, hits, subs)
      invariant Weight(t, subs) <= |BelowNames(t, dir, done)|
      decreases names
    {
      var name :| name in names;
      var rel := dir + [name];
      ListingIs(t, dir, name);
      OneDone(done, names, Listing(t, dir), name);
      var hit := PatternMatches(compiled, rel);
      BelowNamesPlus(t, dir, done, name);
      if hit {
        VisitedHit(t, dir, compiled, depth, done, hits, subs, name);
        hits := hits + {rel};
      } else if rel in t.dirs && (depth.Some? ==> |rel| < depth.value) {
        VisitedSub(t, dir, compiled, depth, done, hits, subs, name);
        WeightPush(t, subs, rel);
        subs := subs + [rel];
      } else {
        VisitedNeither(t, dir, compiled, depth, done, hits, subs, name);
      }
      names := names - {name};
      done := done + {name};
    }
    KidsListed(t, dir);
    VisitShrinks(t, dir, subs);
  }

  lemma KidNamed(t: Tree, dir: Path, name: string)
    ensures forall p :: Kid(t, dir, p) && p[|dir|] == name <==> t.Has(p) && p == dir + [name]
  {
    forall p | Kid(t, dir, p) && p[|dir|] == name
      ensures p == dir + [name]
    {
    }
  }

  lemma KidsListed(t: Tree, dir: Path)
    ensures forall p | Kid(t, dir, p) :: p[|dir|] in Listing(t, dir)
  {
  }

  lemma VisitShrinks(t: Tree, dir: Path, subs: seq<Path>)
    requires t.Valid() && Weight(t, subs) <= |BelowNames(t, dir, Listing(t, dir))|
    requires forall p <- subs :: Kid(t, dir, p)
    ensures if dir in t.dirs then Weight(t, subs) < |Below(t, dir)| else subs == []
  {
    if subs != [] {
      KidHasDir(t, dir, subs[0]);
    }
    if dir in t.dirs {
      var below := BelowNames(t, dir, Listing(t, dir));
      assert dir in Below(t, dir) && dir !in below;
      Smaller(below, Below(t, dir));
    }
  }

  lemma KidHasDir(t: Tree, dir: Path, p: Path)
    requires t.Valid() && Kid(t, dir, p)
    ensures dir in t.dirs
  {
    assert Parent(p) == dir;
  }

  lemma Smaller<T>(a: set<T>, b: set<T>)
    requires a < b
    ensures |a| < |b|
  {
    assert b == a + (b - a);
    assert |b| == |a| + |b - a|;
    assert b - a != {};
  }

  /** Every topmost match is found already, or lies below a directory still to be searched. */
  ghost predicate Covers(t: Tree, pattern: string, out: set<Path>, stack: seq<Path>) {
    && (forall p <- out :: Named(t, pattern, p))
    && (forall p | Named(t, pattern, p) :: p in out || Pending(stack, p))
    && (forall d <- stack | d in t.dirs :: !HitsAbove(pattern, d))
  }

  ghost predicate Pending(stack: seq<Path>, p: Path) {
    exists d <- stack :: d < p
  }

  lemma KidHitIsNamed(t: Tree, pattern: string, dir: Path, p: Path)
    requires t.Valid() && Kid(t, dir, p) && Hits(pattern, p) && pattern != "."
    requires dir in t.dirs ==> !HitsAbove(pattern, dir)
    ensures Named(t, pattern, p)
  {
    assert Parent(p) == dir;
  }

  lemma KidOpen(t: Tree, pattern: string, dir: Path, p: Path)
    requires t.Valid() && Kid(t, dir, p) && !Hits(pattern, p)
    requires dir in t.dirs ==> !HitsAbove(pattern, dir)
    ensures !HitsAbove(pattern, p)
  {
    assert Parent(p) == dir;
    forall k | 1 <= k <= |p|
      ensures !Hits(pattern, p[..k])
    {
      if k == |p| {
        assert p[..k] == p;
      } else {
        assert p[..k] == dir[..k];
      }
    }
  }

  lemma PendingMoves(t: Tree, pattern: string, compiled: Pattern, dir: Path, hits: set<Path>,
                     subs: seq<Path>, p: Path)
    requires t.Valid() && Compile(pattern) == Some(compiled) && pattern != "."
    requires forall q :: q in hits <==> Kid(t, dir, q) && Selects(compiled, q)
    requires forall q :: q in subs <==> Kid(t, dir, q) && Descends(t, compiled, Depth(compiled), q)
    requires Named(t, pattern, p) && dir < p
    ensures p in hits || Pending(subs, p)
  {
    BelowListed(t, dir, p);
    var child := dir + [p[|dir|]];
    assert Kid(t, dir, child);
    if child == p {
      assert p in hits;
    } else {
      assert child <= Parent(p) && child == Parent(p)[..|child|];
      assert !Hits(pattern, child);
      if Depth(compiled).Some? {
        DepthBounds(compiled, p);
      }
      assert child in subs;
    }
  }

  lemma CoversStep(t: Tree, pattern: string, compiled: Pattern, out: set<Path>, rest: seq<Path>,
                   dir: Path, hits: set<Path>, subs: seq<Path>)
    requires t.Valid() && Compile(pattern) == Some(compiled) && pattern != "."
    requires Covers(t, pattern, out, rest + [dir])
    requires forall q :: q in hits <==> Kid(t, dir, q) && Selects(compiled, q)
    requires forall q :: q in subs <==> Kid(t, dir, q) && Descends(t, compiled, Depth(compiled), q)
    ensures Covers(t, pattern, out + hits, rest + subs)
  {
    assert dir in rest + [dir];
    forall p <- hits
      ensures Named(t, pattern, p)
    {
      KidHitIsNamed(t, pattern, dir, p);
    }
    forall p | Named(t, pattern, p)
      ensures p in out + hits || Pending(rest + subs, p)
    {
      if p !in out {
        var d :| d in rest + [dir] && d < p;
        if d == dir {
          PendingMoves(t, pattern, compiled, dir, hits, subs, p);
          if p !in hits {
            var d' :| d' in subs && d' < p;
            assert d' in rest + subs;
          }
        } else {
          assert d in rest + subs;
        }
      }
    }
    forall d <- rest + subs | d in t.dirs
      ensures !HitsAbove(pattern, d)
    {
      if d in subs {
        KidOpen(t, pattern, dir, d);
      } else {
        assert d in rest + [dir];
      }
    }
  }

  /** A match above the literal base, or beside it, cannot be. */
  lemma BaseFirst(pattern: string, base: Path, p: Path)
    requires GlobBase(pattern) != [] && base == Split(GlobBase(pattern), '/')
    requires HitsAbove(pattern, p)
    ensures base <= p
  {
    var k :| 1 <= k <= |p| && Hits(pattern, p[..k]);
    MatchesUnderBase(pattern, p[..k]);
  }

  lemma BaseNamed(t: Tree, pattern: string, base: Path, p: Path)
    requires t.Valid() && pattern != "."
    requires GlobBase(pattern) != [] && base == Split(GlobBase(pattern), '/')
    ensures Named(t, pattern, p) ==> base <= p && t.Has(base)
    ensures Hits(pattern, base) ==> (Named(t, pattern, p) <==> p == base && t.Has(base))
  {
    if Named(t, pattern, p) {
      assert p[..|p|] == p;
      BaseFirst(pattern, base, p);
      if base != p {
        PrefixIsDir(t, p, |base|);
        assert p[..|base|] == base == Parent(p)[..|base|];
      }
    }
    if Hits(pattern, base) && HitsAbove(pattern, Parent(base)) {
      BaseFirst(pattern, base, Parent(base));
    }
  }

  lemma BaseOpen(pattern: string, base: Path)
    requires GlobBase(pattern) != [] && base == Split(GlobBase(pattern), '/')
    requires !Hits(pattern, base)
    ensures !HitsAbove(pattern, base)
  {
    forall k | 1 <= k <= |base|
      ensures !Hits(pattern, base[..k])
    {
      if k == |base| {
        assert base[..k] == base;
      } else if Hits(pattern, base[..k]) {
        MatchesUnderBase(pattern, base[..k]);
      }
    }
  }

  lemma CoversStart(t: Tree, pattern: string, base: Path, out: set<Path>)
    requires t.Valid() && pattern != "."
    requires base == if GlobBase(pattern) == [] then [] else Split(GlobBase(pattern), '/')
    requires if base != [] && Hits(pattern, base) then base !in t.dirs && t.Has(base) && out == {base}
             else out == {}
    ensures Covers(t, pattern, out, [base])
  {
    forall p: Path
      ensures p in out ==> Named(t, pattern, p)
      ensures Named(t, pattern, p) ==> p in out || base < p
    {
      if base != [] {
        BaseNamed(t, pattern, base, p);
      }
      assert base <= p && |base| == |p| ==> base == p;
    }
    forall p | Named(t, pattern, p) && p !in out
      ensures Pending([base], p)
    {
      assert base in [base];
    }
    if base != [] && !Hits(pattern, base) {
      BaseOpen(pattern, base);
    }
  }

  lemma PlainNamed(t: Tree, pattern: string, p: Path)
    requires Plain(pattern) && pattern != "."
    ensures Named(t, pattern, p) <==> p == Split(pattern, '/') && t.Has(p)
  {
    var names := Split(pattern, '/');
    PlainMatchesItself(pattern, p);
    PlainMatchesItself(pattern, names);
    if p == names && HitsAbove(pattern, Parent(p)) {
      var k :| 1 <= k <= |Parent(p)| && Hits(pattern, Parent(p)[..k]);
      PlainMatchesItself(pattern, Parent(p)[..k]);
    }
  }

  /** The walk for one pattern: exactly the pattern's topmost matches in the tree, whatever the
      literal base, the depth bound and the stop at a match prune. */
  method Glob(t: Tree, pattern: string) returns (r: Option<set<Path>>)
    requires t.Valid()
    ensures r.None? <==> Compile(pattern).None?
    ensures r.Some? ==> forall p :: p in r.value <==> Named(t, pattern, p)
  {
    if Plain(pattern) {
      PlainMatchesItself(pattern, []);
      var named := if pattern == "." then [] else Split(pattern, '/');
      if pattern != "." {
        forall p: Path
          ensures Named(t, pattern, p) <==> p == named && t.Has(p)
        {
          PlainNamed(t, pattern, p);
        }
      }
      return Some(if t.Has(named) then {named} else {});
    }
    assert Plain(".");
    var compiled := NewPattern(pattern);
    if compiled.None? {
      return None;
    }
    var base := if GlobBase(pattern) == [] then [] else Split(GlobBase(pattern), '/');
    var out: set<Path> := {};
    if base != [] {
      var hit := PatternMatches(compiled.value, base);
      if hit {
        forall p: Path
          ensures Named(t, pattern, p) <==> p == base && t.Has(base)
        {
          BaseNamed(t, pattern, base, p);
        }
        if base in t.dirs {
          return Some({base});
        }
        if !t.Has(base) {
          return Some({});
        }
        out := {base};
      }
    }
    CoversStart(t, pattern, base, out);
    out := Search(t, pattern, compiled.value, base, out);
    return Some(out);
  }

  method Search(t: Tree, pattern: string, compiled: Pattern, base: Path, found: set<Path>)
    returns (out: set<Path>)
    requires t.Valid() && Compile(pattern) == Some(compiled) && pattern != "."
    requires Covers(t, pattern, found, [base])
    ensures forall p :: p in out <==> Named(t, pattern, p)
  {
    var depth := Depth(compiled);
    var stack := [base];
    out := found;
    while stack != []
      invariant Covers(t, pattern, out, stack)
      decreases Weight(t, stack), |stack|
    {
      var dir, rest := stack[|stack| - 1], stack[..|stack| - 1];
      assert stack == rest + [dir];
      var hits, subs := VisitDir(t, dir, compiled, depth);
      CoversStep(t, pattern, compiled, out, rest, dir, hits, subs);
      WeightPlus(t, rest, subs);
      out := out + hits;
      stack := rest + subs;
      if subs == [] {
        Unit(rest);
      }
    }
    forall p | Named(t, pattern, p)
      ensures p in out
    {
      assert !Pending([], p);
    }
  }

  // The selection.

  /** `e` is brought in by the path argument `path`: it is under the project and names `e`, something
      above it, or the whole project. */
  ghost predicate Brings(root: seq<string>, path: string, e: Path) {
    path != "" &&
    match RelativeInProject(root, path)
    case None => false
    case Some(rel) => rel == "." || HitsAbove(rel, e)
  }

  ghost predicate Drops(root: seq<string>, rule: string, e: Path) {
    match RelativeInProject(root, rule)
    case None => false
    case Some(rel) => Hits(rel, e)
  }

  ghost predicate AnySelects(rules: seq<Pattern>, e: Path) {
    exists pattern <- rules :: Selects(pattern, e)
  }

  ghost predicate AnyDrops(root: seq<string>, exclude: seq<string>, e: Path) {
    exists rule <- exclude :: Drops(root, rule, e)
  }

  /** The plain filter over the whole tree. */
  ghost predicate Wanted(t: Tree, root: seq<string>, paths: seq<string>, exclude: seq<string>, e: Path) {
    && t.Has(e) && e != []
    && (exists path <- paths :: Brings(root, path, e))
    && !AnyDrops(root, exclude, e)
  }

  class Selector {
    const tree: Tree
    const root: seq<string>
    const exclude: seq<Pattern>
    var files: set<Path>

    constructor (tree: Tree, root: seq<string>, exclude: seq<Pattern>)
      ensures this.tree == tree && this.root == root && this.exclude == exclude && files == {}
    {
      this.tree := tree;
      this.root := root;
      this.exclude := exclude;
      files := {};
    }

    ghost predicate Excluded(p: Path) {
      AnySelects(exclude, p)
    }

    /** The entries at or below `rel` that are kept. */
    ghost function Kept(rel: Path): set<Path> {
      set p <- Below(tree, rel) | p != [] && !Excluded(p)
    }

    /** Takes in one entry; the result says whether it was taken. */
    method Process(rel: Path) returns (added: bool)
      requires tree.Valid()
      modifies this`files
      ensures files == old(files) + if rel != [] && tree.Has(rel) && !Excluded(rel) then {rel} else {}
      ensures added == (tree.Has(rel) && (rel == [] || !Excluded(rel)))
    {
      if rel == [] {
        return true;
      }
      for k := 0 to |exclude|
        invariant forall j | 0 <= j < k :: !Selects(exclude[j], rel)
        invariant files == old(files)
      {
        var hit := PatternMatches(exclude[k], rel);
        if hit {
          return false;
        }
      }
      if !tree.Has(rel) {
        return false;
      }
      files := files + {rel};
      return true;
    }

    /** Takes in the subtree at `rel`, less what is excluded or is there already. */
    method Walk(rel: Path)
      requires tree.Valid() && tree.Has(rel)
      modifies this`files
      ensures files == old(files) + Kept(rel)
      decreases Below(tree, rel)
    {
      var added := Process(rel);
      if rel !in tree.dirs {
        LeafAlone(rel);
        return;
      }
      ghost var self := if rel != [] && !Excluded(rel) then {rel} else {};
      ghost var done: set<string> := {};
      var names := Listing(tree, rel);
      assert KeptUnder(rel, done) == {};
      while names != {}
        invariant done !! names && done + names == Listing(tree, rel)
        invariant files == old(files) + self + KeptUnder(rel, done)
        decreases names
      {
        var name :| name in names;
        ListingIs(tree, rel, name);
        OneDone(done, names, Listing(tree, rel), name);
        ChildSmaller(rel, name);
        KeptUnderPlus(rel, done, name);
        Walk(rel + [name]);
        names := names - {name};
        done := done + {name};
      }
      KeptAll(rel);
    }

    ghost function KeptUnder(rel: Path, names: set<string>): set<Path> {
      set p <- BelowNames(tree, rel, names) | !Excluded(p)
    }

    lemma LeafAlone(rel: Path)
      requires tree.Valid() && tree.Has(rel) && rel !in tree.dirs
      ensures Kept(rel) == if rel != [] && !Excluded(rel) then {rel} else {}
    {
      forall p <- Below(tree, rel)
        ensures p == rel
      {
        if p != rel {
          BelowListed(tree, rel, p);
        }
      }
    }

    lemma ChildSmaller(rel: Path, name: string)
      requires tree.Has(rel)
      ensures Below(tree, rel + [name]) < Below(tree, rel)
    {
      assert rel in Below(tree, rel) && rel !in Below(tree, rel + [name]);
      forall p <- Below(tree, rel + [name])
        ensures rel <= p
      {
        assert p[..|rel|] == (rel + [name])[..|rel|];
      }
    }

    lemma KeptUnderPlus(rel: Path, names: set<string>, name: string)
      ensures KeptUnder(rel, names + {name}) == KeptUnder(rel, names) + Kept(rel + [name])
    {
      var child := rel + [name];
      forall p <- tree.dirs + tree.files
        ensures rel < p && p[|rel|] == name <==> child <= p
      {
        if rel < p && p[|rel|] == name {
          assert p[..|rel| + 1] == child;
        }
        if child <= p {
          assert p[..|rel| + 1] == child && p[|rel|] == child[|rel|];
        }
      }
    }

    lemma KeptAll(rel: Path)
      requires tree.Valid() && rel in tree.dirs
      ensures Kept(rel) == (if rel != [] && !Excluded(rel) then {rel} else {})
                           + KeptUnder(rel, Listing(tree, rel))
    {
      forall p <- Below(tree, rel)
        ensures p == rel || p in BelowNames(tree, rel, Listing(tree, rel))
      {
        if p != rel {
          assert rel < p;
          BelowListed(tree, rel, p);
        }
      }
    }

    /** One path argument. */
    method ProcessPath(path: string)
      requires tree.Valid()
      modifies this`files
      ensures forall e :: e in files <==>
                e in old(files) ||
                (tree.Has(e) && e != [] && !Excluded(e) && Brings(root, path, e))
    {
      if path == "" {
        return;
      }
      var rel := Relative(root, path);
      if rel.None? {
        return;
      }
      var matched := Glob(tree, rel.value);
      if matched.None? {
        assert Compile(".").Some? by { PlainMatchesItself(".", []); }
        return;
      }
      WalkAll(matched.value);
      forall e | tree.Has(e) && e != []
        ensures (exists m <- matched.value :: m <= e) <==> rel.value == "." || HitsAbove(rel.value, e)
      {
        NamedAbove(tree, rel.value, matched.value, e);
      }
    }

    method WalkAll(matched: set<Path>)
      requires tree.Valid() && forall m <- matched :: tree.Has(m)
      modifies this`files
      ensures forall e :: e in files <==>
                e in old(files) ||
                (tree.Has(e) && e != [] && !Excluded(e) && exists m <- matched :: m <= e)
    {
      var todo, done: set<Path> := matched, {};
      while todo != {}
        invariant todo + done == matched
        invariant forall e :: e in files <==>
                    e in old(files) ||
                    (tree.Has(e) && e != [] && !Excluded(e) && exists m <- done :: m <= e)
        decreases todo
      {
        var m :| m in todo;
        Walk(m);
        todo := todo - {m};
        done := done + {m};
      }
      assert done == matched;
    }
  }

  /** Walking the topmost matches reaches exactly the entries with a match at or above them. */
  lemma NamedAbove(t: Tree, pattern: string, matched: set<Path>, e: Path)
    requires t.Valid() && t.Has(e) && e != []
    requires forall p :: p in matched <==> Named(t, pattern, p)
    ensures (exists m <- matched :: m <= e) <==> pattern == "." || HitsAbove(pattern, e)
  {
    if pattern == "." {
      assert [] in matched && [] <= e;
    } else {
      if m :| m in matched && m <= e {
        assert m[..|m|] == m;
        assert HitsAbove(pattern, m);
        HitsAboveShorter(pattern, e, m);
      }
      if HitsAbove(pattern, e) {
        var k := TopmostHit(pattern, e);
        assert e[..|e|] == e;
        if k < |e| {
          PrefixIsDir(t, e, k);
        }
        assert e[..k] in matched;
      }
    }
  }

  /** The selection: what a naive filter over the whole tree keeps, base pruning, depth pruning and
      the stop at each match notwithstanding. */
  method Select(t: Tree, root: seq<string>, paths: seq<string>, exclude: seq<string>)
    returns (files: set<Path>)
    requires t.Valid()
    ensures forall e :: e in files <==> Wanted(t, root, paths, exclude, e)
  {
    var rules := CompileRules(root, exclude);
    var sel := new Selector(t, root, rules);
    for k := 0 to |paths|
      invariant forall e :: e in sel.files <==>
                  && t.Has(e) && e != []
                  && (exists path <- paths[..k] :: Brings(root, path, e))
                  && !sel.Excluded(e)
    {
      sel.ProcessPath(paths[k]);
      assert paths[..k + 1] == paths[..k] + [paths[k]];
    }
    assert paths[..|paths|] == paths;
    files := sel.files;
  }

  /** The exclude rules that are in the project and valid, compiled. */
  method CompileRules(root: seq<string>, exclude: seq<string>) returns (rules: seq<Pattern>)
    ensures forall e: Path :: AnySelects(rules, e) <==> AnyDrops(root, exclude, e)
  {
    rules := [];
    for k := 0 to |exclude|
      invariant forall e: Path :: AnySelects(rules, e) <==> AnyDrops(root, exclude[..k], e)
    {
      var rel := Relative(root, exclude[k]);
      ghost var before := rules;
      if rel.Some? {
        var pattern := NewPattern(rel.value);
        if pattern.Some? {
          rules := rules + [pattern.value];
        }
      }
      forall e: Path
        ensures AnySelects(rules, e) <==> AnyDrops(root, exclude[..k + 1], e)
      {
        RuleAdded(root, before, rules, exclude, k, e);
      }
    }
    assert exclude[..|exclude|] == exclude;
  }

  lemma RuleAdded(root: seq<string>, before: seq<Pattern>, rules: seq<Pattern>, exclude: seq<string>,
                  k: nat, e: Path)
    requires k < |exclude| && (AnySelects(before, e) <==> AnyDrops(root, exclude[..k], e))
    requires var rel := RelativeInProject(root, exclude[k]);
             if rel.Some? && Compile(rel.value).Some? then rules == before + [Compile(rel.value).value]
             else rules == before
    ensures AnySelects(rules, e) <==> AnyDrops(root, exclude[..k + 1], e)
  {
    assert exclude[..k + 1] == exclude[..k] + [exclude[k]];
    assert AnyDrops(root, exclude[..k + 1], e) <==>
           AnyDrops(root, exclude[..k], e) || Drops(root, exclude[k], e) by {
      assert exclude[k] in exclude[..k + 1];
    }
    if rules != before {
      var added := rules[|before|];
      assert added in rules;
    }
  }
}
