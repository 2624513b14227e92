/** What cleanup is to leave, and exactly which registries make it leave that on every disk. */
module CleanupForm {
  import opened Wrappers
  import opened Registry
  import opened Cleanup
  import Text

  // What is to be left.

  /** Whether a line can remove what it leads to: not by the name `.`, and no file by a name that ends in
      `/`. */
  predicate Takes(disk: Disk, line: string) {
    Acts(line) && !(Slashed(line) && Where(line) in disk.files)
  }

  /** The paths that `lines` can remove from the disk. */
  function TakenBy(disk: Disk, lines: seq<string>): set<Path> {
    set line <- lines | Takes(disk, line) :: Where(line)
  }

  /** `p` is kept for the sake of something below it that stays. */
  predicate Needed(disk: Disk, taken: set<Path>, p: Path) {
    exists q <- disk.dirs + disk.files :: q !in taken && p < q
  }

  /** What cleanup is to leave: a directory goes if a line takes it, it is not the root and nothing below
      it stays; a file goes if a line takes it, or it is a registry. */
  ghost predicate ClosedForm(disk: Disk, tmpfs: string, inImage: string) {
    var cleaned := Cleaned(disk, tmpfs, inImage);
    var taken := TakenBy(disk, Recorded(tmpfs, inImage));
    && (forall p: Path :: p in cleaned.dirs <==>
          p in disk.dirs && (p in taken ==> p == [] || Needed(disk, taken, p)))
    && (forall p: Path :: p in cleaned.files <==>
          p in disk.files && p !in taken && p !in REGISTRIES)
  }

  // Which lines are sure to arrive.

  /** The way from `at` leads only through `q` and the directories above it; if `strict`, not through
      `q`. */
  predicate Keeps(q: Path, at: Path, parts: seq<string>, strict: bool)
    decreases |parts|
  {
    parts == [] || (at <= q && (strict ==> at != q) && Keeps(q, Onto(at, parts[0]), parts[1..], strict))
  }

  /** The line arrives wherever a directory is where it leads. */
  predicate Reaches(line: string) {
    Keeps(Where(line), [], Parse(line).parts, false)
  }

  /** The line arrives wherever there is anything it can remove. */
  predicate Direct(line: string) {
    Keeps(Where(line), [], Parse(line).parts, !Slashed(line))
  }

  predicate Child(p: Path, c: Path) {
    |c| == |p| + 1 && p < c
  }

  /** Among the first `n` lines is one by which a file at `q` is sure to go. */
  predicate FileDone(lines: seq<string>, n: nat, q: Path)
    requires n <= |lines|
  {
    exists i: nat | i < n :: Acts(lines[i]) && !Slashed(lines[i]) && Where(lines[i]) == q && Direct(lines[i])
  }

  /** Among the first `n` lines is one by which a directory at `q` is sure to go, if nothing unrecorded is
      below it. */
  predicate DirDone(lines: seq<string>, n: nat, q: Path)
    requires n <= |lines|
    decreases n, 0
  {
    exists i: nat | i < n :: Clears(lines, i, q)
  }

  /** Line `i` is sure to find the directory at `q`, after all that lines take directly in it is gone. */
  predicate Clears(lines: seq<string>, i: nat, q: Path)
    requires i < |lines|
    decreases i, 1
  {
    && Acts(lines[i]) && Where(lines[i]) == q && Reaches(lines[i])
    && forall line <- lines | Acts(line) && Child(q, Where(line)) ::
         DirDone(lines, i, Where(line)) && (Slashed(line) || FileDone(lines, i, Where(line)))
  }

  /** Everything the lines lead to has a line by which it is sure to go. */
  predicate Settles(lines: seq<string>) {
    forall line <- lines | Acts(line) && Where(line) != [] ::
      && DirDone(lines, |lines|, Where(line))
      && (Slashed(line) || Where(line) in REGISTRIES || FileDone(lines, |lines|, Where(line)))
  }

  lemma DoneLater(lines: seq<string>, n: nat, m: nat, q: Path)
    requires n <= m <= |lines|
    ensures FileDone(lines, n, q) ==> FileDone(lines, m, q)
    ensures DirDone(lines, n, q) ==> DirDone(lines, m, q)
  {
  }

  // Walking.

  lemma {:induction false} KeepsWalk(disk: Disk, q: Path, at: Path, parts: seq<string>, strict: bool)
    requires disk.Valid() && disk.Has(q) && (strict || q in disk.dirs) && Keeps(q, at, parts, strict)
    ensures Walk(disk, at, parts) == Some(Lexical(at, parts))
    decreases |parts|
  {
    if parts != [] {
      assert at == q[..|at|];
      if |at| == |q| {
        assert at == q;
      } else {
        assert q[..|at|] in disk.dirs;
      }
      KeepsWalk(disk, q, Onto(at, parts[0]), parts[1..], strict);
    }
  }

  lemma {:induction false} WalkKeeps(disk: Disk, q: Path, at: Path, parts: seq<string>, strict: bool)
    requires forall x <- disk.dirs :: x <= q && (strict ==> x != q)
    requires Walk(disk, at, parts).Some?
    ensures Keeps(q, at, parts, strict)
    decreases |parts|
  {
    if parts != [] {
      WalkKeeps(disk, q, Onto(at, parts[0]), parts[1..], strict);
    }
  }

  // Every disk stays one.

  lemma DroppedValid(disk: Disk, line: string)
    requires disk.Valid()
    ensures Dropped(disk, line).Valid()
  {
    if DirGoes(disk, line) {
      var (d, after) := (Target(disk, line).value, Dropped(disk, line));
      forall p: Path, k: nat | after.Has(p) && k < |p|
        ensures p[..k] in after.dirs
      {
        if p[..k] == d {
          ChildThere(disk, d, p);
          assert false;
        }
      }
    }
  }

  lemma ChildThere(disk: Disk, d: Path, p: Path)
    requires disk.Valid() && disk.Has(p) && d < p
    ensures !disk.Empty(d)
  {
    var c := p[..|d| + 1];
    if c == p {
      assert c in disk.dirs + disk.files;
    } else {
      assert c in disk.dirs;
      assert c in disk.dirs + disk.files;
    }
    assert c[..|d|] == d;
  }

  lemma {:induction false} AllValid(disk: Disk, lines: seq<string>)
    requires disk.Valid()
    ensures DroppedAll(disk, lines).Valid()
  {
    if lines != [] {
      AllValid(disk, lines[..|lines| - 1]);
      DroppedValid(DroppedAll(disk, lines[..|lines| - 1]), lines[|lines| - 1]);
    }
  }

  lemma OneMore(disk: Disk, lines: seq<string>, n: nat)
    requires n < |lines|
    ensures DroppedAll(disk, lines[..n + 1]) == Dropped(DroppedAll(disk, lines[..n]), lines[n])
  {
    assert lines[..n + 1][..n] == lines[..n];
  }

  ghost predicate Within(after: Disk, disk: Disk) {
    after.dirs <= disk.dirs && after.files <= disk.files
  }

  lemma {:induction false} Shrinks(disk: Disk, lines: seq<string>, n: nat, m: nat)
    requires n <= m <= |lines|
    ensures Within(DroppedAll(disk, lines[..m]), DroppedAll(disk, lines[..n]))
    decreases m
  {
    if n < m {
      Shrinks(disk, lines, n, m - 1);
      OneMore(disk, lines, m - 1);
    }
  }

  lemma ShrinksAll(disk: Disk, lines: seq<string>, n: nat)
    requires n <= |lines|
    ensures Within(DroppedAll(disk, lines[..n]), disk)
  {
    Shrinks(disk, lines, 0, n);
    assert lines[..0] == [];
  }

  // Lines that settle leave the closed form.

  lemma FileGone(disk: Disk, lines: seq<string>, n: nat, q: Path)
    requires disk.Valid() && n <= |lines| && FileDone(lines, n, q)
    ensures q !in DroppedAll(disk, lines[..n]).files
  {
    var i: nat :| i < n && Acts(lines[i]) && !Slashed(lines[i]) && Where(lines[i]) == q && Direct(lines[i]);
    var before := DroppedAll(disk, lines[..i]);
    AllValid(disk, lines[..i]);
    if q in before.files {
      KeepsWalk(before, q, [], Parse(lines[i]).parts, true);
    }
    OneMore(disk, lines, i);
    Shrinks(disk, lines, i + 1, n);
  }

  lemma TakenLine(disk: Disk, lines: seq<string>, q: Path) returns (line: string)
    requires q in TakenBy(disk, lines)
    ensures line in lines && Takes(disk, line) && Where(line) == q
  {
    line :| line in lines && Takes(disk, line) && Where(line) == q;
  }

  lemma {:induction false} DirGone(disk: Disk, lines: seq<string>, n: nat, q: Path)
    requires disk.Valid() && n <= |lines| && q != [] && DirDone(lines, n, q)
    requires !Needed(disk, TakenBy(disk, lines), q)
    ensures q !in DroppedAll(disk, lines[..n]).dirs
    decreases n, 0
  {
    var i: nat :| i < n && Clears(lines, i, q);
    var before := DroppedAll(disk, lines[..i]);
    AllValid(disk, lines[..i]);
    forall c <- before.dirs + before.files
      ensures !Child(q, c)
    {
      if Child(q, c) {
        ChildGone(disk, lines, i, q, c);
      }
    }
    if q in before.dirs {
      EmptyNow(before, q);
      KeepsWalk(before, q, [], Parse(lines[i]).parts, false);
    }
    OneMore(disk, lines, i);
    Shrinks(disk, lines, i + 1, n);
  }

  lemma EmptyNow(disk: Disk, q: Path)
    requires forall c <- disk.dirs + disk.files :: !Child(q, c)
    ensures disk.Empty(q)
  {
    forall c <- disk.dirs + disk.files
      ensures |c| != |q| + 1 || c[..|q|] != q
    {
      assert !Child(q, c);
    }
  }

  lemma ClearedChild(lines: seq<string>, i: nat, q: Path, line: string)
    requires i < |lines| && Clears(lines, i, q) && line in lines && Acts(line) && Child(q, Where(line))
    ensures DirDone(lines, i, Where(line)) && (Slashed(line) || FileDone(lines, i, Where(line)))
  {
  }

  lemma NotNeededBelow(disk: Disk, taken: set<Path>, q: Path, c: Path)
    requires !Needed(disk, taken, q) && q < c
    ensures disk.Has(c) ==> c in taken
    ensures !Needed(disk, taken, c)
  {
    if disk.Has(c) {
      assert c in disk.dirs + disk.files;
    }
    forall x <- disk.dirs + disk.files | c < x
      ensures x in taken
    {
      assert q < x;
    }
  }

  lemma {:induction false} ChildGone(disk: Disk, lines: seq<string>, i: nat, q: Path, c: Path)
    requires disk.Valid() && i < |lines| && Clears(lines, i, q) && Child(q, c)
    requires !Needed(disk, TakenBy(disk, lines), q)
    ensures !DroppedAll(disk, lines[..i]).Has(c)
    decreases i, 1
  {
    ShrinksAll(disk, lines, i);
    NotNeededBelow(disk, TakenBy(disk, lines), q, c);
    if disk.Has(c) {
      var line := TakenLine(disk, lines, c);
      ClearedChild(lines, i, q, line);
      DirGone(disk, lines, i, c);
      if c in disk.files {
        FileGone(disk, lines, i, c);
      }
    }
  }

  lemma {:induction false} UntakenStays(disk: Disk, lines: seq<string>, n: nat, p: Path)
    requires disk.Valid() && n <= |lines| && p !in TakenBy(disk, lines)
    ensures p in disk.dirs ==> p in DroppedAll(disk, lines[..n]).dirs
    ensures p in disk.files ==> p in DroppedAll(disk, lines[..n]).files
    decreases n
  {
    if n > 0 {
      var (before, line) := (DroppedAll(disk, lines[..n - 1]), lines[n - 1]);
      UntakenStays(disk, lines, n - 1, p);
      OneMore(disk, lines, n - 1);
      WalkLexical(before, [], Parse(line).parts);
      assert line in lines;
    } else {
      assert lines[..0] == [];
    }
  }

  lemma NeededStays(disk: Disk, lines: seq<string>, p: Path)
    requires disk.Valid() && Needed(disk, TakenBy(disk, lines), p)
    ensures p in DroppedAll(disk, lines).dirs
  {
    var q :| q in disk.dirs + disk.files && q !in TakenBy(disk, lines) && p < q;
    UntakenStays(disk, lines, |lines|, q);
    assert lines[..|lines|] == lines;
    AllValid(disk, lines);
    assert p == q[..|p|];
  }

  lemma SettledDirs(disk: Disk, lines: seq<string>, p: Path)
    requires disk.Valid() && Settles(lines)
    ensures var taken := TakenBy(disk, lines);
            p in DroppedAll(disk, lines).dirs <==>
              p in disk.dirs && (p in taken ==> p == [] || Needed(disk, taken, p))
  {
    var taken := TakenBy(disk, lines);
    ShrinksAll(disk, lines, |lines|);
    assert lines[..|lines|] == lines;
    AllValid(disk, lines);
    if p !in taken {
      UntakenStays(disk, lines, |lines|, p);
    } else if Needed(disk, taken, p) {
      NeededStays(disk, lines, p);
    } else if p != [] {
      var line := TakenLine(disk, lines, p);
      DirGone(disk, lines, |lines|, p);
    }
  }

  lemma SettledFiles(disk: Disk, lines: seq<string>, p: Path)
    requires disk.Valid() && Settles(lines) && p !in REGISTRIES
    ensures p in DroppedAll(disk, lines).files <==> p in disk.files && p !in TakenBy(disk, lines)
  {
    ShrinksAll(disk, lines, |lines|);
    assert lines[..|lines|] == lines;
    if p !in TakenBy(disk, lines) {
      UntakenStays(disk, lines, |lines|, p);
    } else if p in disk.files {
      var line := TakenLine(disk, lines, p);
      FileGone(disk, lines, |lines|, p);
    }
  }

  // The registries themselves.

  lemma RegistryDropped(disk: Disk, line: string, p: Path)
    requires disk.Valid() && Spells(line, p)
    ensures FileDropped(disk, line) == disk.(files := disk.files - {p})
  {
    WalkLexical(disk, [], Parse(line).parts);
    if p in disk.files {
      StraightDirect(line);
      KeepsWalk(disk, p, [], Parse(line).parts, true);
    } else {
      assert disk.files - {p} == disk.files;
    }
  }

  lemma StillValid(disk: Disk, p: Path)
    requires disk.Valid()
    ensures disk.(files := disk.files - {p}).Valid()
  {
  }

  lemma TwoDropped(disk: Disk, a: string, b: string, p: Path, q: Path)
    requires disk.Valid() && Spells(a, p) && Spells(b, q)
    ensures FileDropped(FileDropped(disk, a), b) == disk.(files := disk.files - {p, q})
  {
    RegistryDropped(disk, a, p);
    StillValid(disk, p);
    RegistryDropped(disk.(files := disk.files - {p}), b, q);
    assert disk.files - {p} - {q} == disk.files - {p, q};
  }

  lemma RegistriesDropped(disk: Disk)
    requires disk.Valid()
    ensures FileDropped(FileDropped(disk, CREATED_REGISTRY), EPHEMERAL_REGISTRY)
            == disk.(files := disk.files - REGISTRIES)
  {
    CreatedNamed();
    EphemeralNamed();
    TwoDropped(disk, CREATED_REGISTRY, EPHEMERAL_REGISTRY, ["run", ".virtkit-created"], [".virtkit-ephemeral"]);
  }

  lemma SettledForm(disk: Disk, tmpfs: string, inImage: string)
    requires disk.Valid() && Settles(Recorded(tmpfs, inImage))
    ensures ClosedForm(disk, tmpfs, inImage)
  {
    var lines := Recorded(tmpfs, inImage);
    AllValid(disk, lines);
    RegistriesDropped(DroppedAll(disk, lines));
    forall p: Path
      ensures p in DroppedAll(disk, lines).dirs <==>
                p in disk.dirs && (p in TakenBy(disk, lines) ==> p == [] || Needed(disk, TakenBy(disk, lines), p))
    {
      SettledDirs(disk, lines, p);
    }
    forall p: Path | p !in REGISTRIES
      ensures p in DroppedAll(disk, lines).files <==> p in disk.files && p !in TakenBy(disk, lines)
    {
      SettledFiles(disk, lines, p);
    }
  }

  // A line without `..` arrives.

  lemma {:induction false} KeepsDown(q: Path, k: nat)
    requires Straight(q) && k <= |q|
    ensures Keeps(q, q[..k], q[k..], true)
    decreases |q| - k
  {
    if k < |q| {
      assert q[k] in q;
      assert q[..k] + [q[k]] == q[..k + 1];
      assert q[k..][1..] == q[k + 1..];
      KeepsDown(q, k + 1);
    }
  }

  lemma StraightDirect(line: string)
    requires NoUp(line) && Where(line) != []
    ensures Keeps(Where(line), [], Parse(line).parts, true)
  {
    var q := Where(line);
    LeadsDown(line);
    KeepsDown(q, 0);
    assert q[..0] == [] && q[0..] == q;
    assert (["."] + q)[1..] == q;
  }

  // Lines that do not settle fail on some disk.

  /** A disk with the directories down to `q` and nothing else. */
  function Chain(q: Path): Disk {
    Disk(set k: nat | k <= |q| :: q[..k], {})
  }

  /** A disk with the file `q`, the directories above it and nothing else. */
  function FileChain(q: Path): Disk {
    Disk(set k: nat | k < |q| :: q[..k], {q})
  }

  /** Everything on the disk is on the way to `end`. */
  ghost predicate Only(disk: Disk, end: Path) {
    disk.Valid() && forall x: Path | disk.Has(x) :: x <= end
  }

  lemma ChainOnly(q: Path)
    ensures Only(Chain(q), q) && q in Chain(q).dirs
  {
    assert q[..|q|] == q;
    assert q[..0] == [];
    forall x: Path, k: nat | Chain(q).Has(x) && k < |x|
      ensures x[..k] in Chain(q).dirs
    {
      assert x[..k] == q[..k];
    }
  }

  lemma FileChainOnly(q: Path)
    requires q != []
    ensures Only(FileChain(q), q) && q in FileChain(q).files
  {
    var disk := FileChain(q);
    assert q[..0] == [] && q[..0] in disk.dirs;
    forall x: Path | disk.Has(x)
      ensures x <= q && (x in disk.dirs ==> |x| < |q|)
    {
    }
    assert q !in disk.dirs;
    assert disk.dirs !! disk.files;
    forall x: Path, k: nat | disk.Has(x) && k < |x|
      ensures x[..k] in disk.dirs
    {
      assert x[..k] == q[..k];
    }
  }

  lemma OnlyAfter(disk: Disk, lines: seq<string>, n: nat, end: Path)
    requires n <= |lines| && Only(disk, end)
    ensures Only(DroppedAll(disk, lines[..n]), end)
  {
    AllValid(disk, lines[..n]);
    ShrinksAll(disk, lines, n);
    forall x: Path | DroppedAll(disk, lines[..n]).Has(x)
      ensures x <= end
    {
      assert disk.Has(x);
    }
  }

  /** Of a disk with nothing beside the way to `end`, a directory goes only by a line that keeps to it,
      once it is empty. */
  lemma DirStays(disk: Disk, end: Path, q: Path, line: string)
    requires Only(disk, end) && q in disk.dirs && q !in Dropped(disk, line).dirs
    ensures Acts(line) && Where(line) == q && Reaches(line) && disk.Empty(q)
  {
    WalkLexical(disk, [], Parse(line).parts);
    forall x <- disk.dirs
      ensures x <= q
    {
      assert disk.Has(x) && disk.Has(q);
      if |q| < |x| {
        assert q == x[..|q|];
        ChildThere(disk, q, x);
        assert false;
      }
    }
    WalkKeeps(disk, q, [], Parse(line).parts, false);
  }

  lemma FileStays(disk: Disk, q: Path, line: string)
    requires Only(disk, q) && q in disk.files && q !in Dropped(disk, line).files
    ensures Acts(line) && !Slashed(line) && Where(line) == q && Direct(line)
  {
    WalkLexical(disk, [], Parse(line).parts);
    forall x <- disk.dirs
      ensures x <= q && x != q
    {
      assert disk.Has(x);
    }
    WalkKeeps(disk, q, [], Parse(line).parts, true);
  }

  lemma {:induction false} FileLingers(lines: seq<string>, n: nat, q: Path)
    requires n <= |lines| && q != [] && !FileDone(lines, n, q)
    ensures q in DroppedAll(FileChain(q), lines[..n]).files
    decreases n
  {
    FileChainOnly(q);
    if n == 0 {
      assert lines[..0] == [];
    } else {
      FileLingers(lines, n - 1, q);
      OnlyAfter(FileChain(q), lines, n - 1, q);
      OneMore(FileChain(q), lines, n - 1);
      var before := DroppedAll(FileChain(q), lines[..n - 1]);
      if q !in Dropped(before, lines[n - 1]).files {
        FileStays(before, q, lines[n - 1]);
      }
    }
  }

  /** After `n` lines the directory `q` is still there, though everything below it was taken by lines. */
  ghost predicate Lingers(disk: Disk, end: Path, lines: seq<string>, n: nat, q: Path)
    requires n <= |lines|
  {
    && Only(disk, end) && q in DroppedAll(disk, lines[..n]).dirs
    && forall x: Path | disk.Has(x) && q < x :: x in TakenBy(disk, lines)
  }

  lemma LingersHere(lines: seq<string>, q: Path)
    ensures Lingers(Chain(q), q, lines, 0, q)
  {
    ChainOnly(q);
    assert lines[..0] == [];
  }

  lemma LingersOn(disk: Disk, end: Path, lines: seq<string>, n: nat, q: Path)
    requires n < |lines| && Lingers(disk, end, lines, n, q)
    requires !(Acts(lines[n]) && Where(lines[n]) == q && Reaches(lines[n]))
    ensures Lingers(disk, end, lines, n + 1, q)
  {
    OnlyAfter(disk, lines, n, end);
    OneMore(disk, lines, n);
    var before := DroppedAll(disk, lines[..n]);
    if q !in Dropped(before, lines[n]).dirs {
      DirStays(before, end, q, lines[n]);
    }
  }

  /** A directory outlives a line if something in it is still there. */
  lemma ParentLingers(disk: Disk, end: Path, lines: seq<string>, n: nat, q: Path, c: Path)
    requires n < |lines| && Only(disk, end) && Child(q, c) && DroppedAll(disk, lines[..n]).Has(c)
    requires c in TakenBy(disk, lines) && forall x: Path | disk.Has(x) && c < x :: x in TakenBy(disk, lines)
    ensures Lingers(disk, end, lines, n + 1, q)
  {
    var before := DroppedAll(disk, lines[..n]);
    OnlyAfter(disk, lines, n, end);
    ShrinksAll(disk, lines, n);
    OneMore(disk, lines, n);
    assert q == c[..|q|] && q in before.dirs;
    ChildThere(before, q, c);
    if q !in Dropped(before, lines[n]).dirs {
      DirStays(before, end, q, lines[n]);
    }
    forall x: Path | disk.Has(x) && q < x
      ensures x in TakenBy(disk, lines)
    {
      assert disk.Has(c) && x <= end && c <= end;
      if |x| == |c| {
        assert x == c;
      } else {
        assert c == x[..|c|];
      }
    }
  }

  lemma TakenDir(disk: Disk, lines: seq<string>, line: string)
    requires line in lines && Acts(line) && (Slashed(line) ==> Where(line) !in disk.files)
    ensures Where(line) in TakenBy(disk, lines)
  {
  }

  lemma ChildInTheWay(lines: seq<string>, i: nat, q: Path) returns (line: string)
    requires i < |lines| && Acts(lines[i]) && Where(lines[i]) == q && Reaches(lines[i])
    requires !Clears(lines, i, q)
    ensures line in lines && Acts(line) && Child(q, Where(line))
    ensures !DirDone(lines, i, Where(line)) || (!Slashed(line) && !FileDone(lines, i, Where(line)))
  {
    line :| line in lines && Acts(line) && Child(q, Where(line))
            && !(DirDone(lines, i, Where(line)) && (Slashed(line) || FileDone(lines, i, Where(line))));
  }

  lemma {:induction false} SomeDisk(lines: seq<string>, n: nat, q: Path) returns (disk: Disk, end: Path)
    requires n <= |lines| && !DirDone(lines, n, q)
    ensures Lingers(disk, end, lines, n, q)
    decreases n, 0
  {
    if n == 0 {
      disk, end := Chain(q), q;
      LingersHere(lines, q);
    } else if Acts(lines[n - 1]) && Where(lines[n - 1]) == q && Reaches(lines[n - 1]) {
      var line := ChildInTheWay(lines, n - 1, q);
      disk, end := ChildOnDisk(lines, n - 1, q, line);
    } else {
      DoneLater(lines, n - 1, n, q);
      disk, end := SomeDisk(lines, n - 1, q);
      LingersOn(disk, end, lines, n - 1, q);
    }
  }

  lemma {:induction false} ChildOnDisk(lines: seq<string>, n: nat, q: Path, line: string)
    returns (disk: Disk, end: Path)
    requires n < |lines| && line in lines && Acts(line) && Child(q, Where(line))
    requires !DirDone(lines, n, Where(line)) || (!Slashed(line) && !FileDone(lines, n, Where(line)))
    ensures Lingers(disk, end, lines, n + 1, q)
    decreases n, 1
  {
    var c := Where(line);
    if !DirDone(lines, n, c) {
      disk, end := SomeDisk(lines, n, c);
      ShrinksAll(disk, lines, n);
    } else {
      disk, end := FileChain(c), c;
      FileChainOnly(c);
      FileLingers(lines, n, c);
    }
    TakenDir(disk, lines, line);
    ParentLingers(disk, end, lines, n, q, c);
  }

  lemma LingeringFails(disk: Disk, end: Path, tmpfs: string, inImage: string, line: string)
    requires var lines := Recorded(tmpfs, inImage);
             line in lines && Acts(line) && Where(line) != [] && Lingers(disk, end, lines, |lines|, Where(line))
    ensures !ClosedForm(disk, tmpfs, inImage)
  {
    var (lines, q) := (Recorded(tmpfs, inImage), Where(line));
    ShrinksAll(disk, lines, |lines|);
    assert lines[..|lines|] == lines;
    TakenDir(disk, lines, line);
    DirsKept(DroppedAll(disk, lines));
    forall x <- disk.dirs + disk.files | q < x
      ensures x in TakenBy(disk, lines)
    {
      assert disk.Has(x);
    }
    assert q in Cleaned(disk, tmpfs, inImage).dirs;
  }

  lemma DirsKept(disk: Disk)
    ensures FileDropped(FileDropped(disk, CREATED_REGISTRY), EPHEMERAL_REGISTRY).dirs == disk.dirs
  {
  }

  lemma LingeringFileFails(tmpfs: string, inImage: string, line: string)
    requires var lines := Recorded(tmpfs, inImage);
             && line in lines && Acts(line) && !Slashed(line) && Where(line) != []
             && Where(line) !in REGISTRIES && !FileDone(lines, |lines|, Where(line))
    ensures !ClosedForm(FileChain(Where(line)), tmpfs, inImage)
  {
    var (lines, q) := (Recorded(tmpfs, inImage), Where(line));
    FileChainOnly(q);
    FileLingers(lines, |lines|, q);
    assert lines[..|lines|] == lines;
    RegistriesSpare(DroppedAll(FileChain(q), lines), q);
    TakenDir(FileChain(q), lines, line);
    assert q in Cleaned(FileChain(q), tmpfs, inImage).files;
  }

  lemma UnsettledFails(tmpfs: string, inImage: string) returns (disk: Disk)
    requires !Settles(Recorded(tmpfs, inImage))
    ensures disk.Valid() && !ClosedForm(disk, tmpfs, inImage)
  {
    var lines := Recorded(tmpfs, inImage);
    var line :| line in lines && Acts(line) && Where(line) != []
                && !(DirDone(lines, |lines|, Where(line))
                     && (Slashed(line) || Where(line) in REGISTRIES || FileDone(lines, |lines|, Where(line))));
    if !DirDone(lines, |lines|, Where(line)) {
      var end;
      disk, end := SomeDisk(lines, |lines|, Where(line));
      LingeringFails(disk, end, tmpfs, inImage, line);
    } else {
      disk := FileChain(Where(line));
      FileChainOnly(Where(line));
      LingeringFileFails(tmpfs, inImage, line);
    }
  }

  /** The exact condition, for any two registries, however their paths are written, ordered and repeated:
      cleanup leaves what it is to leave on every disk if and only if the recorded lines settle. */
  lemma ClosedFormIff(tmpfs: string, inImage: string)
    ensures (forall disk: Disk | disk.Valid() :: ClosedForm(disk, tmpfs, inImage))
            <==> Settles(Recorded(tmpfs, inImage))
  {
    if Settles(Recorded(tmpfs, inImage)) {
      forall disk: Disk | disk.Valid()
        ensures ClosedForm(disk, tmpfs, inImage)
      {
        SettledForm(disk, tmpfs, inImage);
      }
    } else {
      var disk := UnsettledFails(tmpfs, inImage);
    }
  }

  // Lines in order.

  /** No acting line to a directory other than the root stands before one to something directly in it. */
  predicate ParentsLast(lines: seq<string>) {
    forall i: nat, j: nat | i < j < |lines| && Acts(lines[i]) && Acts(lines[j]) ::
      Where(lines[i]) == [] || !Child(Where(lines[i]), Where(lines[j]))
  }

  predicate AllDirect(lines: seq<string>) {
    forall line <- lines | Acts(line) && Where(line) != [] :: Direct(line)
  }

  lemma {:induction false} StrictIsLoose(q: Path, at: Path, parts: seq<string>)
    requires Keeps(q, at, parts, true)
    ensures Keeps(q, at, parts, false)
    decreases |parts|
  {
    if parts != [] {
      StrictIsLoose(q, Onto(at, parts[0]), parts[1..]);
    }
  }

  lemma {:induction false} EachDone(lines: seq<string>, i: nat)
    requires ParentsLast(lines) && AllDirect(lines)
    requires i < |lines| && Acts(lines[i]) && Where(lines[i]) != []
    ensures DirDone(lines, i + 1, Where(lines[i]))
    ensures Slashed(lines[i]) || FileDone(lines, i + 1, Where(lines[i]))
    decreases i
  {
    var q := Where(lines[i]);
    assert Direct(lines[i]);
    if !Slashed(lines[i]) {
      StrictIsLoose(q, [], Parse(lines[i]).parts);
    }
    forall line <- lines | Acts(line) && Child(q, Where(line))
      ensures DirDone(lines, i, Where(line)) && (Slashed(line) || FileDone(lines, i, Where(line)))
    {
      var j: nat :| j < |lines| && lines[j] == line;
      assert j < i;
      EachDone(lines, j);
      DoneLater(lines, j + 1, i, Where(line));
    }
    assert Clears(lines, i, q);
  }

  lemma OrderSettles(lines: seq<string>)
    requires ParentsLast(lines) && AllDirect(lines)
    ensures Settles(lines)
  {
    forall line <- lines | Acts(line) && Where(line) != []
      ensures DirDone(lines, |lines|, Where(line))
      ensures Slashed(line) || FileDone(lines, |lines|, Where(line))
    {
      var i: nat :| i < |lines| && lines[i] == line;
      EachDone(lines, i);
      DoneLater(lines, i + 1, |lines|, Where(line));
    }
  }

  /** No two acting lines lead to one path. */
  predicate OnceEach(lines: seq<string>) {
    forall i: nat, j: nat | i < j < |lines| && Acts(lines[i]) && Acts(lines[j]) ::
      Where(lines[i]) != Where(lines[j])
  }

  lemma SameLine(lines: seq<string>, i: nat, j: nat)
    requires OnceEach(lines) && i < |lines| && j < |lines| && Acts(lines[i]) && Acts(lines[j])
    requires Where(lines[i]) == Where(lines[j])
    ensures i == j
  {
  }

  lemma FileLine(lines: seq<string>, i: nat)
    requires OnceEach(lines) && i < |lines| && Acts(lines[i]) && FileDone(lines, |lines|, Where(lines[i]))
    ensures Direct(lines[i])
  {
    var f: nat :| f < |lines| && Acts(lines[f]) && !Slashed(lines[f]) && Where(lines[f]) == Where(lines[i])
                  && Direct(lines[f]);
    SameLine(lines, i, f);
  }

  lemma DirLine(lines: seq<string>, i: nat)
    requires OnceEach(lines) && i < |lines| && Acts(lines[i]) && DirDone(lines, |lines|, Where(lines[i]))
    ensures Clears(lines, i, Where(lines[i])) && Reaches(lines[i])
  {
    var k: nat :| k < |lines| && Clears(lines, k, Where(lines[i]));
    SameLine(lines, i, k);
  }

  lemma SettledLine(lines: seq<string>, line: string)
    requires Settles(lines) && line in lines && Acts(line) && Where(line) != []
    ensures DirDone(lines, |lines|, Where(line))
    ensures Slashed(line) || Where(line) in REGISTRIES || FileDone(lines, |lines|, Where(line))
  {
  }

  lemma SettledDirect(lines: seq<string>, i: nat)
    requires OnceEach(lines) && Settles(lines)
    requires i < |lines| && Acts(lines[i]) && Where(lines[i]) != []
    ensures Clears(lines, i, Where(lines[i]))
    ensures Where(lines[i]) in REGISTRIES || Direct(lines[i])
  {
    SettledLine(lines, lines[i]);
    DirLine(lines, i);
    if !Slashed(lines[i]) && Where(lines[i]) !in REGISTRIES {
      FileLine(lines, i);
    }
  }

  lemma NotDoneBefore(lines: seq<string>, i: nat, j: nat)
    requires OnceEach(lines) && i <= j < |lines| && Acts(lines[j])
    ensures !DirDone(lines, i, Where(lines[j]))
  {
    forall k: nat | k < i
      ensures !Clears(lines, k, Where(lines[j]))
    {
    }
  }

  lemma SettledOrder(lines: seq<string>)
    requires OnceEach(lines) && Settles(lines)
    ensures ParentsLast(lines)
  {
    forall i: nat, j: nat | i < j < |lines| && Acts(lines[i]) && Acts(lines[j]) && Where(lines[i]) != []
      ensures !Child(Where(lines[i]), Where(lines[j]))
    {
      SettledDirect(lines, i);
      NotDoneBefore(lines, i, j);
      assert lines[j] in lines;
    }
  }

  /** For registries that name each path once, and a registry file directly, the condition is one on single
      lines and one on their order. */
  lemma OnceEachIff(tmpfs: string, inImage: string)
    requires var lines := Recorded(tmpfs, inImage);
             OnceEach(lines) && forall line <- lines | Acts(line) && Where(line) in REGISTRIES :: Direct(line)
    ensures (forall disk: Disk | disk.Valid() :: ClosedForm(disk, tmpfs, inImage))
            <==> ParentsLast(Recorded(tmpfs, inImage)) && AllDirect(Recorded(tmpfs, inImage))
  {
    var lines := Recorded(tmpfs, inImage);
    ClosedFormIff(tmpfs, inImage);
    if Settles(lines) {
      SettledOrder(lines);
      forall line <- lines | Acts(line) && Where(line) != []
        ensures Direct(line)
      {
        var i: nat :| i < |lines| && lines[i] == line;
        SettledDirect(lines, i);
      }
    }
    if ParentsLast(lines) && AllDirect(lines) {
      OrderSettles(lines);
    }
  }

  /** For every disk and any two registries, `..` and relative lines included: if every line keeps to the
      directories above where it leads and none stands before one to something directly in it, cleanup
      leaves what it is to leave. */
  lemma CleanupInOrder(disk: Disk, tmpfs: string, inImage: string)
    requires disk.Valid() && ParentsLast(Recorded(tmpfs, inImage)) && AllDirect(Recorded(tmpfs, inImage))
    ensures ClosedForm(disk, tmpfs, inImage)
  {
    OrderSettles(Recorded(tmpfs, inImage));
    SettledForm(disk, tmpfs, inImage);
  }

  // Lines without `..`.

  lemma NoUpDirect(lines: seq<string>)
    requires forall line <- lines :: NoUp(line)
    ensures AllDirect(lines)
  {
    forall line <- lines | Acts(line) && Where(line) != []
      ensures Direct(line)
    {
      StraightDirect(line);
      StrictIsLoose(Where(line), [], Parse(line).parts);
    }
  }

  /** Sorting by depth puts absolute lines without `..` in order. */
  lemma AbsoluteInOrder(lines: seq<string>)
    requires Descending(lines) && forall l <- lines :: Parse(l).absolute && NoUp(l)
    ensures ParentsLast(lines)
  {
    forall i: nat, j: nat | i < j < |lines|
      ensures !Child(Where(lines[i]), Where(lines[j]))
    {
      assert Depth(lines[i]) >= Depth(lines[j]);
      DepthOf(lines[i]);
      DepthOf(lines[j]);
    }
  }

  /** For every disk and any two registries whose own lines are absolute and hold no `..`, with doubled and
      trailing slashes and inner dots as they come: cleanup leaves what it is to leave. */
  lemma CleanupLeaves(disk: Disk, tmpfs: string, inImage: string)
    requires disk.Valid()
    requires forall line <- Lines(tmpfs) | line != [] :: line[0] == '/' && NoUp(line)
    ensures ClosedForm(disk, tmpfs, inImage)
  {
    var lines := Recorded(tmpfs, inImage);
    RecordedIs(tmpfs, inImage);
    forall line <- lines
      ensures Parse(line).absolute && NoUp(line)
    {
      assert Asked(tmpfs, inImage, line);
      if Mountpoint(line) {
        AllowedNamed(line);
      }
    }
    AbsoluteInOrder(lines);
    NoUpDirect(lines);
    CleanupInOrder(disk, tmpfs, inImage);
  }

  /** The recorded lines name exactly the paths that lines asked for name. */
  lemma RecordedIsAsked(tmpfs: string, inImage: string, p: PathBuf)
    ensures (exists line <- Recorded(tmpfs, inImage) :: Parse(line) == p)
            <==> exists line :: Asked(tmpfs, inImage, line) && Parse(line) == p
  {
    RecordedIs(tmpfs, inImage);
    if line :| Asked(tmpfs, inImage, line) && Parse(line) == p {
      assert Holds(Recorded(tmpfs, inImage), line);
    }
  }

  // Lines that do not settle.

  /** Two lines, the one to a directory tried before the one to all there is in it: the directory stays,
      and something else than the closed form is left. */
  lemma ParentTriedFirst(disk: Disk, tmpfs: string, above: string, below: string)
    requires Recorded(tmpfs, "") == [above, below] && Acts(above) && Acts(below)
    requires Where(above) != [] && Child(Where(above), Where(below))
    requires disk.Valid() && disk.Has(Where(below)) && (Slashed(below) ==> Where(below) in disk.dirs)
    requires forall x: Path | disk.Has(x) && Where(above) < x :: x == Where(below)
    ensures var taken := TakenBy(disk, Recorded(tmpfs, ""));
            && Where(above) in Cleaned(disk, tmpfs, "").dirs
            && Where(above) in taken && !Needed(disk, taken, Where(above))
            && !ClosedForm(disk, tmpfs, "")
  {
    var lines := [above, below];
    assert above in lines && below in lines;
    BothTaken(disk, lines, above, below);
    FoundFull(disk, above, below);
    DirsKept(DroppedAll(disk, lines));
    assert Where(above) in Cleaned(disk, tmpfs, "").dirs;
  }

  lemma BothTaken(disk: Disk, lines: seq<string>, above: string, below: string)
    requires above in lines && below in lines && Acts(above) && Acts(below)
    requires Child(Where(above), Where(below)) && disk.Valid() && disk.Has(Where(below))
    requires Slashed(below) ==> Where(below) in disk.dirs
    requires forall x: Path | disk.Has(x) && Where(above) < x :: x == Where(below)
    ensures Where(above) in TakenBy(disk, lines) && !Needed(disk, TakenBy(disk, lines), Where(above))
  {
    assert Where(above) == Where(below)[..|Where(above)|];
    TakenDir(disk, lines, above);
    TakenDir(disk, lines, below);
    forall x <- disk.dirs + disk.files | Where(above) < x
      ensures x in TakenBy(disk, lines)
    {
      assert disk.Has(x);
    }
  }

  lemma FoundFull(disk: Disk, above: string, below: string)
    requires disk.Valid() && disk.Has(Where(below)) && Child(Where(above), Where(below))
    ensures Where(above) in DroppedAll(disk, [above, below]).dirs
  {
    assert [above, below][..1] == [above] && [above][..0] == [];
    assert Where(above) == Where(below)[..|Where(above)|] && Where(above) in disk.dirs;
    ChildThere(disk, Where(above), Where(below));
    WalkLexical(disk, [], Parse(above).parts);
    assert Dropped(disk, above) == disk;
    WalkLexical(disk, [], Parse(below).parts);
    assert DroppedAll(disk, [above]) == disk;
  }

  /** A relative line counts as one less deep than an absolute one: a directory recorded by an absolute
      line is tried before something in it recorded after it by a relative one, and stays. */
  lemma RelativeOutOfOrder(above: string, below: string, p: Path, c: string)
    requires OneLine(above) && Spells(above, p)
    requires OneLine(below) && Parse(below) == PathBuf(false, p + [c]) && Straight(p + [c]) && Acts(below)
    ensures var (disk, tmpfs) := (Chain(p + [c]), Appended([above, below]));
            disk.Valid() && p in Cleaned(disk, tmpfs, "").dirs && !ClosedForm(disk, tmpfs, "")
  {
    var tmpfs := Appended([above, below]);
    RecordedTwo(above, below);
    StraightLexical([], p + [c]);
    assert [] + (p + [c]) == p + [c];
    ChainOnly(p + [c]);
    forall x: Path | Chain(p + [c]).Has(x) && p < x
      ensures x == p + [c]
    {
      assert x == (p + [c])[..|x|];
    }
    ParentTriedFirst(Chain(p + [c]), tmpfs, above, below);
  }

  /** There is such a line: the names with nothing before the first. */
  lemma RelativeParses(p: Path, c: string)
    requires p != [] && Names(p + [c])
    ensures var line := Text.Join(p + [c], '/');
            Parse(line) == PathBuf(false, p + [c]) && Straight(p + [c]) && Acts(line)
  {
    var (parts, line) := (p + [c], Text.Join(p + [c], '/'));
    assert forall part <- parts :: Text.Free(part, '/');
    Text.SplitJoin(parts, '/');
    NamesLead(parts);
    NamesStay(parts);
    assert parts[0] in parts && parts[|parts| - 1] in parts;
    assert line[0] == parts[0][0];
    NamesStay(parts[1..]);
    Text.HeadTail(parts);
  }

  /** What stands on the disk: `/a`, `/p`, and in `/p` the one entry `/p/c`. */
  ghost predicate OneChild(disk: Disk, a: string, p: string, c: string) {
    && disk.Valid() && Name(a) && Name(p) && [a] in disk.dirs && [p] in disk.dirs
    && disk.Has([p, c]) && forall q: Path | disk.Has(q) && [p] < q :: q == [p, c]
  }

  lemma IndirectTarget(disk: Disk, a: string, p: string, line: string)
    requires Parse(line) == PathBuf(true, [a, "..", p]) && Name(a) && Name(p)
    requires [] in disk.dirs && [a] in disk.dirs
    ensures Target(disk, line) == Some([p]) && Where(line) == [p]
  {
    var parts := [a, "..", p];
    assert parts[1..] == ["..", p] && ["..", p][1..] == [p] && [p][1..] == [];
    assert [] + [a] == [a] && Up([a]) == [] && [] + [p] == [p];
    assert Walk(disk, [], [p]) == Some([p]);
    assert Walk(disk, [a], ["..", p]) == Walk(disk, [], [p]);
    WalkLexical(disk, [], parts);
  }

  /** With `..` the closed form fails although every line leads where it says: a directory `/p` recorded
      as `/a/../p` counts as deeper than the `/p/c` in it, is found non-empty and stays, with nothing
      below it that is not recorded. */
  lemma IndirectPathStays(disk: Disk, a: string, p: string, c: string, indirect: string, below: string)
    requires OneChild(disk, a, p, c)
    requires OneLine(indirect) && Parse(indirect) == PathBuf(true, [a, "..", p]) && Acts(indirect)
    requires OneLine(below) && Spells(below, [p, c])
    ensures var tmpfs := Appended([below, indirect]);
            var taken := TakenBy(disk, Recorded(tmpfs, ""));
            && Target(disk, indirect) == Some([p])
            && [p] in Cleaned(disk, tmpfs, "").dirs
            && [p] in taken && !Needed(disk, taken, [p])
            && !ClosedForm(disk, tmpfs, "")
  {
    RecordedTwo(below, indirect);
    IndirectTarget(disk, a, p, indirect);
    assert [p] < [p, c];
    ParentTriedFirst(disk, Appended([below, indirect]), indirect, below);
  }

  /** There is such a line. */
  lemma IndirectParses(a: string, p: string)
    requires Name(a) && Name(p)
    ensures var line := Text.Join(["", a, "..", p], '/');
            Parse(line) == PathBuf(true, [a, "..", p]) && Acts(line)
  {
    var parts := ["", a, "..", p];
    assert parts[1..] == [a, "..", p] && [a, "..", p][1..] == ["..", p] && ["..", p][1..] == [p];
    Text.SplitJoin(parts, '/');
    assert Components([p], false) == [p];
    assert Components(["..", p], false) == ["..", p];
    assert Components([a, "..", p], false) == [a, "..", p];
    assert Text.Join(parts, '/')[0] == '/';
  }
}
