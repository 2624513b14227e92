/** Dropping what the agent created from the disk, path by path. */
module Cleanup {
  import opened Wrappers
  import opened Registry
  import Text

  type Path = seq<string>

  /** The disk as it is once the mounts are detached: directories, and everything else by name. */
  datatype Disk = Disk(dirs: set<Path>, files: set<Path>) {
    predicate Has(p: Path) {
      p in dirs || p in files
    }

    ghost predicate Valid() {
      && [] in dirs && dirs !! files
      && forall p: Path, k: nat | Has(p) && k < |p| :: p[..k] in dirs
    }

    predicate Empty(p: Path) {
      forall q <- dirs + files :: |q| != |p| + 1 || q[..|p|] != p
    }
  }

  // Removing one path.

  function Up(p: Path): Path {
    if p == [] then [] else p[..|p| - 1]
  }

  function Onto(at: Path, part: string): Path {
    if part == "." then at else if part == ".." then Up(at) else at + [part]
  }

  /** Where a path leads, each directory on the way looked up in turn. */
  function Walk(disk: Disk, at: Path, parts: seq<string>): Option<Path>
    decreases |parts|
  {
    if parts == [] then Some(at)
    else if at !in disk.dirs then None
    else Walk(disk, Onto(at, parts[0]), parts[1..])
  }

  /** The last part that is not empty. */
  function LastPart(parts: seq<string>): string {
    if parts == [] then "" else if parts[|parts| - 1] != "" then parts[|parts| - 1]
    else LastPart(parts[..|parts| - 1])
  }

  /** Whether the kernel removes anything by this name: not if the last component is `.` or `..`,
      whatever slashes follow it. */
  predicate Acts(line: string) {
    LastPart(Text.Split(line, '/')) !in {".", ".."}
  }

  /** By a name that ends in a slash only a directory is removed. */
  predicate Slashed(line: string) {
    var parts := Text.Split(line, '/');
    parts[|parts| - 1] == ""
  }

  function Target(disk: Disk, line: string): Option<Path> {
    Walk(disk, [], Parse(line).parts)
  }

  predicate DirGoes(disk: Disk, line: string) {
    var target := Target(disk, line);
    && target.Some? && Acts(line)
    && target.value != [] && target.value in disk.dirs && disk.Empty(target.value)
  }

  predicate FileGoes(disk: Disk, line: string) {
    var target := Target(disk, line);
    && target.Some? && Acts(line) && !Slashed(line) && target.value in disk.files
  }

  function Dropped(disk: Disk, line: string): Disk {
    if DirGoes(disk, line) then disk.(dirs := disk.dirs - {Target(disk, line).value})
    else FileDropped(disk, line)
  }

  function FileDropped(disk: Disk, line: string): Disk {
    if FileGoes(disk, line) then disk.(files := disk.files - {Target(disk, line).value}) else disk
  }

  function DroppedAll(disk: Disk, lines: seq<string>): Disk {
    if lines == [] then disk else Dropped(DroppedAll(disk, lines[..|lines| - 1]), lines[|lines| - 1])
  }

  function Cleaned(disk: Disk, tmpfs: string, inImage: string): Disk {
    FileDropped(FileDropped(DroppedAll(disk, Recorded(tmpfs, inImage)), CREATED_REGISTRY),
                EPHEMERAL_REGISTRY)
  }

  class Root {
    var dirs: set<Path>
    var files: set<Path>

    function Contents(): Disk
      reads this
    {
      Disk(dirs, files)
    }

    method RemoveDir(line: string) returns (ok: bool)
      modifies `dirs
      ensures ok == DirGoes(old(Contents()), line)
      ensures Contents() == if ok then Dropped(old(Contents()), line) else old(Contents())
    {
      ok := DirGoes(Contents(), line);
      if ok {
        dirs := dirs - {Target(Contents(), line).value};
      }
    }

    method RemoveFile(line: string)
      modifies `files
      ensures Contents() == FileDropped(old(Contents()), line)
    {
      if FileGoes(Contents(), line) {
        files := files - {Target(Contents(), line).value};
      }
    }

    method RemoveCreated(tmpfs: string, inImage: string)
      modifies this
      ensures Contents() == Cleaned(old(Contents()), tmpfs, inImage)
    {
      var recorded := RecordedPaths(tmpfs, inImage);
      ghost var before := Contents();
      for i := 0 to |recorded|
        invariant Contents() == DroppedAll(before, recorded[..i])
      {
        assert recorded[..i + 1][..i] == recorded[..i];
        var ok := RemoveDir(recorded[i]);
        if !ok {
          RemoveFile(recorded[i]);
        }
      }
      assert recorded[..|recorded|] == recorded;
      RemoveFile(CREATED_REGISTRY);
      RemoveFile(EPHEMERAL_REGISTRY);
    }
  }

  // Where a line leads.

  /** Where a path leads by its text alone. */
  function Lexical(at: Path, parts: seq<string>): Path
    decreases |parts|
  {
    if parts == [] then at
    else Lexical(Onto(at, parts[0]), parts[1..])
  }

  function Where(line: string): Path {
    Lexical([], Parse(line).parts)
  }

  lemma {:induction false} WalkLexical(disk: Disk, at: Path, parts: seq<string>)
    ensures Walk(disk, at, parts).Some? ==> Walk(disk, at, parts).value == Lexical(at, parts)
    decreases |parts|
  {
    if parts != [] && at in disk.dirs {
      WalkLexical(disk, Onto(at, parts[0]), parts[1..]);
    }
  }

  // Lines without `..`.

  predicate NoUp(line: string) {
    ".." !in Parse(line).parts
  }

  /** Components that each go down. */
  predicate Straight(p: Path) {
    "." !in p && ".." !in p
  }

  lemma {:induction false} ComponentsStraight(parts: seq<string>)
    ensures "." !in Components(parts, false)
  {
    if parts != [] {
      ComponentsStraight(parts[1..]);
    }
  }

  lemma {:induction false} StraightLexical(at: Path, p: Path)
    requires Straight(p)
    ensures Lexical(at, p) == at + p
    decreases |p|
  {
    if p == [] {
      assert at + p == at;
    } else {
      assert p[0] in p;
      StraightLexical(at + [p[0]], p[1..]);
      assert at + [p[0]] + p[1..] == at + p;
    }
  }

  /** A line without `..` leads down its components, a leading `.` apart. */
  lemma LeadsDown(line: string)
    requires NoUp(line)
    ensures Straight(Where(line))
    ensures var p := Parse(line);
            p.parts == Where(line) || (!p.absolute && p.parts == ["."] + Where(line))
  {
    var (p, parts) := (Parse(line), Text.Split(line, '/'));
    ComponentsStraight(parts);
    ComponentsStraight(parts[1..]);
    if p.parts != [] && p.parts[0] == "." {
      assert p.parts[1..] == Components(parts[1..], false);
      StraightLexical([], p.parts[1..]);
      assert [] + p.parts[1..] == p.parts[1..];
      Text.HeadTail(p.parts);
    } else {
      assert Straight(p.parts);
      StraightLexical([], p.parts);
      assert [] + p.parts == p.parts;
    }
  }

  /** The depth a line is sorted by: one more than its path is long, or just that for a relative one. */
  lemma DepthOf(line: string)
    requires NoUp(line)
    ensures |Where(line)| <= Depth(line) <= |Where(line)| + 1
    ensures Parse(line).absolute ==> Depth(line) == |Where(line)| + 1
  {
    LeadsDown(line);
  }

  // Paths of names.

  predicate Name(part: string) {
    part != "" && part != "." && part != ".." && '/' !in part
  }

  predicate Names(p: Path) {
    forall part <- p :: Name(part)
  }

  function Spelled(p: Path): string {
    Text.Join([""] + p, '/')
  }

  lemma {:induction false} NamesStay(p: Path)
    requires Names(p)
    ensures Components(p, false) == p
  {
    if p != [] {
      assert p[0] in p;
      NamesStay(p[1..]);
      Text.HeadTail(p);
    }
  }

  /** An absolute path of names, as it parses. */
  predicate Spells(line: string, p: Path) {
    && Parse(line) == PathBuf(true, p) && NoUp(line) && Where(line) == p
    && p != [] && Acts(line) && !Slashed(line)
  }

  lemma SpelledSplits(p: Path)
    requires Names(p) && p != []
    ensures Text.Split(Spelled(p), '/') == [""] + p && Spelled(p) != [] && Spelled(p)[0] == '/'
  {
    assert forall part <- [""] + p :: Text.Free(part, '/');
    Text.SplitJoin([""] + p, '/');
    assert ([""] + p)[1..] == p;
  }

  lemma NamesLead(p: Path)
    requires Names(p)
    ensures Straight(p) && Lexical([], p) == p && Components([""] + p, false) == p
  {
    StraightLexical([], p);
    assert [] + p == p;
    NamesStay(p);
    assert ([""] + p)[1..] == p;
  }

  lemma SpelledParses(p: Path)
    requires Names(p) && p != []
    ensures Spells(Spelled(p), p)
  {
    SpelledSplits(p);
    NamesLead(p);
    assert p[|p| - 1] in p;
  }

  lemma OneName(line: string, a: string)
    requires line == "/" + a && Name(a)
    ensures Spells(line, [a])
  {
    assert [""] + [a] == ["", a];
    assert ["", a][1..] == [a];
    assert Text.Join(["", a], '/') == "" + ['/'] + Text.Join([a], '/');
    assert "" + ['/'] + a == "/" + a;
    SpelledParses([a]);
  }

  lemma TwoNames(line: string, a: string, b: string)
    requires line == "/" + a + "/" + b && Name(a) && Name(b)
    ensures Spells(line, [a, b])
  {
    assert [""] + [a, b] == ["", a, b];
    assert ["", a, b][1..] == [a, b];
    assert [a, b][1..] == [b];
    assert Text.Join([a, b], '/') == a + ['/'] + b;
    assert "" + ['/'] + (a + ['/'] + b) == "/" + a + "/" + b;
    SpelledParses([a, b]);
  }

  lemma CreatedNamed()
    ensures Spells(CREATED_REGISTRY, ["run", ".virtkit-created"])
  {
    assert Name("run");
    assert Name(".virtkit-created");
    assert CREATED_REGISTRY == "/" + "run" + "/" + ".virtkit-created";
    TwoNames(CREATED_REGISTRY, "run", ".virtkit-created");
  }

  lemma EphemeralNamed()
    ensures Spells(EPHEMERAL_REGISTRY, [".virtkit-ephemeral"])
  {
    assert Name(".virtkit-ephemeral");
    OneName(EPHEMERAL_REGISTRY, ".virtkit-ephemeral");
  }

  lemma AllowedNamed(line: string)
    requires Mountpoint(line)
    ensures Parse(line).absolute && NoUp(line)
  {
    if line == "/dev/pts" {
      TwoNames(line, "dev", "pts");
    } else if line == "/dev/shm" {
      TwoNames(line, "dev", "shm");
    } else {
      OneName(line, line[1..]);
    }
  }

  // Nothing else goes, however the paths are written.

  /** `p` is as it was, or is where one of the acting `lines` leads. */
  predicate Spared(disk: Disk, after: Disk, lines: seq<string>, p: Path) {
    || ((p in after.dirs <==> p in disk.dirs) && (p in after.files <==> p in disk.files))
    || LedTo(lines, p)
  }

  predicate LedTo(lines: seq<string>, p: Path) {
    exists line <- lines :: Acts(line) && Where(line) == p
  }

  lemma LedToMore(lines: seq<string>, line: string, p: Path)
    ensures LedTo(lines + [line], p) <==> LedTo(lines, p) || (Acts(line) && Where(line) == p)
  {
    assert forall l :: l in lines + [line] <==> l in lines || l == line;
  }

  lemma {:induction false} OnlyLinesDrop(disk: Disk, lines: seq<string>, p: Path)
    ensures Spared(disk, DroppedAll(disk, lines), lines, p)
  {
    if lines != [] {
      var (init, line) := (lines[..|lines| - 1], lines[|lines| - 1]);
      OnlyLinesDrop(disk, init, p);
      WalkLexical(DroppedAll(disk, init), [], Parse(line).parts);
      LedToMore(init, line, p);
      assert lines == init + [line];
    }
  }

  const REGISTRIES: set<Path> := {["run", ".virtkit-created"], [".virtkit-ephemeral"]}

  lemma FileSpared(disk: Disk, line: string, p: Path)
    requires Where(line) != p
    ensures FileDropped(disk, line).dirs == disk.dirs
    ensures p in FileDropped(disk, line).files <==> p in disk.files
  {
    WalkLexical(disk, [], Parse(line).parts);
  }

  lemma RegistriesSpare(disk: Disk, p: Path)
    requires p !in REGISTRIES
    ensures var after := FileDropped(FileDropped(disk, CREATED_REGISTRY), EPHEMERAL_REGISTRY);
            after.dirs == disk.dirs && (p in after.files <==> p in disk.files)
  {
    CreatedNamed();
    EphemeralNamed();
    FileSpared(disk, CREATED_REGISTRY, p);
    FileSpared(FileDropped(disk, CREATED_REGISTRY), EPHEMERAL_REGISTRY, p);
  }

  /** For every disk and any two registries, however their paths are written: a path that no line asked
      for leads to survives, and so does one that only lines of the image's registry outside the allowed
      mountpoints lead to. */
  lemma UnrecordedSurvives(disk: Disk, tmpfs: string, inImage: string, p: Path)
    requires p !in REGISTRIES
    requires forall line | Asked(tmpfs, inImage, line) :: Where(line) != p
    ensures p in Cleaned(disk, tmpfs, inImage).dirs <==> p in disk.dirs
    ensures p in Cleaned(disk, tmpfs, inImage).files <==> p in disk.files
  {
    var lines := Recorded(tmpfs, inImage);
    RecordedIs(tmpfs, inImage);
    OnlyLinesDrop(disk, lines, p);
    forall line <- lines
      ensures Where(line) != p
    {
      assert Asked(tmpfs, inImage, line);
    }
    RegistriesSpare(DroppedAll(disk, lines), p);
  }
}
