/** The registries of what the agent created on the disk, and the paths they record. */
module Registry {
  import opened Wrappers
  import Text

  const CREATED_REGISTRY := "/run/.virtkit-created"
  const EPHEMERAL_REGISTRY := "/.virtkit-ephemeral"

  const EPHEMERAL_ALLOWED := ["/proc", "/sys", "/dev", "/dev/pts", "/dev/shm", "/run", "/tmp"]

  // Lines.

  function WithoutReturn(s: string): string {
    if s != [] && s[|s| - 1] == '\r' then s[..|s| - 1] else s
  }

  /** Lines end at a line feed, with a carriage return before it dropped; the last needs no ending. */
  function Lines(text: string): seq<string> {
    var n := Text.IndexOf(text, '\n');
    if text == [] then []
    else if n == |text| then [text]
    else [WithoutReturn(text[..n])] + Lines(text[n + 1..])
  }

  /** Of the lines of the image's registry, the mount points above are kept and the rest ignored. */
  function Ephemeral(lines: seq<string>): seq<string> {
    if lines == [] then []
    else
      var rest := Ephemeral(lines[..|lines| - 1]);
      if lines[|lines| - 1] in EPHEMERAL_ALLOWED then rest + [lines[|lines| - 1]] else rest
  }

  /** The mount points of the API file systems, of `/run` and of `/tmp`. */
  predicate Mountpoint(line: string) {
    line in {"/proc", "/sys", "/dev", "/dev/pts", "/dev/shm", "/run", "/tmp"}
  }

  /** Of the lines of the image's registry exactly those are kept. */
  lemma {:induction false} EphemeralAllowed(lines: seq<string>)
    ensures forall l :: l in Ephemeral(lines) <==> l in lines && Mountpoint(l)
  {
    if lines != [] {
      EphemeralAllowed(lines[..|lines| - 1]);
      assert lines == lines[..|lines| - 1] + [lines[|lines| - 1]];
    }
  }

  // Paths.

  /** A path as it compares: whether it is absolute, and its components. */
  datatype PathBuf = PathBuf(absolute: bool, parts: seq<string>)

  /** Empty components and `.` say nothing, but for a leading `.`. */
  function Components(parts: seq<string>, leading: bool): seq<string> {
    if parts == [] then []
    else
      var rest := Components(parts[1..], false);
      if parts[0] == "" || (parts[0] == "." && !leading) then rest else [parts[0]] + rest
  }

  function Parse(line: string): PathBuf {
    var absolute := line != [] && line[0] == '/';
    PathBuf(absolute, Components(Text.Split(line, '/'), !absolute))
  }

  lemma {:induction false} ComponentsPlus(a: seq<string>, b: seq<string>, leading: bool)
    requires a != []
    ensures Components(a + b, leading) == Components(a, leading) + Components(b, false)
  {
    Text.TailPlus(a, b);
    if |a| == 1 {
      assert a[1..] == [];
      Text.Unit(b);
      Text.Unit(Components(b, false));
    } else {
      ComponentsPlus(a[1..], b, false);
    }
    if !(a[0] == "" || (a[0] == "." && !leading)) {
      Text.Assoc([a[0]], Components(a[1..], false), Components(b, false));
    }
  }

  /** Doubled slashes, trailing slashes and dots that do not lead make no other path. */
  lemma SamePath(a: seq<string>, e: string, b: seq<string>)
    requires a != [] && e in {"", "."} && a + b != [""] && forall part <- a + b :: '/' !in part
    ensures Parse(Text.Join(a + [e] + b, '/')) == Parse(Text.Join(a + b, '/'))
  {
    var (long, short) := (a + [e] + b, a + b);
    forall part <- long
      ensures Text.Free(part, '/')
    {
      assert part == e || part in short;
    }
    forall part <- short
      ensures Text.Free(part, '/')
    {
    }
    Text.SplitJoin(long, '/');
    Text.SplitJoin(short, '/');
    StartsAlike(long, short);
    var leading := !Parse(Text.Join(short, '/')).absolute;
    Text.Assoc(a, [e], b);
    ComponentsPlus(a, [e] + b, leading);
    ComponentsPlus(a, b, leading);
    ComponentsPlus([e], b, false);
    assert Components([e], false) == [] by {
      assert [e][1..] == [];
    }
    Text.Unit(Components(b, false));
  }

  lemma StartsAlike(long: seq<string>, short: seq<string>)
    requires long != [] && short != [] && long[0] == short[0] && |long| > 1 && short != [""]
    requires (forall part <- long :: '/' !in part) && (forall part <- short :: '/' !in part)
    ensures Parse(Text.Join(long, '/')).absolute == Parse(Text.Join(short, '/')).absolute
  {
    assert long[0] in long && short[0] in short;
    Rooted(long);
    if |short| > 1 {
      Rooted(short);
    } else {
      assert short == [short[0]];
    }
  }

  /** A joined path is absolute just when its first part is empty. */
  lemma Rooted(parts: seq<string>)
    requires |parts| > 1 && '/' !in parts[0]
    ensures Parse(Text.Join(parts, '/')).absolute <==> parts[0] == ""
  {
    Text.Assoc(parts[0], ['/'], Text.Join(parts[1..], '/'));
  }

  function Depth(line: string): nat {
    var p := Parse(line);
    |p.parts| + if p.absolute then 1 else 0
  }

  // The recorded paths.

  predicate Holds(out: seq<string>, line: string) {
    exists o <- out :: Parse(o) == Parse(line)
  }

  /** Each path once, blank lines ignored. */
  function Deduplicated(lines: seq<string>): seq<string> {
    if lines == [] then []
    else
      var (out, line) := (Deduplicated(lines[..|lines| - 1]), lines[|lines| - 1]);
      if line == [] || Holds(out, line) then out else out + [line]
  }

  /** `line` after everything at least as deep: the stable place. */
  function Placed(sorted: seq<string>, line: string): seq<string> {
    if sorted == [] || Depth(sorted[0]) < Depth(line) then [line] + sorted
    else [sorted[0]] + Placed(sorted[1..], line)
  }

  function SortedByDepth(lines: seq<string>): seq<string> {
    if lines == [] then [] else Placed(SortedByDepth(lines[..|lines| - 1]), lines[|lines| - 1])
  }

  function Recorded(tmpfs: string, inImage: string): seq<string> {
    SortedByDepth(Deduplicated(Lines(tmpfs) + Ephemeral(Lines(inImage))))
  }

  method RecordedPaths(tmpfs: string, inImage: string) returns (out: seq<string>)
    ensures out == Recorded(tmpfs, inImage)
  {
    var lines := Lines(tmpfs) + Ephemeral(Lines(inImage));
    out := [];
    for i := 0 to |lines|
      invariant out == Deduplicated(lines[..i])
    {
      assert lines[..i + 1][..i] == lines[..i];
      if lines[i] != [] && !Holds(out, lines[i]) {
        out := out + [lines[i]];
      }
    }
    assert lines[..|lines|] == lines;
    out := SortedByDepth(out);
  }

  // What the list holds, and in which order.

  lemma {:induction false} DeduplicatedHolds(lines: seq<string>, p: PathBuf)
    ensures (exists l <- Deduplicated(lines) :: Parse(l) == p)
            <==> (exists l <- lines :: l != [] && Parse(l) == p)
  {
    if lines != [] {
      var (init, line) := (lines[..|lines| - 1], lines[|lines| - 1]);
      DeduplicatedHolds(init, p);
      assert lines == init + [line];
      if line != [] && !Holds(Deduplicated(init), line) {
        assert Deduplicated(lines) == Deduplicated(init) + [line];
      }
    }
  }

  lemma {:induction false} DeduplicatedFrom(lines: seq<string>)
    ensures forall l <- Deduplicated(lines) :: l in lines && l != []
  {
    if lines != [] {
      DeduplicatedFrom(lines[..|lines| - 1]);
    }
  }

  predicate Distinct(lines: seq<string>) {
    forall i: nat, j: nat | i < j < |lines| :: Parse(lines[i]) != Parse(lines[j])
  }

  lemma {:induction false} DeduplicatedDistinct(lines: seq<string>)
    ensures Distinct(Deduplicated(lines))
  {
    if lines != [] {
      DeduplicatedDistinct(lines[..|lines| - 1]);
    }
  }

  predicate Descending(lines: seq<string>) {
    forall i: nat, j: nat | i < j < |lines| :: Depth(lines[i]) >= Depth(lines[j])
  }

  lemma {:induction false} PlacedElements(sorted: seq<string>, line: string)
    ensures multiset(Placed(sorted, line)) == multiset(sorted) + multiset{line}
  {
    if !(sorted == [] || Depth(sorted[0]) < Depth(line)) {
      PlacedElements(sorted[1..], line);
      Text.HeadTail(sorted);
    }
  }

  predicate AtMost(lines: seq<string>, depth: nat) {
    forall l <- lines :: Depth(l) <= depth
  }

  lemma {:induction false} PlacedAtMost(sorted: seq<string>, line: string, depth: nat)
    requires AtMost(sorted, depth) && Depth(line) <= depth
    ensures AtMost(Placed(sorted, line), depth)
  {
    if !(sorted == [] || Depth(sorted[0]) < Depth(line)) {
      PlacedAtMost(sorted[1..], line, depth);
    }
  }

  lemma DescendingMore(line: string, rest: seq<string>)
    requires Descending(rest) && AtMost(rest, Depth(line))
    ensures Descending([line] + rest)
  {
    var all := [line] + rest;
    forall i: nat, j: nat | i < j < |all|
      ensures Depth(all[i]) >= Depth(all[j])
    {
      assert all[j] == rest[j - 1];
    }
  }

  lemma DescendingTail(sorted: seq<string>)
    requires sorted != [] && Descending(sorted)
    ensures Descending(sorted[1..]) && AtMost(sorted[1..], Depth(sorted[0])) && AtMost(sorted, Depth(sorted[0]))
  {
  }

  lemma {:induction false} PlacedDescending(sorted: seq<string>, line: string)
    requires Descending(sorted)
    ensures Descending(Placed(sorted, line))
  {
    if sorted != [] {
      DescendingTail(sorted);
    }
    if sorted == [] || Depth(sorted[0]) < Depth(line) {
      DescendingMore(line, sorted);
    } else {
      PlacedDescending(sorted[1..], line);
      PlacedAtMost(sorted[1..], line, Depth(sorted[0]));
      DescendingMore(sorted[0], Placed(sorted[1..], line));
    }
  }

  lemma {:induction false} SortedElements(lines: seq<string>)
    ensures multiset(SortedByDepth(lines)) == multiset(lines)
    ensures Descending(SortedByDepth(lines))
  {
    if lines != [] {
      var (init, line) := (lines[..|lines| - 1], lines[|lines| - 1]);
      SortedElements(init);
      assert lines == init + [line];
      PlacedElements(SortedByDepth(init), line);
      PlacedDescending(SortedByDepth(init), line);
    }
  }

  lemma {:induction false} PlacedHolds(sorted: seq<string>, line: string, other: string)
    requires !Holds(sorted, other) && Parse(line) != Parse(other)
    ensures !Holds(Placed(sorted, line), other)
  {
    if !(sorted == [] || Depth(sorted[0]) < Depth(line)) {
      PlacedHolds(sorted[1..], line, other);
    }
  }

  lemma DistinctMore(line: string, rest: seq<string>)
    requires Distinct(rest) && !Holds(rest, line)
    ensures Distinct([line] + rest)
  {
    var all := [line] + rest;
    forall i: nat, j: nat | i < j < |all|
      ensures Parse(all[i]) != Parse(all[j])
    {
      assert all[j] == rest[j - 1] && rest[j - 1] in rest;
    }
  }

  lemma DistinctTail(sorted: seq<string>)
    requires sorted != [] && Distinct(sorted)
    ensures Distinct(sorted[1..]) && !Holds(sorted[1..], sorted[0])
  {
  }

  lemma {:induction false} PlacedDistinct(sorted: seq<string>, line: string)
    requires Distinct(sorted) && !Holds(sorted, line)
    ensures Distinct(Placed(sorted, line))
  {
    if sorted == [] || Depth(sorted[0]) < Depth(line) {
      DistinctMore(line, sorted);
    } else {
      DistinctTail(sorted);
      PlacedDistinct(sorted[1..], line);
      assert sorted[0] in sorted;
      PlacedHolds(sorted[1..], line, sorted[0]);
      DistinctMore(sorted[0], Placed(sorted[1..], line));
    }
  }

  lemma {:induction false} SortedDistinct(lines: seq<string>)
    requires Distinct(lines)
    ensures Distinct(SortedByDepth(lines))
  {
    if lines != [] {
      var (init, line) := (lines[..|lines| - 1], lines[|lines| - 1]);
      SortedDistinct(init);
      SortedElements(init);
      forall o <- SortedByDepth(init)
        ensures Parse(o) != Parse(line)
      {
        assert o in multiset(SortedByDepth(init));
      }
      PlacedDistinct(SortedByDepth(init), line);
    }
  }

  /** What either registry asks to drop: any line of this boot's, an allowed line of the image's. */
  predicate Asked(tmpfs: string, inImage: string, line: string) {
    line != [] && (line in Lines(tmpfs) || (line in Lines(inImage) && Mountpoint(line)))
  }

  /** The recorded paths: each once, the deepest first, and exactly those asked for. */
  lemma RecordedIs(tmpfs: string, inImage: string)
    ensures var out := Recorded(tmpfs, inImage);
            && Distinct(out) && Descending(out)
            && (forall l <- out :: Asked(tmpfs, inImage, l))
            && forall l | Asked(tmpfs, inImage, l) :: Holds(out, l)
  {
    var lines := Lines(tmpfs) + Ephemeral(Lines(inImage));
    var unsorted := Deduplicated(lines);
    DeduplicatedDistinct(lines);
    SortedDistinct(unsorted);
    SortedElements(unsorted);
    DeduplicatedFrom(lines);
    EphemeralAllowed(Lines(inImage));
    forall l <- SortedByDepth(unsorted)
      ensures l in unsorted
    {
      assert l in multiset(SortedByDepth(unsorted));
    }
    forall l | Asked(tmpfs, inImage, l)
      ensures Holds(SortedByDepth(unsorted), l)
    {
      DeduplicatedHolds(lines, Parse(l));
      assert l in lines;
      var o :| o in unsorted && Parse(o) == Parse(l);
      assert o in multiset(unsorted);
      assert o in SortedByDepth(unsorted);
    }
  }

  // Appending to a registry.

  function Appended(lines: seq<string>): string {
    if lines == [] then [] else lines[0] + ['\n'] + Appended(lines[1..])
  }

  predicate OneLine(line: string) {
    '\n' !in line && (line != [] ==> line[|line| - 1] != '\r')
  }

  /** Paths without line breaks read back as they were appended. */
  lemma {:induction false} RegistryReadsBack(lines: seq<string>)
    requires forall l <- lines :: OneLine(l)
    ensures Lines(Appended(lines)) == lines
  {
    if lines != [] {
      var rest := Appended(lines[1..]);
      var text := lines[0] + ['\n'] + rest;
      assert OneLine(lines[0]);
      Text.Assoc(lines[0], ['\n'], rest);
      Text.IndexFound(lines[0], '\n', rest);
      assert text[..|lines[0]|] == lines[0] && text[|lines[0]| + 1..] == rest;
      RegistryReadsBack(lines[1..]);
      Text.HeadTail(lines);
    }
  }

  /** Of the lines for one path the first is recorded, as it is written. */
  lemma {:induction false} FirstSpelling(lines: seq<string>, line: string)
    ensures line in Deduplicated(lines)
            <==> exists i: nat | i < |lines| ::
                   && lines[i] == line && line != []
                   && forall j: nat | j < i && lines[j] != [] :: Parse(lines[j]) != Parse(line)
  {
    if lines != [] {
      var (init, last) := (lines[..|lines| - 1], lines[|lines| - 1]);
      FirstSpelling(init, line);
      DeduplicatedHolds(init, Parse(last));
      assert lines == init + [last];
      if i: nat :| i < |lines| && lines[i] == line && line != []
                   && forall j: nat | j < i && lines[j] != [] :: Parse(lines[j]) != Parse(line)
      {
        if i < |init| {
          assert init[i] == line;
          assert forall j: nat | j < i && init[j] != [] :: Parse(lines[j]) != Parse(line);
        } else {
          forall o <- init | o != []
            ensures Parse(o) != Parse(last)
          {
            var j: nat :| j < |init| && init[j] == o;
            assert lines[j] == o;
          }
        }
      }
      if line in Deduplicated(lines) && line !in Deduplicated(init) {
        forall j: nat | j < |init| && lines[j] != []
          ensures Parse(lines[j]) != Parse(line)
        {
          assert init[j] in init;
        }
      }
    }
  }

  lemma DeduplicatedTwo(x: string, y: string)
    requires x != [] && y != [] && Parse(x) != Parse(y)
    ensures Deduplicated([x, y]) == [x, y]
  {
    assert [x, y][..1] == [x] && [x][..0] == [];
    assert Deduplicated([]) == [];
    assert Deduplicated([x]) == [x];
    assert !Holds([x], y);
  }

  lemma SortedTwo(x: string, y: string)
    ensures SortedByDepth([x, y]) == if Depth(x) < Depth(y) then [y, x] else [x, y]
  {
    assert [x, y][..1] == [x] && [x][..0] == [];
    assert SortedByDepth([x]) == [x];
    assert [x][1..] == [];
    assert Placed([], y) == [y];
  }

  /** A registry of two lines. */
  lemma RecordedTwo(x: string, y: string)
    requires OneLine(x) && OneLine(y) && x != [] && y != [] && Parse(x) != Parse(y)
    ensures Recorded(Appended([x, y]), "") == if Depth(x) < Depth(y) then [y, x] else [x, y]
  {
    RegistryReadsBack([x, y]);
    assert Ephemeral(Lines("")) == [];
    Text.Unit([x, y]);
    DeduplicatedTwo(x, y);
    SortedTwo(x, y);
  }

  /** A line may also end in a carriage return and a line feed. */
  lemma ReturnDropped(line: string, rest: string)
    requires '\n' !in line
    ensures Lines(line + "\r\n" + rest) == [line] + Lines(rest)
  {
    var (text, ended) := (line + "\r\n" + rest, line + ['\r']);
    assert text == ended + (['\n'] + rest);
    Text.IndexFound(ended, '\n', rest);
    assert text[..|ended|] == ended && text[|ended| + 1..] == rest;
    assert ended[..|ended| - 1] == line;
  }
}
