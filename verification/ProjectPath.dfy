/** Paths given on the command line, as clean patterns relative to the project. */
module ProjectPath {
  import opened Text
  import opened Wrappers

  /** A step of a path: a name down, `..` up, or nothing (an empty part or `.`). */
  predicate Stays(part: string) { part == "" || part == "." }

  predicate Up(part: string) { part == ".." }

  predicate Name(part: string) { !Stays(part) && !Up(part) }

  /** `parts` followed from the directory `at`, or `None` if it leaves the project. */
  function Follow(at: seq<string>, parts: seq<string>): Option<seq<string>>
    decreases |parts|
  {
    if parts == [] then Some(at)
    else if Stays(parts[0]) then Follow(at, parts[1..])
    else if Up(parts[0]) then if at == [] then None else Follow(at[..|at| - 1], parts[1..])
    else Follow(at + [parts[0]], parts[1..])
  }

  predicate Absolute(path: string) {
    path != "" && path[0] == '/'
  }

  /** The components of an absolute path: empty parts and `.` do not count. */
  function Components(parts: seq<string>): seq<string> {
    if parts == [] then []
    else (if Stays(parts[0]) then [] else [parts[0]]) + Components(parts[1..])
  }

  /** The steps `path` takes from the project directory `root` (its components), or `None` for an
      absolute path that does not start with it. */
  function Steps(root: seq<string>, path: string): Option<seq<string>> {
    var parts := Split(path, '/');
    if !Absolute(path) then Some(parts)
    else if root <= Components(parts) then Some(Components(parts)[|root|..])
    else None
  }

  function Clean(parts: seq<string>): string {
    if parts == [] then "." else Join(parts, '/')
  }

  /** Where `path` leads as a list of names from the project's root, spelled with `/` between them;
      absent when it leads out of the project. */
  function RelativeInProject(root: seq<string>, path: string): Option<string> {
    match Steps(root, path)
    case None => None
    case Some(parts) =>
      match Follow([], parts)
      case None => None
      case Some(at) => Some(Clean(at))
  }

  method Relative(root: seq<string>, path: string) returns (r: Option<string>)
    ensures r == RelativeInProject(root, path)
  {
    var steps := Steps(root, path);
    if steps.None? {
      return None;
    }
    var parts: seq<string> := [];
    var rest := steps.value;
    while rest != []
      invariant Follow([], steps.value) == Follow(parts, rest)
      decreases |rest|
    {
      var part := rest[0];
      rest := rest[1..];
      if Stays(part) {
      } else if Up(part) {
        if parts == [] {
          return None;
        }
        parts := parts[..|parts| - 1];
      } else {
        parts := parts + [part];
      }
    }
    return Some(Clean(parts));
  }

  // When a path leaves the project, and what it is cleaned to.

  /** How far below its start `parts` ends: names down less `..` up. */
  function Descent(parts: seq<string>): int {
    if parts == [] then 0
    else (if Name(parts[0]) then 1 else if Up(parts[0]) then -1 else 0) + Descent(parts[1..])
  }

  /** Some start of `parts` climbs above `depth` levels. */
  ghost predicate Climbs(depth: nat, parts: seq<string>) {
    exists k | 0 <= k <= |parts| :: depth + Descent(parts[..k]) < 0
  }

  lemma {:induction false} LeavesFrom(at: seq<string>, parts: seq<string>)
    ensures Follow(at, parts).None? <==> Climbs(|at|, parts)
    ensures Follow(at, parts).Some? ==> |Follow(at, parts).value| == |at| + Descent(parts)
    decreases |parts|
  {
    if parts == [] {
      assert forall k | 0 <= k <= |parts| :: parts[..k] == [];
    } else {
      var rest := parts[1..];
      var step := if Name(parts[0]) then 1 else if Up(parts[0]) then -1 else 0;
      forall k | 1 <= k <= |parts|
        ensures Descent(parts[..k]) == step + Descent(rest[..k - 1])
      {
        assert parts[..k][1..] == rest[..k - 1];
      }
      assert parts[..0] == [] && parts[..|parts|] == parts;
      if Stays(parts[0]) {
        LeavesFrom(at, rest);
        Shifted(at, at, parts, step);
      } else if !Up(parts[0]) {
        LeavesFrom(at + [parts[0]], rest);
        Shifted(at, at + [parts[0]], parts, step);
      } else if at != [] {
        LeavesFrom(at[..|at| - 1], rest);
        Shifted(at, at[..|at| - 1], parts, step);
      } else {
        assert Descent(parts[..1]) == -1 by { assert rest[..0] == []; }
      }
    }
  }

  lemma Shifted(at: seq<string>, next: seq<string>, parts: seq<string>, step: int)
    requires parts != [] && |next| == |at| + step
    requires forall k | 1 <= k <= |parts| :: Descent(parts[..k]) == step + Descent(parts[1..][..k - 1])
    ensures Climbs(|at|, parts) <==> Climbs(|next|, parts[1..])
  {
    if k :| 0 <= k <= |parts| && |at| + Descent(parts[..k]) < 0 {
      assert k > 0;
      assert |next| + Descent(parts[1..][..k - 1]) < 0;
    }
    if k :| 0 <= k <= |parts[1..]| && |next| + Descent(parts[1..][..k]) < 0 {
      assert parts[1..][..(k + 1) - 1] == parts[1..][..k];
      assert |at| + Descent(parts[..k + 1]) < 0;
    }
  }

  /** A relative path is refused exactly when some start of it climbs more than it descends. */
  lemma RefusedIffLeaves(root: seq<string>, path: string)
    requires !Absolute(path)
    ensures RelativeInProject(root, path).None? <==> Climbs(0, Split(path, '/'))
  {
    LeavesFrom([], Split(path, '/'));
  }

  predicate Names(parts: seq<string>) {
    forall part <- parts :: Name(part) && '/' !in part
  }

  lemma {:induction false} FollowNames(at: seq<string>, parts: seq<string>)
    requires Names(at) && forall part <- parts :: '/' !in part
    ensures Follow(at, parts).Some? ==> Names(Follow(at, parts).value)
    decreases |parts|
  {
    if parts != [] {
      assert parts[0] in parts;
      if Stays(parts[0]) {
        FollowNames(at, parts[1..]);
      } else if !Up(parts[0]) {
        FollowNames(at + [parts[0]], parts[1..]);
      } else if at != [] {
        FollowNames(at[..|at| - 1], parts[1..]);
      }
    }
  }

  lemma {:induction false} FollowStraight(at: seq<string>, names: seq<string>)
    requires Names(names)
    ensures Follow(at, names) == Some(at + names)
    decreases |names|
  {
    if names == [] {
      Unit(at);
    } else {
      assert names[0] in names;
      FollowStraight(at + [names[0]], names[1..]);
      HeadTail(names);
      Assoc(at, [names[0]], names[1..]);
    }
  }

  lemma {:induction false} ComponentsFree(parts: seq<string>)
    requires forall part <- parts :: Free(part, '/')
    ensures forall part <- Components(parts) :: Free(part, '/')
  {
    if parts != [] {
      assert parts[0] in parts;
      ComponentsFree(parts[1..]);
    }
  }

  lemma StepsFree(root: seq<string>, path: string)
    requires Steps(root, path).Some?
    ensures forall part <- Steps(root, path).value :: '/' !in part
  {
    SplitPartsFree(path, '/');
    ComponentsFree(Split(path, '/'));
    forall part <- Steps(root, path).value
      ensures '/' !in part
    {
      assert Free(part, '/');
    }
  }

  /** Cleaning is idempotent, for relative paths and absolute ones under the project: a cleaned path is
      relative, and cleans to itself. */
  lemma CleanedIsClean(root: seq<string>, path: string)
    requires RelativeInProject(root, path).Some?
    ensures var rel := RelativeInProject(root, path).value;
            !Absolute(rel) && RelativeInProject(root, rel) == Some(rel)
  {
    var parts := Steps(root, path).value;
    StepsFree(root, path);
    FollowNames([], parts);
    var at := Follow([], parts).value;
    if at == [] {
      SplitFree(".", '/');
      assert Follow([], ["."]) == Follow([], ["."][1..]);
    } else {
      forall part <- at
        ensures Free(part, '/')
      {
      }
      SplitJoin(at, '/');
      FollowStraight([], at);
      Unit(at);
      assert at[0] in at;
    }
  }

  // Absolute paths.

  lemma {:induction false} ComponentsPlus(a: seq<string>, b: seq<string>)
    ensures Components(a + b) == Components(a) + Components(b)
  {
    if a == [] {
      Unit(b);
    } else {
      TailPlus(a, b);
      ComponentsPlus(a[1..], b);
      Assoc(if Stays(a[0]) then [] else [a[0]], Components(a[1..]), Components(b));
    }
  }

  lemma {:induction false} ComponentsNames(names: seq<string>)
    requires Names(names)
    ensures Components(names) == names
  {
    if names != [] {
      assert names[0] in names;
      ComponentsNames(names[1..]);
      HeadTail(names);
    }
  }

  /** Parts that do not move do not matter. */
  lemma {:induction false} FollowComponents(at: seq<string>, parts: seq<string>)
    ensures Follow(at, Components(parts)) == Follow(at, parts)
    decreases |parts|
  {
    if parts != [] {
      if Stays(parts[0]) {
        Unit(Components(parts[1..]));
        FollowComponents(at, parts[1..]);
      } else {
        TailPlus([parts[0]], Components(parts[1..]));
        Unit(Components(parts[1..]));
        if !Up(parts[0]) {
          FollowComponents(at + [parts[0]], parts[1..]);
        } else if at != [] {
          FollowComponents(at[..|at| - 1], parts[1..]);
        }
      }
    }
  }

  function Under(root: seq<string>, path: string): string {
    Join([""] + root, '/') + ['/'] + path
  }

  lemma UnderParts(root: seq<string>, path: string)
    requires Names(root)
    ensures Absolute(Under(root, path))
    ensures Components(Split(Under(root, path), '/')) == root + Components(Split(path, '/'))
  {
    var dirs := [""] + root;
    assert forall part <- dirs :: Free(part, '/');
    SplitJoin(dirs, '/');
    SplitPlus(Join(dirs, '/'), path, '/');
    ComponentsPlus(dirs, Split(path, '/'));
    ComponentsPlus([""], root);
    ComponentsNames(root);
    assert Components([""]) == [];
    Unit(root);
    if root != [] {
      assert dirs[1..] == root;
    }
  }

  /** An absolute path under the project is its relative remainder. */
  lemma AbsoluteIsRelative(root: seq<string>, path: string)
    requires Names(root) && !Absolute(path)
    ensures RelativeInProject(root, Under(root, path)) == RelativeInProject(root, path)
  {
    var rest := Components(Split(path, '/'));
    UnderParts(root, path);
    assert (root + rest)[|root|..] == rest;
    FollowComponents([], Split(path, '/'));
  }

  // Where a path leads.

  lemma {:induction false} FollowPlus(at: seq<string>, a: seq<string>, b: seq<string>)
    ensures Follow(at, a + b)
            == match Follow(at, a)
               case None => None
               case Some(mid) => Follow(mid, b)
    decreases |a|
  {
    if a == [] {
      Unit(b);
    } else {
      TailPlus(a, b);
      if Stays(a[0]) {
        FollowPlus(at, a[1..], b);
      } else if !Up(a[0]) {
        FollowPlus(at + [a[0]], a[1..], b);
      } else if at != [] {
        FollowPlus(at[..|at| - 1], a[1..], b);
      }
    }
  }

  /** A relative path as its parts, none of which holds a separator. */
  predicate Relatively(parts: seq<string>) {
    parts != [] && (forall part <- parts :: '/' !in part) && !Absolute(Join(parts, '/'))
  }

  lemma RelativeParts(root: seq<string>, parts: seq<string>)
    requires Relatively(parts)
    ensures RelativeInProject(root, Join(parts, '/'))
            == match Follow([], parts)
               case None => None
               case Some(at) => Some(Clean(at))
  {
    forall part <- parts
      ensures Free(part, '/')
    {
    }
    SplitJoin(parts, '/');
  }

  lemma DownAndUp(at: seq<string>, d: string)
    requires d !in {"", ".", ".."}
    ensures Follow(at, [d, ".."]) == Some(at)
  {
    assert [d, ".."][1..] == [".."] && [".."][1..] == [];
    assert (at + [d])[..|at|] == at;
    assert Follow(at + [d], [".."]) == Follow(at, []);
  }

  /** A name and the `..` right after it cancel out. */
  lemma UpCancels(root: seq<string>, a: seq<string>, d: string, b: seq<string>)
    requires d !in {"", ".", ".."} && Relatively(a + [d, ".."] + b) && Relatively(a + b)
    ensures RelativeInProject(root, Join(a + [d, ".."] + b, '/')) == RelativeInProject(root, Join(a + b, '/'))
  {
    RelativeParts(root, a + [d, ".."] + b);
    RelativeParts(root, a + b);
    Assoc(a, [d, ".."], b);
    FollowPlus([], a, [d, ".."] + b);
    FollowPlus([], a, b);
    if Follow([], a).Some? {
      FollowPlus(Follow([], a).value, [d, ".."], b);
      DownAndUp(Follow([], a).value, d);
    }
  }

  /** An empty part and a `.` lead nowhere. */
  lemma StayDrops(root: seq<string>, a: seq<string>, d: string, b: seq<string>)
    requires d in {"", "."} && Relatively(a + [d] + b) && Relatively(a + b)
    ensures RelativeInProject(root, Join(a + [d] + b, '/')) == RelativeInProject(root, Join(a + b, '/'))
  {
    RelativeParts(root, a + [d] + b);
    RelativeParts(root, a + b);
    Assoc(a, [d], b);
    FollowPlus([], a, [d] + b);
    FollowPlus([], a, b);
    if Follow([], a).Some? {
      TailPlus([d], b);
      Unit(b);
    }
  }

  /** A path of names is itself. */
  lemma NamesLead(root: seq<string>, names: seq<string>)
    requires names != [] && Names(names)
    ensures RelativeInProject(root, Join(names, '/')) == Some(Join(names, '/'))
  {
    assert names[0] in names;
    RelativeParts(root, names);
    FollowStraight([], names);
    Unit(names);
  }

  /** An absolute path of names is what it is below the project's root, and refused elsewhere. */
  lemma AbsoluteLeads(root: seq<string>, names: seq<string>)
    requires Names(names)
    ensures var path := "/" + if names == [] then "" else Join(names, '/');
            RelativeInProject(root, path)
            == if root <= names then Some(if names == root then "." else Join(names[|root|..], '/')) else None
  {
    var path := if names == [] then "" else Join(names, '/');
    forall part <- names
      ensures Free(part, '/')
    {
    }
    if names != [] {
      SplitJoin(names, '/');
    }
    UnderParts([], path);
    assert Under([], path) == "/" + path;
    ComponentsNames(names);
    assert Components([""]) == [];
    Unit(names);
    if root <= names {
      forall part <- names[|root|..]
        ensures Name(part) && '/' !in part
      {
        assert part in names;
      }
      FollowStraight([], names[|root|..]);
      Unit(names[|root|..]);
    }
  }
}
