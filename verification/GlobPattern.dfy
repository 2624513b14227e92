/** Patterns compiled for matching, and what they select. */
module GlobPattern {
  import opened Text
  import opened Wrappers
  import opened Wildcard
  import opened GlobMatch
  import opened GlobTokens
  import opened GlobBraces

  /** One list of segments for each choice that brace expansion makes. */
  type Pattern = seq<seq<Segment>>

  function CompileSegment(seg: string): Option<Segment> {
    if seg == "**" then Some(Any)
    else
      match TokensFrom(seg, 0)
      case None => None
      case Some(tokens) => Some(Tokens(tokens))
  }

  function CompileAlt(alt: string): Option<seq<Segment>> {
    Traverse(CompileSegment, Split(alt, '/'))
  }

  /** A pattern is refused as a whole when one of its groups never closes or one segment of one of
      its choices has no tokens. */
  function Compile(pattern: string): Option<Pattern> {
    match Expand(pattern)
    case None => None
    case Some(alts) => Traverse(CompileAlt, alts)
  }

  method NewPattern(pattern: string) returns (r: Option<Pattern>)
    ensures r == Compile(pattern)
  {
    var alts := ExpandBraces(pattern);
    if alts.None? {
      return None;
    }
    r := Traverse(CompileAlt, alts.value);
  }

  /** What a pattern means: some alternative matches the path's segments. */
  ghost predicate Selects(pattern: Pattern, path: seq<string>) {
    exists alt <- pattern :: PathDenotes(alt, path)
  }

  /** Whether the pattern matches a path of these segments. */
  method PatternMatches(pattern: Pattern, path: seq<string>) returns (r: bool)
    ensures r == Selects(pattern, path)
  {
    for k := 0 to |pattern|
      invariant forall j | 0 <= j < k :: !PathDenotes(pattern[j], path)
    {
      var hit, steps := MatchSegments(pattern[k], path);
      if hit {
        return true;
      }
    }
    return false;
  }

  /** No `**`: the alternative matches paths of its own length only. */
  predicate Bounded(alt: seq<Segment>) {
    forall seg <- alt :: !seg.Any?
  }

  /** How far below its base a walk for the pattern has to look; absent when there is no limit. */
  function Depth(pattern: Pattern): (r: Option<nat>)
    ensures r.Some? <==> forall alt <- pattern :: Bounded(alt)
    ensures r.Some? ==> forall alt <- pattern :: |alt| <= r.value
    ensures r.Some? && pattern != [] ==> exists alt <- pattern :: |alt| == r.value
  {
    if pattern == [] then Some(0)
    else
      var rest := Depth(pattern[1..]);
      HeadTail(pattern);
      assert pattern[0] in pattern;
      if rest.None? || !Bounded(pattern[0]) then None
      else Some(if |pattern[0]| > rest.value then |pattern[0]| else rest.value)
  }

  lemma {:induction false} NoAnySameLength(alt: seq<Segment>, i: nat, path: seq<string>, j: nat)
    requires i <= |alt| && j <= |path|
    requires Bounded(alt)
    requires Matches(IsAny, SegmentDenotes, alt, i, path, j)
    ensures |path| - j == |alt| - i
    decreases |alt| - i
  {
    if i < |alt| {
      assert alt[i] in alt;
      NoAnySameLength(alt, i + 1, path, j + 1);
    }
  }

  /** No path longer than the pattern's depth matches: pruning the walk below it loses nothing. */
  lemma DepthBounds(pattern: Pattern, path: seq<string>)
    requires Depth(pattern).Some? && Selects(pattern, path)
    ensures |path| <= Depth(pattern).value
  {
    var alt :| alt in pattern && PathDenotes(alt, path);
    NoAnySameLength(alt, 0, path, 0);
  }

  // Literal text.

  /** Whether `c` can be more than itself in a pattern. */
  predicate IsGlob(c: char) {
    c in {'*', '?', '[', '{', '\\'}
  }

  /** Literal tokens for a name. */
  function Literal(name: string): seq<Token> {
    seq(|name|, k requires 0 <= k < |name| => Lit(name[k]))
  }

  lemma {:induction false} LiteralDenotesFrom(lit: string, i: nat, name: string, j: nat)
    requires i <= |lit| && j <= |name|
    ensures Matches(IsStar, MatchOne, Literal(lit), i, name, j) <==> lit[i..] == name[j..]
    decreases |lit| - i
  {
    if i < |lit| && j < |name| {
      LiteralDenotesFrom(lit, i + 1, name, j + 1);
      assert lit[i..] == [lit[i]] + lit[i + 1..];
      assert name[j..] == [name[j]] + name[j + 1..];
    }
  }

  lemma LiteralDenotes(lit: string, name: string)
    ensures Denotes(Literal(lit), name) <==> lit == name
  {
    LiteralDenotesFrom(lit, 0, name, 0);
    assert lit[0..] == lit && name[0..] == name;
  }

  /** Segments that each match one name only. */
  function LiteralAlt(names: seq<string>): seq<Segment> {
    seq(|names|, k requires 0 <= k < |names| => Tokens(Literal(names[k])))
  }

  /** An alternative whose first segments are the literal `names` matches only paths that start
      with those names, and matches the rest as its remaining segments do. */
  lemma {:induction false} LiteralPrefix(alt: seq<Segment>, names: seq<string>, i: nat, path: seq<string>)
    requires i <= |names| <= |alt| && i <= |path|
    requires alt[..|names|] == LiteralAlt(names)
    requires Matches(IsAny, SegmentDenotes, alt, i, path, i)
    ensures |names| <= |path| && names[i..] == path[i..|names|]
    decreases |names| - i
  {
    if i < |names| {
      assert alt[i] == alt[..|names|][i] == Tokens(Literal(names[i]));
      LiteralDenotes(names[i], path[i]);
      LiteralPrefix(alt, names, i + 1, path);
      assert names[i..] == [names[i]] + names[i + 1..];
      assert path[i..|names|] == [path[i]] + path[i + 1..|names|];
    }
  }

  lemma {:induction false} LiteralAltDenotesFrom(names: seq<string>, i: nat, path: seq<string>, j: nat)
    requires i <= |names| && j <= |path|
    ensures Matches(IsAny, SegmentDenotes, LiteralAlt(names), i, path, j) <==> names[i..] == path[j..]
    decreases |names| - i
  {
    if i < |names| && j < |path| {
      LiteralDenotes(names[i], path[j]);
      LiteralAltDenotesFrom(names, i + 1, path, j + 1);
      assert names[i..] == [names[i]] + names[i + 1..];
      assert path[j..] == [path[j]] + path[j + 1..];
    }
  }

  lemma LiteralAltDenotes(names: seq<string>, path: seq<string>)
    ensures PathDenotes(LiteralAlt(names), path) <==> names == path
  {
    LiteralAltDenotesFrom(names, 0, path, 0);
    assert names[0..] == names && path[0..] == path;
  }
}
