/** The two matchers of vk-agent's doublestar globs: characters against one segment's tokens, and
    path segments against an alternative's segments. Each backtracks to the last wildcard only. */
module GlobMatch {
  import opened Wildcard

  datatype Token =
    | Star
    | One
    | Lit(c: char)
    | Class(negate: bool, ranges: seq<(char, char)>)

  datatype Segment = Any | Tokens(tokens: seq<Token>)

  predicate IsStar(t: Token) { t.Star? }

  predicate IsAny(seg: Segment) { seg.Any? }

  predicate InRange(r: (char, char), c: char) {
    r.0 <= c <= r.1
  }

  /** The meaning of a token other than `*`, which takes no character of its own. */
  predicate MatchOne(t: Token, c: char) {
    match t
    case Star => false
    case One => true
    case Lit(lit) => lit == c
    case Class(negate, ranges) => (exists r <- ranges :: InRange(r, c)) != negate
  }

  /** What a token list means: `*` any run of characters, every other token one character. */
  ghost predicate Denotes(tokens: seq<Token>, name: seq<char>) {
    Matches(IsStar, MatchOne, tokens, 0, name, 0)
  }

  ghost predicate SegmentDenotes(seg: Segment, name: seq<char>) {
    seg.Tokens? && Denotes(seg.tokens, name)
  }

  /** What an alternative means: `**` any run of segments, every other segment one. */
  ghost predicate PathDenotes(alt: seq<Segment>, path: seq<string>) {
    Matches(IsAny, SegmentDenotes, alt, 0, path, 0)
  }

  /** The greedy loop over the characters of a segment, proved against `Denotes`; `steps` counts its
      iterations. */
  method MatchTokens(p: seq<Token>, s: seq<char>) returns (r: bool, ghost steps: nat)
    ensures r == Denotes(p, s)
    ensures steps <= (|p| + 1) * |s|
  {
    var pi: nat, si: nat := 0, 0;
    var star := NoneYet;
    steps := 0;
    ghost var seen: set<(nat, nat)> := {};
    while si < |s|
      invariant Kept(IsStar, MatchOne, p, s, pi, si, star)
      invariant Behind(IsStar, p, |s|, pi, si, star, seen)
      invariant steps == |seen|
      decreases (|p| + 1) * |s| - |seen|
    {
      ghost var i, j, last := pi, si, star;
      if pi < |p| && p[pi].Star? {
        EarlierWildcardDropped(IsStar, MatchOne, p, s, pi, si, star);
        pi := pi + 1;
        star := Seen(pi, si);
      } else if pi < |p| && MatchOne(p[pi], s[si]) {
        StepKept(IsStar, MatchOne, p, s, pi, si, star);
        pi := pi + 1;
        si := si + 1;
      } else if star.Seen? {
        RetryKept(IsStar, MatchOne, p, s, pi, si, star);
        pi := star.resume;
        si := star.at + 1;
        star := Seen(pi, si);
      } else {
        VisitsBounded(seen + {(pi, si)}, |p| + 1, |s|);
        return false, steps + 1;
      }
      MovesForward(IsStar, p, |s|, i, j, last, pi, si, star, seen);
      VisitsBounded(seen + {(i, j)}, |p| + 1, |s|);
      seen := seen + {(i, j)};
      steps := steps + 1;
    }
    NoRetryAtEnd(IsStar, MatchOne, p, s, pi, star);
    VisitsBounded(seen, |p| + 1, |s|);
    r := AllWild(IsStar, p, pi);
  }

  /** The same loop one level up: segments in place of characters, `**` in place of `*`. */
  method MatchSegments(pattern: seq<Segment>, path: seq<string>) returns (r: bool, ghost steps: nat)
    ensures r == PathDenotes(pattern, path)
    ensures steps <= (|pattern| + 1) * |path|
  {
    var p: nat, s: nat := 0, 0;
    var star := NoneYet;
    steps := 0;
    ghost var seen: set<(nat, nat)> := {};
    while s < |path|
      invariant Kept(IsAny, SegmentDenotes, pattern, path, p, s, star)
      invariant Behind(IsAny, pattern, |path|, p, s, star, seen)
      invariant steps == |seen|
      decreases (|pattern| + 1) * |path| - |seen|
    {
      ghost var i, j, last := p, s, star;
      var taken := false;
      if p < |pattern| && pattern[p].Tokens? {
        ghost var inner: nat;
        taken, inner := MatchTokens(pattern[p].tokens, path[s]);
      }
      if p < |pattern| && pattern[p].Any? {
        EarlierWildcardDropped(IsAny, SegmentDenotes, pattern, path, p, s, star);
        p := p + 1;
        star := Seen(p, s);
      } else if taken {
        StepKept(IsAny, SegmentDenotes, pattern, path, p, s, star);
        p := p + 1;
        s := s + 1;
      } else if star.Seen? {
        RetryKept(IsAny, SegmentDenotes, pattern, path, p, s, star);
        p := star.resume;
        s := star.at + 1;
        star := Seen(p, s);
      } else {
        VisitsBounded(seen + {(p, s)}, |pattern| + 1, |path|);
        return false, steps + 1;
      }
      MovesForward(IsAny, pattern, |path|, i, j, last, p, s, star, seen);
      VisitsBounded(seen + {(i, j)}, |pattern| + 1, |path|);
      seen := seen + {(i, j)};
      steps := steps + 1;
    }
    NoRetryAtEnd(IsAny, SegmentDenotes, pattern, path, p, star);
    VisitsBounded(seen, |pattern| + 1, |path|);
    r := AllWild(IsAny, pattern, p);
  }
}
