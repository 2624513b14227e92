/** Literal text in patterns: what escaping a path gives, and what a pattern's literal base tells. */
module GlobLiteral {
  import opened Text
  import opened Wrappers
  import opened GlobMatch
  import opened GlobTokens
  import opened GlobBraces
  import opened GlobPattern

  /** `s` with a backslash before each glob character. */
  function Escape(s: string): string {
    if s == [] then [] else EscapeChar(s[0]) + Escape(s[1..])
  }

  function EscapeChar(c: char): string {
    if IsGlob(c) then ['\\', c] else [c]
  }

  predicate Plain(s: string) {
    forall c <- s :: !IsGlob(c)
  }

  lemma {:induction false} EscapePlain(s: string)
    requires Plain(s)
    ensures Escape(s) == s
  {
    if s != [] {
      EscapePlain(s[1..]);
      HeadTail(s);
    }
  }

  lemma EscapedChar(p: string, i: nat, c: char)
    requires At(p, i, EscapeChar(c))
    ensures FindOpen(p, i) == FindOpen(p, i + |EscapeChar(c)|)
    ensures TokensFrom(p, i) == WithTokens([Lit(c)], TokensFrom(p, i + |EscapeChar(c)|))
  {
    AtIndex(p, i, EscapeChar(c), 0);
    if IsGlob(c) {
      AtIndex(p, i, EscapeChar(c), 1);
    }
  }

  lemma {:induction false} EscapedSettled(p: string, i: nat, s: string)
    requires At(p, i, Escape(s)) && i + |Escape(s)| == |p|
    ensures FindOpen(p, i).None?
    decreases |s|
  {
    if s != [] {
      AtSplit(p, i, EscapeChar(s[0]), Escape(s[1..]));
      EscapedChar(p, i, s[0]);
      EscapedSettled(p, i + |EscapeChar(s[0])|, s[1..]);
    }
  }

  lemma {:induction false} LiteralCons(s: string)
    requires s != []
    ensures Literal(s) == [Lit(s[0])] + Literal(s[1..])
  {
  }

  lemma {:induction false} EscapedTokens(p: string, i: nat, s: string)
    requires At(p, i, Escape(s)) && i + |Escape(s)| == |p|
    ensures TokensFrom(p, i) == Some(Literal(s))
    decreases |s|
  {
    if s == [] {
      assert Literal(s) == [];
    } else {
      AtSplit(p, i, EscapeChar(s[0]), Escape(s[1..]));
      EscapedChar(p, i, s[0]);
      EscapedTokens(p, i + |EscapeChar(s[0])|, s[1..]);
      LiteralCons(s);
    }
  }

  lemma EscapedSegment(name: string)
    ensures CompileSegment(Escape(name)) == Some(Tokens(Literal(name)))
  {
    AtSelf(Escape(name));
    EscapedTokens(Escape(name), 0, name);
    if name != [] {
      assert Escape(name)[0] == EscapeChar(name[0])[0];
    }
  }

  function EscapeAll(names: seq<string>): seq<string> {
    if names == [] then [] else [Escape(names[0])] + EscapeAll(names[1..])
  }

  lemma {:induction false} EscapeSplit(s: string)
    ensures Split(Escape(s), '/') == EscapeAll(Split(s, '/'))
  {
    if s != [] {
      var rest := Split(s[1..], '/');
      EscapeSplit(s[1..]);
      if s[0] == '/' {
        assert ([[]] + rest)[1..] == rest;
        SplitSlash(Escape(s[1..]));
      } else {
        SplitNoSlash(EscapeChar(s[0]), Escape(s[1..]));
        var parts := [[s[0]] + rest[0]] + rest[1..];
        assert parts[1..] == rest[1..];
        assert ([s[0]] + rest[0])[1..] == rest[0];
        assert EscapeAll(rest)[0] == Escape(rest[0]) && EscapeAll(rest)[1..] == EscapeAll(rest[1..]);
      }
    }
  }

  lemma SplitSlash(s: string)
    ensures Split("/" + s, '/') == [[]] + Split(s, '/')
  {
    assert ("/" + s)[1..] == s;
  }

  lemma {:induction false} SplitNoSlash(x: string, s: string)
    requires '/' !in x
    ensures Split(x + s, '/') == [x + Split(s, '/')[0]] + Split(s, '/')[1..]
  {
    if x == [] {
      Unit(s);
      Unit(Split(s, '/')[0]);
      HeadTail(Split(s, '/'));
    } else {
      TailPlus(x, s);
      SplitNoSlash(x[1..], s);
      HeadTail(x);
      Assoc([x[0]], x[1..], Split(s, '/')[0]);
    }
  }

  lemma {:induction false} EscapeAllAt(names: seq<string>, k: nat)
    requires k < |names|
    ensures |EscapeAll(names)| == |names| && EscapeAll(names)[k] == Escape(names[k])
  {
    if |names| > 1 {
      EscapeAllAt(names[1..], if k > 0 then k - 1 else 0);
    }
  }

  lemma EscapedAlt(path: string)
    ensures CompileAlt(Escape(path)) == Some(LiteralAlt(Split(path, '/')))
  {
    var names := Split(path, '/');
    var escaped := Split(Escape(path), '/');
    EscapeSplit(path);
    EscapeAllAt(names, 0);
    forall k: nat | k < |names|
      ensures CompileSegment(escaped[k]) == Some(Tokens(Literal(names[k])))
    {
      EscapeAllAt(names, k);
      EscapedSegment(names[k]);
    }
    var r := Traverse(CompileSegment, escaped);
    assert r.Some? && r.value == LiteralAlt(names);
  }

  lemma EscapedCompiles(path: string)
    ensures Compile(Escape(path)) == Some([LiteralAlt(Split(path, '/'))])
  {
    var e := Escape(path);
    AtSelf(e);
    EscapedSettled(e, 0, path);
    assert Expand(e) == Some([e]);
    EscapedAlt(path);
    TraverseOne(CompileAlt, e);
  }

  lemma TraverseOne<A, B>(f: A -> Option<B>, x: A)
    requires f(x).Some?
    ensures Traverse(f, [x]) == Some([f(x).value])
  {
    assert [x][0] == x && [x][1..] == [];
    Unit([f(x).value]);
  }

  /** Escaping a path's glob characters gives a pattern that compiles and matches exactly that path
      and no other, through brace scanning, segment splitting, tokenizing and both matchers. */
  lemma EscapedMatchesItself(path: string, other: string)
    ensures Compile(Escape(path)).Some?
    ensures Selects(Compile(Escape(path)).value, Split(other, '/')) <==> other == path
  {
    var names := Split(path, '/');
    EscapedCompiles(path);
    var pattern := [LiteralAlt(names)];
    LiteralAltDenotes(names, Split(other, '/'));
    if Selects(pattern, Split(other, '/')) {
      SplitInjective(path, other, '/');
    } else {
      assert pattern[0] in pattern;
    }
  }

  /** A pattern without glob characters matches itself only: naming the path directly, as `glob`
      does, is what its compiled pattern says. */
  lemma PlainMatchesItself(path: string, names: seq<string>)
    requires Plain(path)
    ensures Compile(path).Some?
    ensures Selects(Compile(path).value, names) <==> names == Split(path, '/')
  {
    EscapePlain(path);
    EscapedCompiles(path);
    var pattern := [LiteralAlt(Split(path, '/'))];
    LiteralAltDenotes(Split(path, '/'), names);
    assert pattern[0] in pattern;
  }

  // The literal base.

  function FirstGlob(p: string): (r: nat)
    ensures r <= |p| && Plain(p[..r])
    ensures r < |p| ==> IsGlob(p[r])
  {
    if p == [] || IsGlob(p[0]) then 0
    else
      var r := 1 + FirstGlob(p[1..]);
      assert p[..r] == [p[0]] + p[1..][..r - 1];
      r
  }

  function LastSlash(s: string): (r: Option<nat>)
    ensures r.Some? ==> r.value < |s| && s[r.value] == '/'
    ensures r.None? ==> '/' !in s
  {
    if s == [] then None
    else if s[|s| - 1] == '/' then Some(|s| - 1)
    else LastSlash(s[..|s| - 1])
  }

  /** Where the walk starts: the components of `pattern` that a `/` ends before its first glob
      character. */
  function GlobBase(pattern: string): (r: string)
    ensures Plain(r)
    ensures r != [] ==> |r| < |pattern| && pattern[..|r|] == r && pattern[|r|] == '/'
  {
    var literal := pattern[..FirstGlob(pattern)];
    match LastSlash(literal)
    case None => []
    case Some(i) =>
      assert literal[..i] == pattern[..i];
      pattern[..i]
  }

  lemma {:induction false} PlainPassed(p: string, i: nat, n: nat)
    requires i <= n <= |p| && Plain(p[i..n])
    ensures FindOpen(p, i) == FindOpen(p, n)
    decreases n - i
  {
    if i < n {
      assert p[i..n][0] in p[i..n];
      assert p[i + 1..n] == p[i..n][1..];
      PlainPassed(p, i + 1, n);
    }
  }

  lemma PrefixPlus(lit: string, head: string, x: string, y: string)
    requires lit <= head
    ensures lit <= head + x + y
  {
  }

  lemma {:induction false} CandidatesKeep(p: string, head: string, tail: string, from: nat,
                                          commas: seq<nat>, close: nat, lit: string)
    requires Ordered(from, commas, close) && close < |p| && lit <= head
    ensures forall c <- Candidates(p, head, tail, from, commas, close) :: lit <= c
    decreases |commas|
  {
    OrderedBounds(from, commas, close);
    if commas == [] {
      PrefixPlus(lit, head, p[from..close], tail);
    } else {
      PrefixPlus(lit, head, p[from..commas[0]], tail);
      CandidatesKeep(p, head, tail, commas[0] + 1, commas[1..], close, lit);
    }
  }

  lemma GroupedKeeps(p: string, o: nat, commas: seq<nat>, close: nat, lit: string)
    requires o < |p| && Ordered(o + 1, commas, close) && close < |p| && lit <= p[..o]
    ensures Grouped(p, o, Some((commas, close))).Replace?
    ensures forall c <- Grouped(p, o, Some((commas, close))).candidates :: lit <= c
  {
    OrderedBounds(o + 1, commas, close);
    CandidatesKeep(p, p[..o], p[close + 1..], o + 1, commas, close, lit);
  }

  lemma OpenKeeps(p: string, lit: string)
    requires Plain(lit) && lit <= p && Open(p).Replace?
    ensures forall c <- Open(p).candidates :: lit <= c
  {
    assert p[0..|lit|] == lit;
    PlainPassed(p, 0, |lit|);
    var o := FindOpen(p, 0).value;
    var (commas, close) := Commas(p, o + 1, 1).value;
    assert lit <= p[..o];
    GroupedKeeps(p, o, commas, close, lit);
  }

  /** Expansion leaves the literal start of a pattern alone. */
  lemma {:induction false} ExpandKeeps(p: string, lit: string)
    requires Plain(lit) && lit <= p
    ensures Expand(p).Some? ==> forall a <- Expand(p).value :: lit <= a
    decreases |p|, 1, 0
  {
    if Open(p).Replace? {
      OpenKeeps(p, lit);
      OpenShortens(p);
      ExpandAllKeeps(Open(p).candidates, |p|, lit);
    }
  }

  lemma {:induction false} ExpandAllKeeps(candidates: seq<string>, size: nat, lit: string)
    requires Plain(lit) && forall c <- candidates :: |c| < size && lit <= c
    ensures ExpandAll(candidates, size).Some? ==>
              forall a <- ExpandAll(candidates, size).value :: lit <= a
    decreases size, 0, |candidates|
  {
    if candidates != [] {
      assert candidates[0] in candidates;
      ExpandKeeps(candidates[0], lit);
      ExpandAllKeeps(candidates[1..], size, lit);
    }
  }

  lemma PlainSegment(name: string)
    requires Plain(name)
    ensures CompileSegment(name) == Some(Tokens(Literal(name)))
  {
    EscapePlain(name);
    EscapedSegment(name);
  }

  lemma {:induction false} SplitPlain(s: string)
    requires Plain(s)
    ensures forall part <- Split(s, '/') :: Plain(part)
  {
    if s != [] {
      SplitPlain(s[1..]);
      var rest := Split(s[1..], '/');
      assert rest[0] in rest;
    }
  }

  lemma AltStartsLiteral(alt: string, base: string)
    requires Plain(base) && base + "/" <= alt && CompileAlt(alt).Some?
    ensures var names := Split(base, '/');
            |names| <= |CompileAlt(alt).value| &&
            CompileAlt(alt).value[..|names|] == LiteralAlt(names)
  {
    var names, after := Split(base, '/'), alt[|base| + 1..];
    assert alt == base + "/" + after;
    SplitPlus(base, after, '/');
    SplitPlain(base);
    var segs := CompileAlt(alt).value;
    forall k | 0 <= k < |names|
      ensures segs[k] == Tokens(Literal(names[k]))
    {
      assert names[k] in names;
      PlainSegment(names[k]);
      assert Split(alt, '/')[k] == names[k];
    }
  }

  /** Whatever a pattern matches lies at or below its literal base: searching from the base loses
      nothing. */
  lemma MatchesUnderBase(pattern: string, path: seq<string>)
    requires Compile(pattern).Some? && Selects(Compile(pattern).value, path)
    requires GlobBase(pattern) != []
    ensures Split(GlobBase(pattern), '/') <= path
  {
    var base := GlobBase(pattern);
    var names := Split(base, '/');
    var lit := base + "/";
    assert pattern[..|lit|] == lit;
    assert Plain(lit);
    ExpandKeeps(pattern, lit);
    var alts := Expand(pattern).value;
    var compiled := Compile(pattern).value;
    var k :| 0 <= k < |compiled| && PathDenotes(compiled[k], path);
    assert alts[k] in alts;
    AltStartsLiteral(alts[k], base);
    LiteralPrefix(compiled[k], names, 0, path);
    assert names[0..] == names && path[0..|names|] == path[..|names|];
  }
}
