/** The tokenizer of one pattern segment. */
module GlobTokens {
  import opened Text
  import opened Wrappers
  import opened GlobMatch

  /** The ranges of a class from `c[i]`, and the index just past its `]`; `None` if it never
      closes. */
  function Ranges(c: string, i: nat): Option<(seq<(char, char)>, nat)>
    decreases |c| - i
  {
    if i >= |c| then None
    else if c[i] == ']' then Some(([], i + 1))
    else
      var lo := if c[i] == '\\' then i + 1 else i;
      if lo >= |c| then None
      else if HasUpper(c, lo + 1) then
        var hi := if c[lo + 2] == '\\' then lo + 3 else lo + 2;
        if hi >= |c| then None else WithFound([(c[lo], c[hi])], Ranges(c, hi + 1))
      else WithFound([(c[lo], c[lo])], Ranges(c, lo + 1))
  }

  /** Whether `-` and an upper bound follow at `i`: a `-` just before the `]` is a plain one. */
  predicate HasUpper(c: string, i: nat) {
    i + 1 < |c| && c[i] == '-' && c[i + 1] != ']'
  }

  /** What was found, put before what is found further on. */
  function WithFound<T>(pre: seq<T>, rest: Option<(seq<T>, nat)>): (r: Option<(seq<T>, nat)>)
    ensures pre == [] ==> r == rest
  {
    if rest.None? then None
    else
      assert [] + rest.value.0 == rest.value.0;
      Some((pre + rest.value.0, rest.value.1))
  }

  predicate Negated(c: string, i: nat) {
    i < |c| && (c[i] == '!' || c[i] == '^')
  }

  /** The token at `c[i]` and the index after it; absent for a `\` with nothing after it and for a
      class that is empty or never closes. */
  function NextToken(c: string, i: nat): (r: Option<(Token, nat)>)
    requires i < |c|
    ensures r.Some? ==> i < r.value.1 <= |c|
  {
    match c[i]
    case '*' => Some((Star, i + 1))
    case '?' => Some((One, i + 1))
    case '\\' => if i + 1 < |c| then Some((Lit(c[i + 1]), i + 2)) else None
    case '[' =>
      RangesEnd(c, ClassBody(c, i));
      var ranges := Ranges(c, ClassBody(c, i));
      if ranges.None? || ranges.value.0 == [] then None
      else Some((Class(Negated(c, i + 1), ranges.value.0), ranges.value.1))
    case ch => Some((Lit(ch), i + 1))
  }

  /** The tokens of `c[i..]`, absent as soon as one of them is. */
  function TokensFrom(c: string, i: nat): Option<seq<Token>>
    decreases |c| - i
  {
    if i >= |c| then Some([])
    else
      var next := NextToken(c, i);
      if next.None? then None else WithTokens([next.value.0], TokensFrom(c, next.value.1))
  }

  function WithTokens(pre: seq<Token>, rest: Option<seq<Token>>): (r: Option<seq<Token>>)
    ensures pre == [] ==> r == rest
  {
    if rest.None? then None
    else
      assert [] + rest.value == rest.value;
      Some(pre + rest.value)
  }

  /** Where the ranges of the class opened at `i` start. */
  function ClassBody(c: string, i: nat): nat {
    if Negated(c, i + 1) then i + 2 else i + 1
  }

  lemma {:induction false} RangesEnd(c: string, i: nat)
    ensures Ranges(c, i).Some? ==> i < Ranges(c, i).value.1 <= |c|
    decreases |c| - i
  {
    if i < |c| && c[i] != ']' {
      var lo := if c[i] == '\\' then i + 1 else i;
      if lo < |c| {
        if HasUpper(c, lo + 1) {
          var hi := if c[lo + 2] == '\\' then lo + 3 else lo + 2;
          if hi < |c| { RangesEnd(c, hi + 1); }
        } else {
          RangesEnd(c, lo + 1);
        }
      }
    }
  }

  /** The class opened just before `i`: its ranges and the index past its `]`. */
  method ParseRanges(c: string, i: nat) returns (r: Option<(seq<(char, char)>, nat)>)
    ensures r == Ranges(c, i)
  {
    var at := i;
    var ranges: seq<(char, char)> := [];
    while true
      invariant i <= at
      invariant Ranges(c, i) == WithFound(ranges, Ranges(c, at))
      decreases |c| - at
    {
      ghost var before, from := ranges, at;
      if at >= |c| {
        return None;
      }
      if c[at] == ']' {
        break;
      }
      if c[at] == '\\' {
        at := at + 1;
        if at >= |c| {
          return None;
        }
      }
      var lo := c[at];
      at := at + 1;
      var hi := lo;
      if HasUpper(c, at) {
        at := at + 1;
        if c[at] == '\\' {
          at := at + 1;
        }
        if at >= |c| {
          return None;
        }
        hi := c[at];
        at := at + 1;
      }
      ranges := ranges + [(lo, hi)];
      assert Ranges(c, from) == WithFound([(lo, hi)], Ranges(c, at));
      if Ranges(c, at).Some? {
        Assoc(before, [(lo, hi)], Ranges(c, at).value.0);
      }
    }
    Unit(ranges);
    return Some((ranges, at + 1));
  }

  method ParseToken(c: string, i: nat) returns (r: Option<(Token, nat)>)
    requires i < |c|
    ensures r == NextToken(c, i)
  {
    match c[i]
    case '*' => r := Some((Star, i + 1));
    case '?' => r := Some((One, i + 1));
    case '\\' => r := if i + 1 < |c| then Some((Lit(c[i + 1]), i + 2)) else None;
    case '[' =>
      var negate := Negated(c, i + 1);
      var ranges := ParseRanges(c, if negate then i + 2 else i + 1);
      r := if ranges.None? || ranges.value.0 == [] then None
           else Some((Class(negate, ranges.value.0), ranges.value.1));
    case ch => r := Some((Lit(ch), i + 1));
  }

  /** The tokenizer's loop, proved against `TokensFrom`. */
  method Tokenize(seg: string) returns (r: Option<seq<Token>>)
    ensures r == TokensFrom(seg, 0)
  {
    var out: seq<Token> := [];
    var i := 0;
    while i < |seg|
      invariant TokensFrom(seg, 0) == WithTokens(out, TokensFrom(seg, i))
      decreases |seg| - i
    {
      var next := ParseToken(seg, i);
      if next.None? {
        return None;
      }
      var (t, after) := next.value;
      ghost var rest := TokensFrom(seg, after);
      if rest.Some? {
        Assoc(out, [t], rest.value);
      }
      out, i := out + [t], after;
    }
    Unit(out);
    return Some(out);
  }

  // Spelling tokens, and reading the spelling back.

  /** A spelling of a token: special characters and class bounds escaped. */
  function Spell(t: Token): string {
    match t
    case Star => "*"
    case One => "?"
    case Lit(c) => ['\\', c]
    case Class(negate, ranges) => (if negate then "[!" else "[") + (SpellRanges(ranges) + "]")
  }

  function SpellRanges(ranges: seq<(char, char)>): string {
    if ranges == [] then []
    else SpellRange(ranges[0]) + SpellRanges(ranges[1..])
  }

  function SpellRange(r: (char, char)): string {
    ['\\', r.0, '-', '\\', r.1]
  }

  function SpellAll(ts: seq<Token>): string {
    if ts == [] then [] else Spell(ts[0]) + SpellAll(ts[1..])
  }

  /** Every class a segment can hold has a range: `[]` and `[!]` are refused. */
  predicate Spellable(t: Token) {
    t.Class? ==> t.ranges != []
  }

  /** `x` stands in `p` at index `i`. */
  ghost predicate At(p: string, i: nat, x: string)
    decreases |x|
  {
    if x == [] then i <= |p| else i < |p| && p[i] == x[0] && At(p, i + 1, x[1..])
  }

  lemma {:induction false} AtSplit(p: string, i: nat, x: string, y: string)
    requires At(p, i, x + y)
    ensures At(p, i, x) && At(p, i + |x|, y)
    decreases |x|
  {
    if x == [] {
      Unit(y);
      AtFits(p, i, y);
    } else {
      assert (x + y)[1..] == x[1..] + y;
      AtSplit(p, i + 1, x[1..], y);
    }
  }

  lemma {:induction false} AtFits(p: string, i: nat, x: string)
    requires At(p, i, x)
    ensures i + |x| <= |p|
    decreases |x|
  {
    if x != [] {
      AtFits(p, i + 1, x[1..]);
    }
  }

  lemma {:induction false} AtIndex(p: string, i: nat, x: string, k: nat)
    requires At(p, i, x) && k < |x|
    ensures i + k < |p| && p[i + k] == x[k]
    decreases |x|
  {
    if k > 0 {
      AtIndex(p, i + 1, x[1..], k - 1);
    }
  }

  lemma AtSlice(p: string, i: nat, x: string)
    requires At(p, i, x)
    ensures i + |x| <= |p| && p[i..i + |x|] == x
  {
    AtFits(p, i, x);
    forall k: nat | k < |x|
      ensures p[i + k] == x[k]
    {
      AtIndex(p, i, x, k);
    }
  }

  lemma {:induction false} AtHere(pre: string, x: string, post: string)
    ensures At(pre + x + post, |pre|, x)
    decreases |x|
  {
    if x != [] {
      HeadTail(x);
      Assoc(pre, [x[0]], x[1..]);
      AtHere(pre + [x[0]], x[1..], post);
    }
  }

  lemma AtSelf(s: string)
    ensures At(s, 0, s)
  {
    AtHere([], s, []);
    Unit(s);
  }

  lemma {:induction false} RangesSpelled(c: string, i: nat, ranges: seq<(char, char)>)
    requires At(c, i, SpellRanges(ranges) + "]")
    ensures Ranges(c, i) == Some((ranges, i + |SpellRanges(ranges)| + 1))
    decreases |ranges|
  {
    if ranges == [] {
      AtIndex(c, i, SpellRanges(ranges) + "]", 0);
    } else {
      var first := SpellRange(ranges[0]);
      Assoc(first, SpellRanges(ranges[1..]), "]");
      AtSplit(c, i, first, SpellRanges(ranges[1..]) + "]");
      RangesSpelled(c, i + 5, ranges[1..]);
      OneRange(c, i, ranges[0]);
      HeadTail(ranges);
    }
  }

  lemma OneRange(c: string, i: nat, r: (char, char))
    requires At(c, i, SpellRange(r))
    ensures Ranges(c, i) == WithFound([r], Ranges(c, i + 5))
  {
    var spelled := SpellRange(r);
    AtIndex(c, i, spelled, 0);
    AtIndex(c, i, spelled, 1);
    AtIndex(c, i, spelled, 2);
    AtIndex(c, i, spelled, 3);
    AtIndex(c, i, spelled, 4);
  }

  lemma TokenSpelled(c: string, i: nat, t: Token)
    requires Spellable(t) && At(c, i, Spell(t))
    ensures i < |c| && NextToken(c, i) == Some((t, i + |Spell(t)|))
  {
    AtIndex(c, i, Spell(t), 0);
    match t {
      case Star =>
      case One =>
      case Lit(_) => AtIndex(c, i, Spell(t), 1);
      case Class(negate, ranges) => ClassSpelled(c, i, negate, ranges);
    }
  }

  lemma ClassToken(c: string, i: nat, ranges: seq<(char, char)>, end: nat)
    requires i < |c| && c[i] == '[' && ranges != []
    requires Ranges(c, ClassBody(c, i)) == Some((ranges, end))
    ensures NextToken(c, i) == Some((Class(Negated(c, i + 1), ranges), end))
  {
  }

  lemma ClassOpened(c: string, i: nat, open: string, first: char)
    requires open == "[" || open == "[!"
    requires At(c, i, open) && i + |open| < |c| && c[i + |open|] == first
    requires first != '!' && first != '^'
    ensures c[i] == '[' && Negated(c, i + 1) == (open == "[!") && ClassBody(c, i) == i + |open|
  {
    AtIndex(c, i, open, 0);
    if |open| == 2 {
      AtIndex(c, i, open, 1);
    }
  }

  lemma BodyStarts(ranges: seq<(char, char)>)
    requires ranges != []
    ensures SpellRanges(ranges) + "]" != [] && (SpellRanges(ranges) + "]")[0] == '\\'
  {
    assert SpellRange(ranges[0])[0] == '\\';
  }

  lemma ClassRead(c: string, i: nat, open: string, ranges: seq<(char, char)>)
    requires ranges != [] && (open == "[" || open == "[!")
    requires At(c, i, open) && At(c, i + |open|, SpellRanges(ranges) + "]")
    ensures i < |c|
    ensures NextToken(c, i)
            == Some((Class(open == "[!", ranges), i + |open| + |SpellRanges(ranges) + "]"|))
  {
    var body := SpellRanges(ranges) + "]";
    RangesSpelled(c, i + |open|, ranges);
    BodyStarts(ranges);
    AtIndex(c, i + |open|, body, 0);
    ClassOpened(c, i, open, body[0]);
    ClassToken(c, i, ranges, i + |open| + |body|);
  }

  lemma ClassSpelled(c: string, i: nat, negate: bool, ranges: seq<(char, char)>)
    requires ranges != [] && At(c, i, Spell(Class(negate, ranges)))
    ensures i < |c|
    ensures NextToken(c, i) == Some((Class(negate, ranges), i + |Spell(Class(negate, ranges))|))
  {
    var open := if negate then "[!" else "[";
    AtSplit(c, i, open, SpellRanges(ranges) + "]");
    ClassRead(c, i, open, ranges);
  }

  lemma TokensCons(c: string, i: nat, t: Token, rest: seq<Token>)
    requires Spellable(t) && At(c, i, Spell(t))
    requires TokensFrom(c, i + |Spell(t)|) == Some(rest)
    ensures TokensFrom(c, i) == Some([t] + rest)
  {
    TokenSpelled(c, i, t);
  }

  lemma {:induction false} TokensSpelledFrom(c: string, i: nat, ts: seq<Token>)
    requires forall t <- ts :: Spellable(t)
    requires i + |SpellAll(ts)| == |c| && At(c, i, SpellAll(ts))
    ensures TokensFrom(c, i) == Some(ts)
    decreases |ts|
  {
    if ts != [] {
      var t, rest := ts[0], ts[1..];
      assert t in ts;
      FirstSpelled(c, i, ts);
      TokensSpelledFrom(c, i + |Spell(t)|, rest);
      TokensCons(c, i, t, rest);
      HeadTail(ts);
    }
  }

  lemma FirstSpelled(c: string, i: nat, ts: seq<Token>)
    requires ts != [] && At(c, i, SpellAll(ts))
    ensures At(c, i, Spell(ts[0])) && At(c, i + |Spell(ts[0])|, SpellAll(ts[1..]))
  {
    AtSplit(c, i, Spell(ts[0]), SpellAll(ts[1..]));
  }

  /** The tokenizer reads back every token list from its spelling, so every list of tokens (each
      class with a range) is denoted by some segment, and nothing in it is lost or merged. */
  lemma TokensSpelled(ts: seq<Token>)
    requires forall t <- ts :: Spellable(t)
    ensures TokensFrom(SpellAll(ts), 0) == Some(ts)
  {
    AtHere([], SpellAll(ts), []);
    Unit(SpellAll(ts));
    TokensSpelledFrom(SpellAll(ts), 0, ts);
  }
}
