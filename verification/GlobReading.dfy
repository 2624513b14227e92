/** Every pattern that compiles can be laid open as texts and groups, so it means its choices. */
module GlobReading {
  import T = Text
  import opened Wrappers
  import opened GlobMatch
  import opened GlobTokens
  import opened GlobBraces
  import opened GlobPattern
  import B = BraceMeaning

  // The last unescaped bracket of a text.

  datatype Bracket = Neither | Opening | Closing

  /** What `p[i]` leaves behind: a `\` with nothing to escape counts as an opening bracket. */
  function BracketAt(p: string, i: nat): Bracket
    requires i < |p|
  {
    match p[i]
    case '[' => Opening
    case ']' => Closing
    case '\\' => if i + 1 == |p| then Opening else Neither
    case _ => Neither
  }

  function Then(a: Bracket, b: Bracket): Bracket {
    if b == Neither then a else b
  }

  function Step(p: string, i: nat): nat
    requires i < |p|
  {
    if p[i] == '\\' then i + 2 else i + 1
  }

  function LastFrom(p: string, i: nat): Bracket
    decreases |p| - i
  {
    if i >= |p| then Neither else Then(BracketAt(p, i), LastFrom(p, Step(p, i)))
  }

  function Last(p: string): Bracket {
    LastFrom(p, 0)
  }

  /** From `i`, every escape has its character. */
  predicate Even(p: string, i: nat)
    decreases |p| - i
  {
    if i >= |p| then i == |p| else Even(p, Step(p, i))
  }

  lemma {:induction false} LastShift(x: string, y: string, k: nat)
    ensures LastFrom(x + y, |x| + k) == LastFrom(y, k)
    decreases |y| - k
  {
    if k < |y| {
      LastShift(x, y, Step(y, k));
    }
  }

  lemma {:induction false} LastPlusFrom(x: string, y: string, i: nat)
    requires i <= |x| && Even(x, i)
    ensures LastFrom(x + y, i) == Then(LastFrom(x, i), Last(y))
    decreases |x| - i
  {
    if i == |x| {
      LastShift(x, y, 0);
    } else {
      LastPlusFrom(x, y, Step(x, i));
    }
  }

  lemma LastPlus(x: string, y: string)
    requires Even(x, 0)
    ensures Last(x + y) == Then(Last(x), Last(y))
  {
    LastPlusFrom(x, y, 0);
  }

  lemma {:induction false} NotOpeningEven(p: string, i: nat)
    requires i <= |p| && LastFrom(p, i) != Opening
    ensures Even(p, i)
    decreases |p| - i
  {
    if i < |p| && Step(p, i) <= |p| {
      NotOpeningEven(p, Step(p, i));
    }
  }

  /** The scan by characters and escapes comes from `i` to `j`. */
  predicate Steps(p: string, i: nat, j: nat)
    decreases j - i
  {
    if i >= j then i == j else i < |p| && Steps(p, Step(p, i), j)
  }

  lemma {:induction false} StepsMore(p: string, i: nat, j: nat, k: nat)
    requires Steps(p, i, j) && Steps(p, j, k)
    ensures Steps(p, i, k)
    decreases j - i
  {
    if i < j {
      StepsOrdered(p, j, k);
      StepsMore(p, Step(p, i), j, k);
    }
  }

  lemma StepsOrdered(p: string, i: nat, j: nat)
    requires Steps(p, i, j)
    ensures i <= j
  {
  }

  lemma {:induction false} StepsEven(p: string, i: nat, k: nat, j: nat)
    requires i <= k <= j <= |p| && Steps(p, k, j)
    ensures Even(p[i..j], k - i)
    decreases j - k
  {
    if k < j {
      StepsOrdered(p, Step(p, k), j);
      StepsEven(p, i, Step(p, k), j);
    }
  }

  // The scanner keeps to unescaped characters.

  lemma {:induction false} ClassSteps(p: string, i: nat)
    requires ClassClose(p, i).Some?
    ensures Steps(p, i, ClassClose(p, i).value)
    ensures LastFrom(p, i) == Then(Closing, LastFrom(p, ClassClose(p, i).value))
    decreases |p| - i
  {
    if p[i] != ']' {
      ClassSteps(p, Step(p, i));
    }
  }

  lemma {:induction false} ClassUnclosed(p: string, i: nat)
    requires ClassClose(p, i).None?
    ensures LastFrom(p, i) != Closing
    decreases |p| - i
  {
    if i < |p| {
      ClassUnclosed(p, Step(p, i));
    }
  }

  /** A class is closed or not whether its `!` is read as part of it. */
  lemma BodyClose(p: string, i: nat)
    ensures ClassClose(p, i + 1) == ClassEnd(p, i)
    ensures Steps(p, i + 1, ClassBody(p, i))
  {
  }

  lemma NextSteps(p: string, i: nat)
    requires i < |p|
    ensures Steps(p, i, Next(p, i))
  {
    if p[i] == '[' && ClassEnd(p, i).Some? {
      BodyClose(p, i);
      ClassSteps(p, i + 1);
    }
  }

  lemma {:induction false} OpenSteps(p: string, i: nat)
    requires FindOpen(p, i).Some?
    ensures Steps(p, i, FindOpen(p, i).value)
    decreases |p| - i
  {
    if p[i] != '{' {
      NextSteps(p, i);
      OpenSteps(p, Next(p, i));
      StepsMore(p, i, Next(p, i), FindOpen(p, i).value);
    }
  }

  /** The first comma found or, without one, the brace found. */
  function FirstEnd(found: (seq<nat>, nat)): nat {
    if found.0 == [] then found.1 else found.0[0]
  }

  lemma {:induction false} CommaSteps(p: string, i: nat, depth: nat)
    requires depth > 0 && Commas(p, i, depth).Some?
    ensures Steps(p, i, FirstEnd(Commas(p, i, depth).value))
    decreases |p| - i
  {
    var end := FirstEnd(Commas(p, i, depth).value);
    if p[i] == '{' {
      CommaSteps(p, i + 1, depth + 1);
    } else if p[i] == '}' {
      if depth > 1 {
        CommaSteps(p, i + 1, depth - 1);
      }
    } else if p[i] != ',' || depth > 1 {
      NextSteps(p, i);
      CommaSteps(p, Next(p, i), depth);
      StepsMore(p, i, Next(p, i), end);
    }
  }

  lemma {:induction false} CommaNext(p: string, i: nat, depth: nat)
    requires depth > 0 && Commas(p, i, depth).Some? && Commas(p, i, depth).value.0 != []
    ensures var (commas, close) := Commas(p, i, depth).value;
            && commas[0] < |p| && p[commas[0]] == ','
            && Commas(p, commas[0] + 1, 1) == Some((commas[1..], close))
    decreases |p| - i
  {
    if p[i] == '{' {
      CommaNext(p, i + 1, depth + 1);
    } else if p[i] == '}' {
      if depth > 1 {
        CommaNext(p, i + 1, depth - 1);
      }
    } else if p[i] == ',' && depth == 1 {
      assert Commas(p, i, depth).value.0[1..] == Commas(p, i + 1, 1).value.0;
    } else {
      CommaNext(p, Next(p, i), depth);
    }
  }

  // Some alternative keeps the last bracket.

  lemma {:induction false} CutFrom(p: string, i: nat, k: nat, j: nat)
    requires i <= k <= j <= |p| && Steps(p, k, j)
    ensures LastFrom(p, k) == Then(LastFrom(p[i..j], k - i), LastFrom(p, j))
    decreases j - k
  {
    if k < j {
      StepsOrdered(p, Step(p, k), j);
      CutFrom(p, i, Step(p, k), j);
    }
  }

  lemma LastSuffix(p: string, i: nat)
    requires i <= |p|
    ensures LastFrom(p, i) == Last(p[i..])
  {
    LastShift(p[..i], p[i..], 0);
    assert p[..i] + p[i..] == p;
  }

  lemma AroundLast(p: string, o: nat, close: nat)
    requires o < close < |p| && p[o] == '{' && p[close] == '}'
    requires Steps(p, 0, o) && Steps(p, o + 1, close)
    ensures Last(p) == Then(Then(Last(p[..o]), Last(p[o + 1..close])), Last(p[close + 1..]))
  {
    CutFrom(p, 0, 0, o);
    CutFrom(p, o + 1, o + 1, close);
    LastSuffix(p, close + 1);
  }

  lemma CandidateLast(head: string, alt: string, tail: string)
    requires Even(head, 0) && Even(alt, 0)
    ensures Last(head + alt + tail) == Then(Then(Last(head), Last(alt)), Last(tail))
  {
    T.Assoc(head, alt, tail);
    LastPlus(head, alt + tail);
    LastPlus(alt, tail);
  }

  lemma CommaLast(p: string, from: nat, comma: nat, close: nat)
    requires from <= comma < close <= |p| && p[comma] == ',' && Steps(p, from, comma)
    ensures Even(p[from..comma], 0)
    ensures Last(p[from..close]) == Then(Last(p[from..comma]), Last(p[comma + 1..close]))
  {
    var (alt, others) := (p[from..comma], p[comma + 1..close]);
    StepsEven(p, from, from, comma);
    assert p[from..close] == alt + ("," + others);
    LastPlus(alt, "," + others);
    LastShift(",", others, 0);
  }

  lemma {:induction false} AltKept(p: string, head: string, tail: string, from: nat, commas: seq<nat>,
                                   close: nat)
    returns (c: string)
    requires Commas(p, from, 1) == Some((commas, close)) && from <= close && Even(head, 0)
    ensures c in Candidates(p, head, tail, from, commas, close)
    ensures Last(c) == Then(Then(Last(head), Last(p[from..close])), Last(tail))
    decreases |commas|
  {
    OrderedBounds(from, commas, close);
    CommaSteps(p, from, 1);
    if commas == [] {
      c := head + p[from..close] + tail;
      StepsEven(p, from, from, close);
      CandidateLast(head, p[from..close], tail);
    } else {
      CommaNext(p, from, 1);
      CommaLast(p, from, commas[0], close);
      c := AltKept(p, head, tail, commas[0] + 1, commas[1..], close);
      if Last(p[commas[0] + 1..close]) == Neither {
        c := head + p[from..commas[0]] + tail;
        CandidateLast(head, p[from..commas[0]], tail);
      }
    }
  }

  lemma RoundKept(p: string) returns (c: string)
    requires Open(p).Replace?
    ensures c in Open(p).candidates && Last(c) == Last(p)
  {
    var o := FindOpen(p, 0).value;
    var (commas, close) := Commas(p, o + 1, 1).value;
    OrderedBounds(o + 1, commas, close);
    OpenSteps(p, 0);
    StepsEven(p, 0, 0, o);
    BraceSteps(p, o + 1, 1);
    AroundLast(p, o, close);
    c := AltKept(p, p[..o], p[close + 1..], o + 1, commas, close);
  }

  lemma {:induction false} BraceSteps(p: string, i: nat, depth: nat)
    requires depth > 0 && Commas(p, i, depth).Some?
    ensures var close := Commas(p, i, depth).value.1;
            close < |p| && p[close] == '}' && Steps(p, i, close)
    decreases |p| - i
  {
    var close := Commas(p, i, depth).value.1;
    if p[i] == '{' {
      BraceSteps(p, i + 1, depth + 1);
    } else if p[i] == '}' {
      if depth > 1 {
        BraceSteps(p, i + 1, depth - 1);
      }
    } else if p[i] == ',' && depth == 1 {
      BraceSteps(p, i + 1, depth);
    } else {
      NextSteps(p, i);
      BraceSteps(p, Next(p, i), depth);
      StepsMore(p, i, Next(p, i), close);
    }
  }

  lemma {:induction false} AllKept(candidates: seq<string>, size: nat, c: string, e: string)
    requires (forall c <- candidates :: |c| < size) && ExpandAll(candidates, size).Some?
    requires c in candidates
    ensures Expand(c).Some? && (e in Expand(c).value ==> e in ExpandAll(candidates, size).value)
    decreases |candidates|
  {
    assert candidates[0] in candidates;
    if c != candidates[0] {
      AllKept(candidates[1..], size, c, e);
    }
  }

  /** Expansion keeps the last bracket in some alternative. */
  lemma {:induction false} ExpandKept(p: string) returns (e: string)
    requires Expand(p).Some?
    ensures e in Expand(p).value && Last(e) == Last(p)
    decreases |p|
  {
    if Open(p).Settled? {
      e := p;
    } else {
      var c := RoundKept(p);
      OpenShortens(p);
      AllKept(Open(p).candidates, |p|, c, []);
      e := ExpandKept(c);
      AllKept(Open(p).candidates, |p|, c, e);
    }
  }

  // What compiles leaves no bracket open.

  lemma {:induction false} TokensLast(c: string, i: nat)
    requires i <= |c| && TokensFrom(c, i).Some?
    ensures LastFrom(c, i) != Opening
    decreases |c| - i
  {
    if i < |c| {
      TokensLast(c, NextToken(c, i).value.1);
      if c[i] == '[' {
        ClassesAgree(c, ClassBody(c, i));
        BodyClose(c, i);
        ClassSteps(c, i + 1);
      }
    }
  }

  lemma SegmentLast(seg: string)
    requires CompileSegment(seg).Some?
    ensures Last(seg) != Opening
  {
    if seg == "**" {
      assert LastFrom(seg, 1) == Neither;
    } else {
      TokensLast(seg, 0);
    }
  }

  lemma {:induction false} JoinLast(parts: seq<string>)
    requires |parts| > 0 && forall part <- parts :: Last(part) != Opening
    ensures Last(T.Join(parts, '/')) != Opening
  {
    assert parts[0] in parts;
    if |parts| > 1 {
      JoinLast(parts[1..]);
      NotOpeningEven(parts[0], 0);
      T.Assoc(parts[0], ['/'], T.Join(parts[1..], '/'));
      LastPlus(parts[0], ['/'] + T.Join(parts[1..], '/'));
      LastShift(['/'], T.Join(parts[1..], '/'), 0);
    }
  }

  lemma AltLast(alt: string)
    requires CompileAlt(alt).Some?
    ensures Last(alt) != Opening
  {
    var parts := T.Split(alt, '/');
    forall part <- parts
      ensures Last(part) != Opening
    {
      SegmentLast(part);
    }
    JoinLast(parts);
    T.JoinSplit(alt, '/');
  }

  /** A pattern that compiles has no class and no escape left open. */
  lemma CompiledLast(p: string)
    requires Compile(p).Some?
    ensures Expand(p).Some? && Last(p) != Opening
  {
    var e := ExpandKept(p);
    AltLast(e);
  }

  // Reading the pieces off a pattern.

  /** From `i`, neither a class nor an escape is left open. */
  predicate Whole(p: string, i: nat) {
    i <= |p| && LastFrom(p, i) != Opening
  }

  lemma ClassWhole(p: string, i: nat)
    requires i < |p| && Whole(p, i) && p[i] == '['
    ensures ClassEnd(p, i).Some? && Whole(p, ClassEnd(p, i).value)
  {
    BodyClose(p, i);
    assert LastFrom(p, i) == Then(Opening, LastFrom(p, i + 1));
    if ClassClose(p, i + 1).None? {
      ClassUnclosed(p, i + 1);
      assert false;
    }
    ClassSteps(p, i + 1);
  }

  lemma WholeNext(p: string, i: nat)
    requires i < |p| && Whole(p, i)
    ensures Whole(p, Next(p, i)) && (p[i] == '[' ==> ClassEnd(p, i).Some?)
  {
    if p[i] == '[' {
      ClassWhole(p, i);
    } else {
      assert Next(p, i) == Step(p, i);
      assert LastFrom(p, i) == Then(BracketAt(p, i), LastFrom(p, Step(p, i)));
    }
  }

  lemma {:induction false} CloseCut(p: string, i: nat, k: nat, e: nat)
    requires i <= k && ClassClose(p, k) == Some(e)
    ensures k < e <= |p| && ClassClose(p[i..e], k - i) == Some(e - i)
    decreases |p| - k
  {
    if p[k] != ']' {
      CloseCut(p, i, Step(p, k), e);
    }
  }

  lemma AtomRead(p: string, i: nat)
    requires i < |p| && Whole(p, i) && p[i] !in {'{', '}', ','}
    ensures i < Next(p, i) <= |p| && B.IsAtom(p[i..Next(p, i)])
  {
    WholeNext(p, i);
    if p[i] == '[' {
      CloseCut(p, i, ClassBody(p, i), Next(p, i));
    }
  }

  /** A group that closes inside others closes on its own, and the scan goes on after it. */
  lemma {:induction false} Nested(p: string, i: nat, depth: nat, outer: nat)
    requires depth > 0 && outer > 0 && Commas(p, i, depth + outer).Some?
    ensures Commas(p, i, depth).Some?
    ensures Commas(p, i, depth + outer) == Commas(p, Commas(p, i, depth).value.1 + 1, outer)
    decreases |p| - i
  {
    if p[i] == '{' {
      Nested(p, i + 1, depth + 1, outer);
    } else if p[i] == '}' {
      if depth > 1 {
        Nested(p, i + 1, depth - 1, outer);
      }
    } else {
      Nested(p, Next(p, i), depth, outer);
    }
  }

  lemma GroupWritten(p: string, i: nat, close: nat, end: nat, alts: B.Alts, after: B.Pieces)
    requires i < close < |p| && close < end <= |p| && p[i] == '{' && p[close] == '}'
    requires B.WriteAlts(alts) == p[i + 1..close] && B.Write(after) == p[close + 1..end]
    ensures B.Write(B.Group(alts, after)) == p[i..end]
  {
    assert "{" + p[i + 1..close] + "}" + p[close + 1..end] == p[i..end];
  }

  lemma TextWritten(p: string, i: nat, next: nat, end: nat, after: B.Pieces)
    requires i <= next <= end <= |p| && B.Write(after) == p[next..end]
    ensures B.Write(B.Text(p[i..next], after)) == p[i..end]
  {
    assert p[i..next] + p[next..end] == p[i..end];
  }

  /** The alternative from `i`, up to its comma or its group's `}`. */
  lemma {:induction false} ReadBody(p: string, i: nat) returns (ps: B.Pieces, end: nat)
    requires Whole(p, i) && Commas(p, i, 1).Some?
    ensures i <= end < |p| && p[end] in {',', '}'} && Whole(p, end)
    ensures B.Written(ps, true) && B.Write(ps) == p[i..end]
    ensures Commas(p, i, 1) == Commas(p, end, 1)
    decreases |p| - i, 0
  {
    if p[i] in {',', '}'} {
      ps, end := B.Nil, i;
    } else if p[i] == '{' {
      Nested(p, i + 1, 1, 1);
      var close := Commas(p, i + 1, 1).value.1;
      var alts := ReadAlts(p, i + 1);
      var after;
      after, end := ReadBody(p, close + 1);
      ps := B.Group(alts, after);
      GroupWritten(p, i, close, end, alts, after);
    } else {
      AtomRead(p, i);
      WholeNext(p, i);
      var after;
      after, end := ReadBody(p, Next(p, i));
      ps := B.Text(p[i..Next(p, i)], after);
      TextWritten(p, i, Next(p, i), end, after);
    }
  }

  lemma {:induction false} ReadAlts(p: string, i: nat) returns (alts: B.Alts)
    requires Whole(p, i) && Commas(p, i, 1).Some?
    ensures var close := Commas(p, i, 1).value.1;
            && i <= close < |p| && p[close] == '}' && Whole(p, close)
            && B.WrittenAlts(alts) && B.WriteAlts(alts) == p[i..close]
    decreases |p| - i, 1
  {
    var ps, end := ReadBody(p, i);
    if p[end] == '}' {
      alts := B.Final(ps);
    } else {
      var others := ReadAlts(p, end + 1);
      alts := B.More(ps, others);
      CommaSlice(p, i, end, Commas(p, i, 1).value.1);
    }
  }

  lemma CommaSlice(p: string, i: nat, comma: nat, close: nat)
    requires i <= comma < close <= |p| && p[comma] == ','
    ensures p[i..comma] + "," + p[comma + 1..close] == p[i..close]
  {
  }

  ghost predicate Reads(p: string, i: nat, ps: B.Pieces, end: nat) {
    i <= end <= |p| && B.Written(ps, false) && B.Write(ps) == p[i..end]
  }

  lemma GroupReads(p: string, i: nat, after: B.Pieces, end: nat) returns (ps: B.Pieces)
    requires i < |p| && Whole(p, i) && p[i] == '{' && Commas(p, i + 1, 1).Some?
    requires Reads(p, Commas(p, i + 1, 1).value.1 + 1, after, end)
    ensures Reads(p, i, ps, end)
  {
    var close := Commas(p, i + 1, 1).value.1;
    var alts := ReadAlts(p, i + 1);
    ps := B.Group(alts, after);
    GroupWritten(p, i, close, end, alts, after);
  }

  lemma TextReads(p: string, i: nat, after: B.Pieces, end: nat) returns (ps: B.Pieces)
    requires i < |p| && Whole(p, i) && p[i] != '{' && Reads(p, Next(p, i), after, end)
    ensures Reads(p, i, ps, end)
  {
    TextRead(p, i);
    ps := B.Text(p[i..Next(p, i)], after);
    TextWritten(p, i, Next(p, i), end, after);
  }

  lemma GroupWhole(p: string, i: nat)
    requires i < |p| && Whole(p, i) && p[i] == '{' && Commas(p, i + 1, 1).Some?
    ensures i < Commas(p, i + 1, 1).value.1 && Whole(p, Commas(p, i + 1, 1).value.1 + 1)
  {
    var close := Commas(p, i + 1, 1).value.1;
    BraceSteps(p, i + 1, 1);
    StepsOrdered(p, i + 1, close);
    CutFrom(p, i + 1, i + 1, close);
  }

  /** The pieces from `i`, up to the end or to a group that never closes. */
  lemma {:induction false} ReadPieces(p: string, i: nat) returns (ps: B.Pieces, end: nat)
    requires Whole(p, i)
    ensures Reads(p, i, ps, end)
    ensures end < |p| ==> p[end] == '{' && Commas(p, end + 1, 1).None?
    decreases |p| - i
  {
    if i == |p| || (p[i] == '{' && Commas(p, i + 1, 1).None?) {
      ps, end := B.Nil, i;
    } else if p[i] == '{' {
      GroupWhole(p, i);
      ps, end := ReadPieces(p, Commas(p, i + 1, 1).value.1 + 1);
      ps := GroupReads(p, i, ps, end);
    } else {
      TextRead(p, i);
      ps, end := ReadPieces(p, Next(p, i));
      ps := TextReads(p, i, ps, end);
    }
  }

  lemma TextRead(p: string, i: nat)
    requires i < |p| && Whole(p, i) && p[i] != '{'
    ensures i < Next(p, i) <= |p| && Whole(p, Next(p, i))
    ensures var a := p[i..Next(p, i)]; B.IsAtom(a) || a == "," || a == "}"
  {
    WholeNext(p, i);
    if p[i] !in {'{', '}', ','} {
      AtomRead(p, i);
    }
  }

  // A group that never closes is refused wherever it stands.

  predicate NeverCloses(rest: string) {
    rest != [] && rest[0] == '{' && Commas(rest, 1, 1).None?
  }

  lemma {:induction false} ClassShift(x: string, y: string, k: nat)
    ensures var (there, here) := (ClassClose(x + y, |x| + k), ClassClose(y, k));
            there.Some? == here.Some? && (here.Some? ==> there.value == |x| + here.value)
    decreases |y| - k
  {
    if k < |y| && y[k] != ']' {
      ClassShift(x, y, Step(y, k));
    }
  }

  lemma NextShift(x: string, y: string, k: nat)
    requires k < |y|
    ensures Next(x + y, |x| + k) == |x| + Next(y, k)
  {
    if y[k] == '[' {
      BodyClose(y, k);
      BodyClose(x + y, |x| + k);
      ClassShift(x, y, k + 1);
    }
  }

  lemma {:induction false} CommasShift(x: string, y: string, k: nat, depth: nat)
    requires depth > 0
    ensures Commas(x + y, |x| + k, depth).Some? == Commas(y, k, depth).Some?
    decreases |y| - k
  {
    if k < |y| {
      if y[k] == '{' {
        CommasShift(x, y, k + 1, depth + 1);
      } else if y[k] == '}' {
        if depth > 1 {
          CommasShift(x, y, k + 1, depth - 1);
        }
      } else {
        NextShift(x, y, k);
        CommasShift(x, y, Next(y, k), depth);
      }
    }
  }

  lemma StuckHere(head: B.Pieces, rest: string)
    requires B.Flat(head) && B.Written(head, false) && NeverCloses(rest)
    ensures Expand(B.Write(head) + rest).None?
  {
    B.AtSplitSelf(B.Write(head), rest);
    B.HeadPassed(head, B.Write(head) + rest);
    CommasShift(B.Write(head), rest, 1, 1);
  }

  lemma BodySize(alts: B.Alts)
    ensures B.Size(alts.body) <= B.AltsSize(alts)
  {
  }

  lemma {:induction false} StuckFrom(head: B.Pieces, ps: B.Pieces, rest: string)
    requires B.Flat(head) && B.Written(head, false) && B.Written(ps, false) && NeverCloses(rest)
    ensures Expand(B.Write(head) + (B.Write(ps) + rest)).None?
    decreases B.Size(ps), 1, ps
  {
    var h := B.Write(head);
    match ps
    case Nil =>
      T.Unit(rest);
      StuckHere(head, rest);
    case Text(a, after) =>
      B.TextMoved(head, a);
      T.Assoc(a, B.Write(after), rest);
      T.Assoc(h, a, B.Write(after) + rest);
      StuckFrom(B.Append(head, B.Text(a, B.Nil)), after, rest);
    case Group(alts, after) =>
      BodySize(alts);
      FirstStuck(head, alts.body, after, rest);
      GroupStuck(head, alts, B.Write(after) + rest);
      T.Assoc("{" + B.WriteAlts(alts) + "}", B.Write(after), rest);
  }

  lemma {:induction false} FirstStuck(head: B.Pieces, body: B.Pieces, after: B.Pieces, rest: string)
    requires B.Flat(head) && B.Written(head, false) && NeverCloses(rest)
    requires B.Written(body, true) && B.Written(after, false)
    ensures Expand(B.Write(head) + B.Write(body) + (B.Write(after) + rest)).None?
    decreases B.Size(body) + B.Size(after), 2
  {
    B.WriteAppend(body, after);
    B.WrittenAppend(body, after, true);
    B.SizeAppend(body, after);
    T.Assoc(B.Write(head), B.Write(body), B.Write(after) + rest);
    T.Assoc(B.Write(body), B.Write(after), rest);
    StuckFrom(head, B.Append(body, after), rest);
  }

  lemma GroupStuck(head: B.Pieces, alts: B.Alts, tail: string)
    requires B.Flat(head) && B.Written(head, false) && B.WrittenAlts(alts)
    requires Expand(B.Write(head) + B.Write(alts.body) + tail).None?
    ensures Expand(B.Write(head) + ("{" + B.WriteAlts(alts) + "}" + tail)).None?
  {
    var h := B.Write(head);
    var p := h + ("{" + B.WriteAlts(alts) + "}" + tail);
    B.OpenFound(head, B.WriteAlts(alts), tail, p);
    B.GroupFoundIn(h, alts, tail, p);
    B.ExpandRound(p, B.Replaced(alts, h, tail));
  }

  // Which patterns are written ones.

  /** A pattern that expands, with no class and no escape left open, is written from pieces. */
  lemma WholeRead(p: string) returns (ps: B.Pieces)
    requires Expand(p).Some? && Last(p) != Opening
    ensures B.Written(ps, false) && B.Write(ps) == p
  {
    var end;
    ps, end := ReadPieces(p, 0);
    assert p[0..end] == p[..end];
    if end < |p| {
      CommasShift(p[..end], p[end..], 1, 1);
      assert p[..end] + p[end..] == p;
      StuckFrom(B.Nil, ps, p[end..]);
      T.Unit(p);
      assert false;
    }
  }

  lemma AtomLast(a: string)
    requires B.IsAtom(a)
    ensures Last(a) != Opening
  {
    if a[0] == '[' {
      BodyClose(a, 0);
      ClassSteps(a, 1);
    } else {
      assert LastFrom(a, |a|) == Neither;
    }
  }

  lemma OneLast(c: char)
    requires c !in {'[', '\\'}
    ensures Last([c]) != Opening
  {
    assert LastFrom([c], 1) == Neither;
  }

  lemma JoinedLast(x: string, y: string)
    requires Last(x) != Opening && Last(y) != Opening
    ensures Last(x + y) != Opening
  {
    NotOpeningEven(x, 0);
    LastPlus(x, y);
  }

  lemma {:induction false} PiecesLast(ps: B.Pieces, nested: bool)
    requires B.Written(ps, nested)
    ensures Last(B.Write(ps)) != Opening
    decreases ps
  {
    match ps
    case Nil =>
    case Text(a, after) =>
      if B.IsAtom(a) {
        AtomLast(a);
      } else {
        OneLast(a[0]);
      }
      PiecesLast(after, nested);
      JoinedLast(a, B.Write(after));
    case Group(alts, after) =>
      AltsLast(alts);
      OneLast('{');
      OneLast('}');
      PiecesLast(after, nested);
      JoinedLast("{", B.WriteAlts(alts));
      JoinedLast("{" + B.WriteAlts(alts), "}");
      JoinedLast("{" + B.WriteAlts(alts) + "}", B.Write(after));
  }

  lemma {:induction false} AltsLast(alts: B.Alts)
    requires B.WrittenAlts(alts)
    ensures Last(B.WriteAlts(alts)) != Opening
    decreases alts
  {
    PiecesLast(alts.body, true);
    if alts.More? {
      AltsLast(alts.others);
      OneLast(',');
      JoinedLast(B.Write(alts.body), ",");
      JoinedLast(B.Write(alts.body) + ",", B.WriteAlts(alts.others));
    }
  }

  /** The patterns written from texts and groups are exactly those whose groups all close and whose
      last unescaped bracket, if any, closes a class, no escape being left without its character. */
  lemma WrittenIff(p: string)
    ensures (exists ps :: B.Written(ps, false) && B.Write(ps) == p)
            <==> Expand(p).Some? && Last(p) != Opening
  {
    if Expand(p).Some? && Last(p) != Opening {
      var ps := WholeRead(p);
    }
    forall ps | B.Written(ps, false) && B.Write(ps) == p
      ensures Expand(p).Some? && Last(p) != Opening
    {
      B.ExpandIsChoices(ps);
      PiecesLast(ps, false);
    }
  }

  /** Every pattern that compiles is a written one, and compiles to its choices. */
  lemma CompiledIsWritten(p: string)
    requires Compile(p).Some?
    ensures exists ps :: && B.Written(ps, false) && B.Write(ps) == p
                         && Compile(p) == Traverse(CompileAlt, B.Choices(ps))
  {
    CompiledLast(p);
    var ps := WholeRead(p);
    B.ExpandIsChoices(ps);
  }
}
