/** What brace expansion computes, independently of how it scans: a pattern written from a tree of
    texts and groups expands to every way of choosing one alternative per group, in order. */
module BraceMeaning {
  import T = Text
  import opened Wrappers
  import opened GlobTokens
  import opened GlobBraces

  /** A pattern with its groups laid open. */
  datatype Pieces = Nil | Text(atom: string, after: Pieces) | Group(alts: Alts, after: Pieces)
  datatype Alts = Final(body: Pieces) | More(body: Pieces, others: Alts)

  /** Text the scanner passes in one go and takes for no part of a group: a plain character, an
      escaped one, or a closed class. */
  predicate IsAtom(a: string) {
    && |a| > 0
    && a[0] !in {'{', '}', ','}
    && Next(a, 0) == |a|
    && (a[0] == '[' ==> ClassEnd(a, 0).Some?)
  }

  /** `nested` pieces stand inside a group; outside, a `,` or a `}` is text too. */
  predicate Written(ps: Pieces, nested: bool) {
    match ps
    case Nil => true
    case Text(a, after) =>
      (IsAtom(a) || (!nested && (a == "," || a == "}"))) && Written(after, nested)
    case Group(alts, after) => WrittenAlts(alts) && Written(after, nested)
  }

  predicate WrittenAlts(alts: Alts) {
    match alts
    case Final(body) => Written(body, true)
    case More(body, others) => Written(body, true) && WrittenAlts(others)
  }

  function Write(ps: Pieces): string {
    match ps
    case Nil => []
    case Text(a, after) => a + Write(after)
    case Group(alts, after) => "{" + WriteAlts(alts) + "}" + Write(after)
  }

  function WriteAlts(alts: Alts): string {
    match alts
    case Final(body) => Write(body)
    case More(body, others) => Write(body) + "," + WriteAlts(others)
  }

  /** Each of `xs` followed by each of `ys`, in order. */
  function Cross(xs: seq<string>, ys: seq<string>): seq<string> {
    if xs == [] then [] else Prefixed(xs[0], ys) + Cross(xs[1..], ys)
  }

  function Prefixed(x: string, ys: seq<string>): seq<string> {
    if ys == [] then [] else [x + ys[0]] + Prefixed(x, ys[1..])
  }

  /** Every choice of one alternative per group, in order. */
  function Choices(ps: Pieces): seq<string> {
    match ps
    case Nil => [[]]
    case Text(a, after) => Cross([a], Choices(after))
    case Group(alts, after) => Cross(AltChoices(alts), Choices(after))
  }

  function AltChoices(alts: Alts): seq<string> {
    match alts
    case Final(body) => Choices(body)
    case More(body, others) => Choices(body) + AltChoices(others)
  }

  // Algebra of concatenation and of Cross.

  function Append(ps: Pieces, qs: Pieces): Pieces {
    match ps
    case Nil => qs
    case Text(a, after) => Text(a, Append(after, qs))
    case Group(alts, after) => Group(alts, Append(after, qs))
  }

  lemma {:induction false} WriteAppend(ps: Pieces, qs: Pieces)
    ensures Write(Append(ps, qs)) == Write(ps) + Write(qs)
  {
    match ps
    case Nil => T.Unit(Write(qs));
    case Text(a, after) =>
      WriteAppend(after, qs);
      T.Assoc(a, Write(after), Write(qs));
    case Group(alts, after) =>
      WriteAppend(after, qs);
      T.Assoc("{" + WriteAlts(alts) + "}", Write(after), Write(qs));
  }

  lemma {:induction false} WrittenAppend(ps: Pieces, qs: Pieces, nested: bool)
    requires Written(ps, nested) && Written(qs, false)
    ensures Written(Append(ps, qs), false)
  {
    match ps
    case Nil =>
    case Text(_, after) => WrittenAppend(after, qs, nested);
    case Group(_, after) => WrittenAppend(after, qs, nested);
  }

  lemma {:induction false} CrossPlus(xs: seq<string>, ys: seq<string>, zs: seq<string>)
    ensures Cross(xs + ys, zs) == Cross(xs, zs) + Cross(ys, zs)
  {
    if xs == [] {
      T.Unit(ys);
      T.Unit(Cross(ys, zs));
    } else {
      CrossPlus(xs[1..], ys, zs);
      T.TailPlus(xs, ys);
      T.Assoc(Prefixed(xs[0], zs), Cross(xs[1..], zs), Cross(ys, zs));
    }
  }

  lemma CrossOne(x: string, ys: seq<string>)
    ensures Cross([x], ys) == Prefixed(x, ys)
  {
    assert Cross([x][1..], ys) == [];
    T.Unit(Prefixed(x, ys));
  }

  lemma {:induction false} CrossUnit(xs: seq<string>)
    ensures Cross([[]], xs) == xs
  {
    CrossOne([], xs);
    if xs != [] {
      CrossUnit(xs[1..]);
      CrossOne([], xs[1..]);
      T.Unit(xs[0]);
      T.HeadTail(xs);
    }
  }

  lemma {:induction false} PrefixedPlus(x: string, ys: seq<string>, zs: seq<string>)
    ensures Prefixed(x, ys + zs) == Prefixed(x, ys) + Prefixed(x, zs)
  {
    if ys == [] {
      T.Unit(zs);
      T.Unit(Prefixed(x, zs));
    } else {
      PrefixedPlus(x, ys[1..], zs);
      T.TailPlus(ys, zs);
      T.Assoc([x + ys[0]], Prefixed(x, ys[1..]), Prefixed(x, zs));
    }
  }

  lemma CrossOnePlus(x: string, ys: seq<string>, zs: seq<string>)
    ensures Cross([x], ys + zs) == Cross([x], ys) + Cross([x], zs)
  {
    CrossOne(x, ys);
    CrossOne(x, zs);
    CrossOne(x, ys + zs);
    PrefixedPlus(x, ys, zs);
  }

  lemma {:induction false} PrefixedTwice(x: string, y: string, zs: seq<string>)
    ensures Prefixed(x, Prefixed(y, zs)) == Prefixed(x + y, zs)
  {
    if zs != [] {
      PrefixedTwice(x, y, zs[1..]);
      T.Assoc(x, y, zs[0]);
    }
  }

  lemma CrossOneOne(x: string, y: string, zs: seq<string>)
    ensures Cross([x], Cross([y], zs)) == Cross([x + y], zs)
  {
    CrossOne(y, zs);
    CrossOne(x, Prefixed(y, zs));
    CrossOne(x + y, zs);
    PrefixedTwice(x, y, zs);
  }

  lemma {:induction false} PrefixedCross(x: string, ys: seq<string>, zs: seq<string>)
    ensures Prefixed(x, Cross(ys, zs)) == Cross(Prefixed(x, ys), zs)
  {
    if ys != [] {
      PrefixedPlus(x, Prefixed(ys[0], zs), Cross(ys[1..], zs));
      PrefixedTwice(x, ys[0], zs);
      PrefixedCross(x, ys[1..], zs);
    }
  }

  lemma {:induction false} CrossAssoc(xs: seq<string>, ys: seq<string>, zs: seq<string>)
    ensures Cross(xs, Cross(ys, zs)) == Cross(Cross(xs, ys), zs)
  {
    if xs != [] {
      CrossPlus(Prefixed(xs[0], ys), Cross(xs[1..], ys), zs);
      PrefixedCross(xs[0], ys, zs);
      CrossAssoc(xs[1..], ys, zs);
    }
  }

  lemma {:induction false} ChoicesAppend(ps: Pieces, qs: Pieces)
    ensures Choices(Append(ps, qs)) == Cross(Choices(ps), Choices(qs))
  {
    match ps
    case Nil => CrossUnit(Choices(qs));
    case Text(a, after) =>
      ChoicesAppend(after, qs);
      CrossAssoc([a], Choices(after), Choices(qs));
    case Group(alts, after) =>
      ChoicesAppend(after, qs);
      CrossAssoc(AltChoices(alts), Choices(after), Choices(qs));
  }

  // The scanner over written pieces.

  lemma {:induction false} ClassCloseLocal(p: string, i: nat, a: string, k: nat)
    requires At(p, i, a) && ClassClose(a, k).Some?
    ensures ClassClose(p, i + k) == Some(i + ClassClose(a, k).value)
    decreases |a| - k
  {
    AtIndex(p, i, a, k);
    if a[k] == '\\' {
      ClassCloseLocal(p, i, a, k + 2);
    } else if a[k] != ']' {
      ClassCloseLocal(p, i, a, k + 1);
    }
  }

  /** The scanner passes an atom in one go wherever it stands. */
  lemma AtomPassed(p: string, i: nat, a: string)
    requires IsAtom(a) && At(p, i, a)
    ensures i < |p| && p[i] == a[0] && Next(p, i) == i + |a|
  {
    AtIndex(p, i, a, 0);
    if a[0] == '[' {
      AtIndex(p, i, a, 1);
      ClassCloseLocal(p, i, a, ClassBody(a, 0));
    }
  }

  lemma CommasAtom(p: string, i: nat, a: string, depth: nat)
    requires depth > 0 && IsAtom(a) && At(p, i, a)
    ensures Commas(p, i, depth) == Commas(p, i + |a|, depth)
  {
    AtomPassed(p, i, a);
  }

  /** Inside a group, pieces hold no comma of that group and close none of its braces. */
  lemma {:induction false} PiecesPassed(p: string, i: nat, ps: Pieces, depth: nat)
    requires depth > 0 && Written(ps, true) && At(p, i, Write(ps))
    ensures Commas(p, i, depth) == Commas(p, i + |Write(ps)|, depth)
    decreases ps, 0
  {
    match ps
    case Nil =>
    case Text(a, after) =>
      AtSplit(p, i, a, Write(after));
      CommasAtom(p, i, a, depth);
      PiecesPassed(p, i + |a|, after, depth);
    case Group(alts, after) =>
      var body := WriteAlts(alts);
      AtGroup(p, i, body, Write(after));
      GroupPassed(p, i, alts, depth);
      PiecesPassed(p, i + |body| + 2, after, depth);
  }

  lemma {:induction false} GroupPassed(p: string, i: nat, alts: Alts, depth: nat)
    requires depth > 0 && WrittenAlts(alts) && At(p, i + 1, WriteAlts(alts))
    requires i + |WriteAlts(alts)| + 1 < |p| && p[i] == '{' && p[i + |WriteAlts(alts)| + 1] == '}'
    ensures Commas(p, i, depth) == Commas(p, i + |WriteAlts(alts)| + 2, depth)
    decreases alts, 1
  {
    AltsPassed(p, i + 1, alts, depth + 1);
  }

  lemma AtGroup(p: string, i: nat, body: string, after: string)
    requires At(p, i, "{" + body + "}" + after)
    ensures i + |body| + 1 < |p| && p[i] == '{' && p[i + |body| + 1] == '}'
    ensures At(p, i + 1, body) && At(p, i + 1, body + "}") && At(p, i + |body| + 2, after)
  {
    T.Assoc("{", body, "}");
    T.Assoc("{", body + "}", after);
    AtSplit(p, i, "{", body + "}" + after);
    AtSplit(p, i + 1, body + "}", after);
    AtSplit(p, i + 1, body, "}");
    AtIndex(p, i, "{", 0);
    AtIndex(p, i + 1 + |body|, "}", 0);
  }

  lemma {:induction false} AltsPassed(p: string, i: nat, alts: Alts, depth: nat)
    requires depth > 1 && WrittenAlts(alts) && At(p, i, WriteAlts(alts))
    ensures Commas(p, i, depth) == Commas(p, i + |WriteAlts(alts)|, depth)
    decreases alts, 0
  {
    match alts
    case Final(body) => PiecesPassed(p, i, body, depth);
    case More(body, others) =>
      AtMore(p, i, Write(body), WriteAlts(others));
      PiecesPassed(p, i, body, depth);
      AltsPassed(p, i + |Write(body)| + 1, others, depth);
  }

  lemma AtMore(p: string, i: nat, body: string, others: string)
    requires At(p, i, body + "," + others)
    ensures i + |body| < |p| && p[i + |body|] == ','
    ensures At(p, i, body) && At(p, i + |body| + 1, others)
  {
    AtSplit(p, i, body + ",", others);
    AtSplit(p, i, body, ",");
    AtIndex(p, i + |body|, ",", 0);
  }

  /** The candidates of a written group: its alternatives, each between `head` and `tail`. */
  function Replaced(alts: Alts, head: string, tail: string): seq<string> {
    match alts
    case Final(body) => [head + Write(body) + tail]
    case More(body, others) => [head + Write(body) + tail] + Replaced(others, head, tail)
  }

  /** The scan of a group from `from` finds `close` and the candidates `cands`. */
  ghost predicate Scans(p: string, from: nat, head: string, tail: string, close: nat,
                        cands: seq<string>)
  {
    var found := Commas(p, from, 1);
    && found.Some? && found.value.1 == close
    && Candidates(p, head, tail, from, found.value.0, found.value.1) == cands
  }

  lemma ScansFinal(p: string, from: nat, head: string, tail: string, body: string)
    requires At(p, from, body) && from + |body| < |p| && p[from + |body|] == '}'
    requires Commas(p, from, 1) == Commas(p, from + |body|, 1)
    ensures Scans(p, from, head, tail, from + |body|, [head + body + tail])
  {
    assert Commas(p, from, 1) == Some(([], from + |body|));
    AtSlice(p, from, body);
  }

  lemma CandidatesUnfold(p: string, head: string, tail: string, from: nat, commas: seq<nat>, close: nat)
    requires commas != [] && Ordered(from, commas, close) && close < |p|
    ensures from <= commas[0] < |p| && Ordered(commas[0] + 1, commas[1..], close)
    ensures Candidates(p, head, tail, from, commas, close)
            == [head + p[from..commas[0]] + tail]
               + Candidates(p, head, tail, commas[0] + 1, commas[1..], close)
  {
    OrderedBounds(from, commas, close);
  }

  lemma CandidatesFrom(p: string, head: string, tail: string, from: nat, commas: seq<nat>,
                       from': nat, commas': seq<nat>, close: nat)
    requires from == from' && commas == commas' && Ordered(from, commas, close) && close < |p|
    ensures Candidates(p, head, tail, from, commas, close) == Candidates(p, head, tail, from', commas', close)
  {
  }

  lemma OneMore(all: seq<string>, h: string, x: string, y: string, t: string, a: seq<string>,
                b: seq<string>)
    requires all == [h + x + t] + a && x == y && a == b
    ensures all == [h + y + t] + b
  {
  }

  lemma CandidatesMore(p: string, from: nat, comma: nat, head: string, tail: string, body: string,
                       all: seq<nat>, commas: seq<nat>, close: nat)
    requires from <= comma < |p| && p[from..comma] == body
    requires Ordered(comma + 1, commas, close) && close < |p|
    requires all != [] && all[0] == comma && all[1..] == commas
    ensures Ordered(from, all, close)
    ensures Candidates(p, head, tail, from, all, close)
            == [head + body + tail] + Candidates(p, head, tail, comma + 1, commas, close)
  {
    CandidatesUnfold(p, head, tail, from, all, close);
    CandidatesFrom(p, head, tail, all[0] + 1, all[1..], comma + 1, commas, close);
    OneMore(Candidates(p, head, tail, from, all, close), head, p[from..all[0]], body, tail,
            Candidates(p, head, tail, all[0] + 1, all[1..], close),
            Candidates(p, head, tail, comma + 1, commas, close));
  }

  lemma ScansMore(p: string, from: nat, head: string, tail: string, body: string, close: nat,
                  cands: seq<string>)
    requires At(p, from, body) && from + |body| < |p| && p[from + |body|] == ','
    requires Commas(p, from, 1) == Commas(p, from + |body|, 1)
    requires Scans(p, from + |body| + 1, head, tail, close, cands)
    ensures Scans(p, from, head, tail, close, [head + body + tail] + cands)
  {
    var comma := from + |body|;
    var rest := Commas(p, comma + 1, 1).value;
    assert Commas(p, from, 1) == Some(([comma] + rest.0, rest.1));
    assert ([comma] + rest.0)[1..] == rest.0;
    AtSlice(p, from, body);
    CandidatesMore(p, from, comma, head, tail, body, [comma] + rest.0, rest.0, rest.1);
  }

  lemma FinalScanned(p: string, from: nat, ps: Pieces, head: string, tail: string)
    requires Written(ps, true) && At(p, from, Write(ps)) && At(p, from + |Write(ps)|, "}")
    ensures Scans(p, from, head, tail, from + |Write(ps)|, [head + Write(ps) + tail])
  {
    PiecesPassed(p, from, ps, 1);
    AtIndex(p, from + |Write(ps)|, "}", 0);
    ScansFinal(p, from, head, tail, Write(ps));
  }

  lemma MoreScanned(p: string, from: nat, ps: Pieces, head: string, tail: string, close: nat,
                    cands: seq<string>)
    requires Written(ps, true) && At(p, from, Write(ps)) && At(p, from + |Write(ps)|, ",")
    requires Scans(p, from + |Write(ps)| + 1, head, tail, close, cands)
    ensures Scans(p, from, head, tail, close, [head + Write(ps) + tail] + cands)
  {
    PiecesPassed(p, from, ps, 1);
    AtIndex(p, from + |Write(ps)|, ",", 0);
    ScansMore(p, from, head, tail, Write(ps), close, cands);
  }

  lemma {:induction false} GroupScanned(p: string, from: nat, alts: Alts, head: string, tail: string)
    requires WrittenAlts(alts) && At(p, from, WriteAlts(alts) + "}")
    ensures Scans(p, from, head, tail, from + |WriteAlts(alts)|, Replaced(alts, head, tail))
    decreases alts
  {
    var body := Write(alts.body);
    match alts
    case Final(_) =>
      AtSplit(p, from, body, "}");
      FinalScanned(p, from, alts.body, head, tail);
    case More(_, others) =>
      T.Assoc(body + ",", WriteAlts(others), "}");
      AtSplit(p, from, body + ",", WriteAlts(others) + "}");
      AtSplit(p, from, body, ",");
      GroupScanned(p, from + |body| + 1, others, head, tail);
      MoreScanned(p, from, alts.body, head, tail, from + |WriteAlts(alts)|, Replaced(others, head, tail));
  }

  // Outside any group.

  ghost predicate Flat(ps: Pieces) {
    match ps
    case Nil => true
    case Text(_, after) => Flat(after)
    case Group(_, _) => false
  }

  lemma TextPassed(p: string, i: nat, a: string)
    requires (IsAtom(a) || a == "," || a == "}") && At(p, i, a)
    ensures FindOpen(p, i) == FindOpen(p, i + |a|)
  {
    if IsAtom(a) {
      AtomPassed(p, i, a);
    } else {
      AtIndex(p, i, a, 0);
    }
  }

  lemma {:induction false} FlatPassed(p: string, i: nat, ps: Pieces)
    requires Flat(ps) && Written(ps, false) && At(p, i, Write(ps))
    ensures FindOpen(p, i) == FindOpen(p, i + |Write(ps)|)
    decreases ps
  {
    if ps.Text? {
      AtSplit(p, i, ps.atom, Write(ps.after));
      TextPassed(p, i, ps.atom);
      FlatPassed(p, i + |ps.atom|, ps.after);
    }
  }

  ghost function Size(ps: Pieces): nat {
    match ps
    case Nil => 0
    case Text(_, after) => 1 + Size(after)
    case Group(alts, after) => 1 + AltsSize(alts) + Size(after)
  }

  ghost function AltsSize(alts: Alts): nat {
    match alts
    case Final(body) => Size(body)
    case More(body, others) => Size(body) + AltsSize(others)
  }

  lemma {:induction false} SizeAppend(ps: Pieces, qs: Pieces)
    ensures Size(Append(ps, qs)) == Size(ps) + Size(qs)
  {
    match ps
    case Nil =>
    case Text(_, after) => SizeAppend(after, qs);
    case Group(_, after) => SizeAppend(after, qs);
  }

  lemma {:induction false} FlatAppend(ps: Pieces, qs: Pieces)
    requires Flat(ps) && Flat(qs)
    ensures Flat(Append(ps, qs))
  {
    if ps.Text? {
      FlatAppend(ps.after, qs);
    }
  }

  lemma AtSplitSelf(x: string, y: string)
    ensures At(x + y, 0, x) && At(x + y, |x|, y)
  {
    AtHere([], x, y);
    T.Unit(x);
    AtHere(x, y, []);
    T.Unit(x + y);
  }

  lemma Around(h: string, body: string, t: string, p: string)
    requires p == h + ("{" + body + "}" + t)
    ensures |h| + 2 + |body| <= |p| && h == p[..|h|] && t == p[|h| + 2 + |body|..]
  {
    T.Assoc(h, "{" + body + "}", t);
    Cut(h, "{" + body + "}" + t);
    Cut(h + ("{" + body + "}"), t);
  }

  lemma Cut(x: string, y: string)
    ensures (x + y)[..|x|] == x && (x + y)[|x|..] == y
  {
  }

  lemma {:induction false} ExpandFrom(head: Pieces, ps: Pieces)
    requires Flat(head) && Written(head, false) && Written(ps, false)
    ensures Expand(Write(head) + Write(ps)) == Some(Cross([Write(head)], Choices(ps)))
    decreases Size(ps), 1, ps
  {
    var h := Write(head);
    match ps
    case Nil =>
      T.Unit(h);
      ExpandFlat(head, h);
      CrossEmpty(h);
    case Text(a, after) =>
      var head' := Append(head, Text(a, Nil));
      TextMoved(head, a);
      T.Assoc(h, a, Write(after));
      ExpandFrom(head', after);
      CrossOneOne(h, a, Choices(after));
    case Group(alts, after) =>
      var p := h + Write(ps);
      GroupFound(head, alts, after, p);
      ExpandRound(p, Replaced(alts, h, Write(after)));
      ExpandReplaced(head, alts, after, |p|);
  }

  lemma ExpandPlain(p: string)
    requires FindOpen(p, 0).None?
    ensures Expand(p) == Some([p])
  {
  }

  lemma CrossEmpty(h: string)
    ensures Cross([h], [[]]) == [h]
  {
    CrossOne(h, [[]]);
    T.Unit(h);
    assert Prefixed(h, [[]][1..]) == [];
  }

  lemma ExpandFlat(head: Pieces, p: string)
    requires Flat(head) && Written(head, false) && p == Write(head)
    ensures Expand(p) == Some([p])
  {
    AtSelf(p);
    FlatPassed(p, 0, head);
    ExpandPlain(p);
  }

  lemma TextMoved(head: Pieces, a: string)
    requires Flat(head) && Written(head, false) && Written(Text(a, Nil), false)
    ensures var head' := Append(head, Text(a, Nil));
            Flat(head') && Written(head', false) && Write(head') == Write(head) + a
  {
    WriteAppend(head, Text(a, Nil));
    FlatAppend(head, Text(a, Nil));
    WrittenAppend(head, Text(a, Nil), false);
    assert Write(Text(a, Nil)) == a;
  }

  lemma OpenFound(head: Pieces, body: string, t: string, p: string)
    requires Flat(head) && Written(head, false)
    requires p == Write(head) + ("{" + body + "}" + t)
    ensures FindOpen(p, 0) == Some(|Write(head)|) && At(p, |Write(head)| + 1, body + "}")
  {
    var h := Write(head);
    AtSplitSelf(h, "{" + body + "}" + t);
    AtGroup(p, |h|, body, t);
    HeadPassed(head, p);
  }

  lemma HeadPassed(head: Pieces, p: string)
    requires Flat(head) && Written(head, false) && At(p, 0, Write(head))
    requires |Write(head)| < |p| && p[|Write(head)|] == '{'
    ensures FindOpen(p, 0) == Some(|Write(head)|)
  {
    FlatPassed(p, 0, head);
  }

  lemma GroupFound(head: Pieces, alts: Alts, after: Pieces, p: string)
    requires Flat(head) && Written(head, false) && WrittenAlts(alts)
    requires p == Write(head) + Write(Group(alts, after))
    ensures Open(p) == Replace(Replaced(alts, Write(head), Write(after)))
  {
    OpenFound(head, WriteAlts(alts), Write(after), p);
    GroupFoundIn(Write(head), alts, Write(after), p);
  }

  lemma GroupFoundIn(h: string, alts: Alts, t: string, p: string)
    requires WrittenAlts(alts) && p == h + ("{" + WriteAlts(alts) + "}" + t)
    requires FindOpen(p, 0) == Some(|h|) && At(p, |h| + 1, WriteAlts(alts) + "}")
    ensures Open(p) == Replace(Replaced(alts, h, t))
  {
    var end := |h| + 2 + |WriteAlts(alts)|;
    Around(h, WriteAlts(alts), t, p);
    GroupReplaced(p, |h|, end, alts);
    OpenSame(Open(p), alts, p[..|h|], p[end..], h, t);
  }

  lemma OpenSame(r: Round, alts: Alts, h: string, t: string, h': string, t': string)
    requires r == Replace(Replaced(alts, h, t)) && h == h' && t == t'
    ensures r == Replace(Replaced(alts, h', t'))
  {
  }

  lemma GroupReplaced(p: string, o: nat, end: nat, alts: Alts)
    requires WrittenAlts(alts) && FindOpen(p, 0) == Some(o) && At(p, o + 1, WriteAlts(alts) + "}")
    requires end == o + 2 + |WriteAlts(alts)| && end <= |p|
    ensures Open(p) == Replace(Replaced(alts, p[..o], p[end..]))
  {
    GroupScanned(p, o + 1, alts, p[..o], p[end..]);
    OpenScans(p, o, end, Replaced(alts, p[..o], p[end..]));
  }

  lemma OpenScans(p: string, o: nat, end: nat, cands: seq<string>)
    requires FindOpen(p, 0) == Some(o) && o + 1 < end <= |p|
    requires Scans(p, o + 1, p[..o], p[end..], end - 1, cands)
    ensures Open(p) == Replace(cands)
  {
  }

  lemma ExpandRound(p: string, cands: seq<string>)
    requires Open(p) == Replace(cands)
    ensures (forall c <- cands :: |c| < |p|) && Expand(p) == ExpandAll(cands, |p|)
  {
    OpenShortens(p);
  }

  lemma ExpandAllCons(cands: seq<string>, size: nat, first: seq<string>, rest: seq<string>)
    requires cands != [] && forall c <- cands :: |c| < size
    requires Expand(cands[0]) == Some(first)
    requires ExpandAll(cands[1..], size) == Some(rest)
    ensures ExpandAll(cands, size) == Some(first + rest)
  {
  }

  lemma {:induction false} ExpandOne(head: Pieces, body: Pieces, after: Pieces)
    requires Flat(head) && Written(head, false) && Written(body, true) && Written(after, false)
    ensures Expand(Write(head) + Write(body) + Write(after))
            == Some(Cross([Write(head)], Cross(Choices(body), Choices(after))))
    decreases Size(body) + Size(after), 2
  {
    var whole := Append(body, after);
    WriteAppend(body, after);
    WrittenAppend(body, after, true);
    SizeAppend(body, after);
    ChoicesAppend(body, after);
    T.Assoc(Write(head), Write(body), Write(after));
    ExpandFrom(head, whole);
  }

  lemma {:induction false} ExpandReplaced(head: Pieces, alts: Alts, after: Pieces, size: nat)
    requires Flat(head) && Written(head, false) && WrittenAlts(alts) && Written(after, false)
    requires forall c <- Replaced(alts, Write(head), Write(after)) :: |c| < size
    ensures ExpandAll(Replaced(alts, Write(head), Write(after)), size)
            == Some(Cross([Write(head)], Cross(AltChoices(alts), Choices(after))))
    decreases AltsSize(alts) + Size(after), 3, alts
  {
    var h, t, c := Write(head), Write(after), Choices(after);
    var cands := Replaced(alts, h, t);
    var first := Cross([h], Cross(Choices(alts.body), c));
    ExpandOne(head, alts.body, after);
    match alts
    case Final(_) =>
      assert cands[1..] == [];
      ExpandAllCons(cands, size, first, []);
      T.Unit(first);
    case More(body, others) =>
      assert cands[1..] == Replaced(others, h, t);
      ExpandReplaced(head, others, after, size);
      ExpandAllCons(cands, size, first, Cross([h], Cross(AltChoices(others), c)));
      CrossPlus(Choices(body), AltChoices(others), c);
      CrossOnePlus(h, Cross(Choices(body), c), Cross(AltChoices(others), c));
  }

  /** Expanding a written pattern yields every choice of one alternative per group, in order and
      however deeply the groups nest. */
  lemma ExpandIsChoices(ps: Pieces)
    requires Written(ps, false)
    ensures Expand(Write(ps)) == Some(Choices(ps))
  {
    ExpandFrom(Nil, ps);
    assert [] + Write(ps) == Write(ps);
    CrossUnit(Choices(ps));
  }
}
