/** What the patterns mean, said without the matchers: the meaning of each token and segment alone, and of
    two patterns one after the other. Together these laws leave no choice for any pattern. */
module GlobMeaning {
  import T = Text
  import opened Wrappers
  import opened Wildcard
  import opened GlobMatch
  import opened GlobTokens
  import opened GlobBraces
  import opened GlobPattern
  import B = BraceMeaning
  import L = GlobLiteral

  // One pattern after another.

  lemma {:induction false} MatchesShift<P(!new), S(!new)>(wild: P -> bool, one: (P, S) -> bool,
                                                          p: seq<P>, q: seq<P>, i: nat, s: seq<S>, j: nat, k: nat)
    requires i <= |q| && j <= |s| && k <= j
    ensures Matches(wild, one, p + q, |p| + i, s, j) <==> Matches(wild, one, q, i, s[k..], j - k)
    decreases |q| - i
  {
    if i < |q| {
      var (rest, next, tail) := (p + q, |p| + i + 1, s[k..]);
      assert rest[|p| + i] == q[i];
      if wild(q[i]) {
        if m: nat :| j <= m <= |s| && Matches(wild, one, rest, next, s, m) {
          MatchesShift(wild, one, p, q, i + 1, s, m, k);
        }
        var after := i + 1;
        if m: nat :| j - k <= m <= |tail| && Matches(wild, one, q, after, tail, m) {
          MatchesShift(wild, one, p, q, after, s, m + k, k);
          assert Matches(wild, one, rest, next, s, m + k);
        }
      } else if j < |s| {
        assert tail[j - k] == s[j];
        MatchesShift(wild, one, p, q, i + 1, s, j + 1, k);
      }
    }
  }

  /** `p[i..]` takes the inputs from `j` to `k`, and `q` the rest. */
  ghost predicate Splits<P(!new), S(!new)>(wild: P -> bool, one: (P, S) -> bool, p: seq<P>, i: nat, q: seq<P>,
                                           s: seq<S>, j: nat, k: nat)
    requires i <= |p| && j <= |s|
  {
    j <= k <= |s| && Matches(wild, one, p, i, s[..k], j) && Matches(wild, one, q, 0, s[k..], 0)
  }

  lemma {:induction false} MatchesSplit<P(!new), S(!new)>(wild: P -> bool, one: (P, S) -> bool,
                                                          p: seq<P>, i: nat, q: seq<P>, s: seq<S>, j: nat)
    requires i <= |p| && j <= |s|
    ensures Matches(wild, one, p + q, i, s, j) <==> exists k: nat :: Splits(wild, one, p, i, q, s, j, k)
    decreases |p| - i
  {
    var (whole, next) := (p + q, i + 1);
    if i == |p| {
      MatchesShift(wild, one, p, q, 0, s, j, j);
      if Matches(wild, one, whole, i, s, j) {
        assert Splits(wild, one, p, i, q, s, j, j);
      }
      if k: nat :| Splits(wild, one, p, i, q, s, j, k) {
        assert k == j;
      }
    } else if wild(p[i]) {
      assert whole[i] == p[i];
      if m: nat :| j <= m <= |s| && Matches(wild, one, whole, next, s, m) {
        MatchesSplit(wild, one, p, next, q, s, m);
        var k: nat :| Splits(wild, one, p, next, q, s, m, k);
        WildSplits(wild, one, p, i, q, s, j, m, k);
      }
      if k: nat :| Splits(wild, one, p, i, q, s, j, k) {
        var head := s[..k];
        assert Matches(wild, one, p, i, head, j);
        var m: nat :| j <= m <= |head| && Matches(wild, one, p, next, head, m);
        assert Splits(wild, one, p, next, q, s, m, k);
        MatchesSplit(wild, one, p, next, q, s, m);
        assert Matches(wild, one, whole, next, s, m);
      }
    } else if j < |s| {
      assert whole[i] == p[i];
      MatchesSplit(wild, one, p, next, q, s, j + 1);
      OneSplit(wild, one, p, i, next, q, s, j, j + 1);
    }
  }

  lemma WildSplits<P(!new), S(!new)>(wild: P -> bool, one: (P, S) -> bool, p: seq<P>, i: nat, q: seq<P>,
                                     s: seq<S>, j: nat, m: nat, k: nat)
    requires i < |p| && j <= m <= |s| && wild(p[i]) && Splits(wild, one, p, i + 1, q, s, m, k)
    ensures Splits(wild, one, p, i, q, s, j, k)
  {
    var (next, head) := (i + 1, s[..k]);
    assert Matches(wild, one, p, next, head, m);
  }

  lemma OneSplit<P(!new), S(!new)>(wild: P -> bool, one: (P, S) -> bool, p: seq<P>, i: nat, next: nat, q: seq<P>,
                                   s: seq<S>, j: nat, after: nat)
    requires i < |p| && j < |s| && !wild(p[i]) && next == i + 1 && after == j + 1
    ensures (one(p[i], s[j]) && exists k: nat :: Splits(wild, one, p, next, q, s, after, k))
            <==> exists k: nat :: Splits(wild, one, p, i, q, s, j, k)
  {
    if k: nat :| one(p[i], s[j]) && Splits(wild, one, p, next, q, s, after, k) {
      assert Splits(wild, one, p, i, q, s, j, k);
    }
    if k: nat :| Splits(wild, one, p, i, q, s, j, k) {
      assert Splits(wild, one, p, next, q, s, after, k);
    }
  }

  /** Two token lists one after the other match a name cut in two: the first its head, the second its
      tail. */
  lemma TokensConcat(a: seq<Token>, b: seq<Token>, name: string)
    ensures Denotes(a + b, name) <==> exists k | 0 <= k <= |name| :: Denotes(a, name[..k]) && Denotes(b, name[k..])
  {
    MatchesSplit(IsStar, MatchOne, a, 0, b, name, 0);
    if k: nat :| Splits(IsStar, MatchOne, a, 0, b, name, 0, k) {
      assert Denotes(a, name[..k]) && Denotes(b, name[k..]);
    }
    if k :| 0 <= k <= |name| && Denotes(a, name[..k]) && Denotes(b, name[k..]) {
      assert Splits(IsStar, MatchOne, a, 0, b, name, 0, k);
    }
  }

  /** Two lists of segments one after the other match a path cut in two. */
  lemma SegmentsConcat(a: seq<Segment>, b: seq<Segment>, path: seq<string>)
    ensures PathDenotes(a + b, path)
            <==> exists k | 0 <= k <= |path| :: PathDenotes(a, path[..k]) && PathDenotes(b, path[k..])
  {
    MatchesSplit(IsAny, SegmentDenotes, a, 0, b, path, 0);
    if k: nat :| Splits(IsAny, SegmentDenotes, a, 0, b, path, 0, k) {
      assert PathDenotes(a, path[..k]) && PathDenotes(b, path[k..]);
    }
    if k :| 0 <= k <= |path| && PathDenotes(a, path[..k]) && PathDenotes(b, path[k..]) {
      assert Splits(IsAny, SegmentDenotes, a, 0, b, path, 0, k);
    }
  }

  // One token, one segment.

  /** Whether `c` lies in none of the ranges. */
  predicate Outside(ranges: seq<(char, char)>, c: char) {
    forall k | 0 <= k < |ranges| :: c < ranges[k].0 || ranges[k].1 < c
  }

  lemma OneOf(t: Token, name: string)
    requires !t.Star?
    ensures Denotes([t], name) <==> |name| == 1 && MatchOne(t, name[0])
  {
    if |name| > 0 {
      assert Matches(IsStar, MatchOne, [t], 1, name, 1) <==> |name| == 1;
    }
  }

  /** No token matches the empty name only, `*` every name, `?` every single character, a literal itself,
      a class each single character in one of its ranges, and a negated class each in none. */
  lemma TokenMeans(t: Token, name: string)
    ensures Denotes([], name) <==> name == ""
    ensures Denotes([t], name) <==>
              match t
              case Star => true
              case One => |name| == 1
              case Lit(c) => name == [c]
              case Class(negate, ranges) => |name| == 1 && (negate <==> Outside(ranges, name[0]))
  {
    match t
    case Star =>
      assert Matches(IsStar, MatchOne, [t], 1, name, |name|);
    case One => OneOf(t, name);
    case Lit(c) => OneOf(t, name);
    case Class(negate, ranges) =>
      OneOf(t, name);
      if |name| == 1 {
        RangesOutside(ranges, name[0]);
      }
  }

  lemma RangesOutside(ranges: seq<(char, char)>, c: char)
    ensures (exists r <- ranges :: InRange(r, c)) <==> !Outside(ranges, c)
  {
    if k :| 0 <= k < |ranges| && !(c < ranges[k].0 || ranges[k].1 < c) {
      assert ranges[k] in ranges && InRange(ranges[k], c);
    }
  }

  /** No segment matches the empty path only, `**` every path, and any other segment each path of one name
      that its tokens match. */
  lemma SegmentMeans(seg: Segment, path: seq<string>)
    ensures PathDenotes([], path) <==> path == []
    ensures PathDenotes([seg], path) <==>
              match seg
              case Any => true
              case Tokens(ts) => |path| == 1 && Denotes(ts, path[0])
  {
    match seg
    case Any => assert Matches(IsAny, SegmentDenotes, [seg], 1, path, |path|);
    case Tokens(ts) =>
      if |path| > 0 {
        assert Matches(IsAny, SegmentDenotes, [seg], 1, path, 1) <==> |path| == 1;
      }
  }

  // Classes as they are written.

  /** A character or a range of a class, each bound plain or escaped. */
  datatype Item = Single(c: char, escaped: bool) | Range(lo: char, loEscaped: bool, hi: char, hiEscaped: bool)

  function Bound(c: char, escaped: bool): string {
    if escaped then ['\\', c] else [c]
  }

  function ItemText(item: Item): string {
    match item
    case Single(c, escaped) => Bound(c, escaped)
    case Range(lo, loEscaped, hi, hiEscaped) => Bound(lo, loEscaped) + ("-" + Bound(hi, hiEscaped))
  }

  function ItemRange(item: Item): (char, char) {
    match item
    case Single(c, _) => (c, c)
    case Range(lo, _, hi, _) => (lo, hi)
  }

  /** Only `]`, `\` and `-` need escaping inside a class. */
  predicate BoundFits(c: char, escaped: bool) {
    c != '/' && (escaped || c !in {']', '\\', '-'})
  }

  predicate ItemFits(item: Item) {
    match item
    case Single(c, escaped) => BoundFits(c, escaped)
    case Range(lo, loEscaped, hi, hiEscaped) => BoundFits(lo, loEscaped) && BoundFits(hi, hiEscaped)
  }

  function ItemsText(items: seq<Item>): string {
    if items == [] then [] else ItemText(items[0]) + ItemsText(items[1..])
  }

  function ItemRanges(items: seq<Item>): seq<(char, char)> {
    if items == [] then [] else [ItemRange(items[0])] + ItemRanges(items[1..])
  }

  /** What follows the items: a last `-` stands for itself. */
  function Ending(dash: bool): string {
    if dash then "-]" else "]"
  }

  function EndRanges(dash: bool): seq<(char, char)> {
    if dash then [('-', '-')] else []
  }

  /** The text of a class: `[`, a negation if any, the items, perhaps a last `-`, and `]`. */
  function ClassText(negation: string, items: seq<Item>, dash: bool): string {
    "[" + (negation + (ItemsText(items) + Ending(dash)))
  }

  function ClassRanges(items: seq<Item>, dash: bool): seq<(char, char)> {
    ItemRanges(items) + EndRanges(dash)
  }

  /** Without a negation the class must not begin like one. */
  predicate ClassFits(negation: string, items: seq<Item>, dash: bool) {
    && negation in {"", "!", "^"} && (items != [] || dash) && AllFit(items)
    && (negation == "" && items != [] ==> ItemText(items[0])[0] !in {'!', '^'})
  }

  lemma BoundHere(c: string, i: nat, b: char, escaped: bool)
    requires At(c, i, Bound(b, escaped)) && BoundFits(b, escaped)
    ensures var lo := if c[i] == '\\' then i + 1 else i;
            i < |c| && lo < |c| && c[lo] == b && lo + 1 == i + |Bound(b, escaped)| && c[i] != ']' && c[i] != '-'
  {
    AtIndex(c, i, Bound(b, escaped), 0);
    if escaped {
      AtIndex(c, i, Bound(b, escaped), 1);
    }
  }

  /** The ranges from `i` are `ranges`, up to `end`. */
  ghost predicate Reads(c: string, i: nat, ranges: seq<(char, char)>, end: nat) {
    Ranges(c, i) == Some((ranges, end))
  }

  /** The range `r` stands at `i`, and the others from `j`. */
  ghost predicate ReadsOne(c: string, i: nat, r: (char, char), j: nat) {
    Ranges(c, i) == WithFound([r], Ranges(c, j))
  }

  /** A bound is not taken for the start of a range by what follows it: another item, or the end. */
  predicate NoUpper(rest: string) {
    rest != [] && (rest[0] != '-' || (|rest| > 1 && rest[1] == ']'))
  }

  lemma RestStarts(items: seq<Item>, dash: bool)
    requires AllFit(items)
    ensures NoUpper(ItemsText(items) + Ending(dash))
  {
    if items != [] {
      assert items[0] in items;
    }
  }

  lemma NoUpperHere(c: string, i: nat, rest: string)
    requires At(c, i, rest) && NoUpper(rest)
    ensures !HasUpper(c, i)
  {
    AtIndex(c, i, rest, 0);
    if rest[0] == '-' {
      AtIndex(c, i, rest, 1);
    }
  }

  lemma SingleRead(c: string, i: nat, b: char, escaped: bool, rest: string)
    requires At(c, i, Bound(b, escaped) + rest) && BoundFits(b, escaped) && NoUpper(rest)
    ensures ReadsOne(c, i, (b, b), i + |Bound(b, escaped)|)
  {
    AtSplit(c, i, Bound(b, escaped), rest);
    BoundHere(c, i, b, escaped);
    NoUpperHere(c, i + |Bound(b, escaped)|, rest);
  }

  lemma RangeRead(c: string, i: nat, item: Item, rest: string)
    requires item.Range? && ItemFits(item) && At(c, i, ItemText(item) + rest)
    ensures ReadsOne(c, i, (item.lo, item.hi), i + |ItemText(item)|)
  {
    var (lo, hi) := (Bound(item.lo, item.loEscaped), Bound(item.hi, item.hiEscaped));
    AtSplit(c, i, ItemText(item), rest);
    AtSplit(c, i, lo, "-" + hi);
    AtSplit(c, i + |lo|, "-", hi);
    BoundHere(c, i, item.lo, item.loEscaped);
    AtIndex(c, i + |lo|, "-", 0);
    BoundHere(c, i + |lo| + 1, item.hi, item.hiEscaped);
    assert HasUpper(c, i + |lo|);
  }

  lemma ItemRead(c: string, i: nat, item: Item, rest: string)
    requires ItemFits(item) && At(c, i, ItemText(item) + rest) && NoUpper(rest)
    ensures ReadsOne(c, i, ItemRange(item), i + |ItemText(item)|)
  {
    match item
    case Single(b, escaped) => SingleRead(c, i, b, escaped, rest);
    case Range(_, _, _, _) => RangeRead(c, i, item, rest);
  }

  lemma EndingRead(c: string, i: nat, dash: bool)
    requires At(c, i, Ending(dash))
    ensures Reads(c, i, EndRanges(dash), i + |Ending(dash)|)
  {
    AtIndex(c, i, Ending(dash), 0);
    if dash {
      AtIndex(c, i, Ending(dash), 1);
      assert Ranges(c, i + 1) == Some(([], i + 2));
      T.Unit([('-', '-')]);
    }
  }

  lemma FoundMore(c: string, i: nat, j: nat, r: (char, char), rs: seq<(char, char)>, end: nat)
    requires ReadsOne(c, i, r, j) && Reads(c, j, rs, end)
    ensures Reads(c, i, [r] + rs, end)
  {
  }

  lemma RangesMore(items: seq<Item>, dash: bool)
    requires items != []
    ensures ClassRanges(items, dash) == [ItemRange(items[0])] + ClassRanges(items[1..], dash)
  {
    T.Assoc([ItemRange(items[0])], ItemRanges(items[1..]), EndRanges(dash));
  }

  lemma ItemsSplit(c: string, i: nat, items: seq<Item>, dash: bool)
    requires items != [] && At(c, i, ItemsText(items) + Ending(dash))
    ensures var (first, rest) := (ItemText(items[0]), ItemsText(items[1..]) + Ending(dash));
            && At(c, i, first + rest) && At(c, i + |first|, rest)
            && |ItemsText(items) + Ending(dash)| == |first| + |rest|
  {
    var (first, rest) := (ItemText(items[0]), ItemsText(items[1..]) + Ending(dash));
    T.Assoc(first, ItemsText(items[1..]), Ending(dash));
    AtSplit(c, i, first, rest);
  }

  lemma FirstRead(c: string, i: nat, items: seq<Item>, dash: bool, j: nat, end: nat)
    requires items != [] && AllFit(items) && At(c, i, ItemsText(items) + Ending(dash))
    requires j == i + |ItemText(items[0])| && Reads(c, j, ClassRanges(items[1..], dash), end)
    ensures Reads(c, i, ClassRanges(items, dash), end)
  {
    assert items[0] in items;
    ItemsSplit(c, i, items, dash);
    RestStarts(items[1..], dash);
    ItemRead(c, i, items[0], ItemsText(items[1..]) + Ending(dash));
    FoundMore(c, i, j, ItemRange(items[0]), ClassRanges(items[1..], dash), end);
    RangesMore(items, dash);
  }

  lemma NoItems(c: string, i: nat, dash: bool)
    requires At(c, i, ItemsText([]) + Ending(dash))
    ensures Reads(c, i, ClassRanges([], dash), i + |ItemsText([]) + Ending(dash)|)
  {
    T.Unit(Ending(dash));
    EndingRead(c, i, dash);
    T.Unit(EndRanges(dash));
  }

  predicate AllFit(items: seq<Item>) {
    forall item <- items :: ItemFits(item)
  }

  lemma {:induction false} ItemsRead(c: string, i: nat, items: seq<Item>, dash: bool, end: nat)
    requires AllFit(items) && At(c, i, ItemsText(items) + Ending(dash))
    requires end == i + |ItemsText(items) + Ending(dash)|
    ensures Reads(c, i, ClassRanges(items, dash), end)
    decreases |items|
  {
    if items == [] {
      NoItems(c, i, dash);
    } else {
      var j := i + |ItemText(items[0])|;
      ItemsSplit(c, i, items, dash);
      ItemsRead(c, j, items[1..], dash, end);
      FirstRead(c, i, items, dash, j, end);
    }
  }

  lemma BodyFirst(items: seq<Item>, dash: bool)
    requires items != [] || dash
    ensures var body := ItemsText(items) + Ending(dash);
            body != [] && body[0] == if items != [] then ItemText(items[0])[0] else '-'
  {
  }

  lemma ClassTextParts(negation: string, items: seq<Item>, dash: bool, a: string)
    requires ClassFits(negation, items, dash) && a == ClassText(negation, items, dash)
    ensures a != [] && a[0] == '[' && ClassBody(a, 0) == 1 + |negation| && Negated(a, 1) == (negation != "")
    ensures Reads(a, 1 + |negation|, ClassRanges(items, dash), |a|)
  {
    var (open, body) := ("[" + negation, ItemsText(items) + Ending(dash));
    T.Assoc("[", negation, body);
    AtSelf(a);
    AtSplit(a, 0, open, body);
    BodyFirst(items, dash);
    AtIndex(a, |open|, body, 0);
    Opened(a, negation, body[0]);
    ItemsRead(a, |open|, items, dash, |a|);
  }

  lemma OneClass(a: string, k: nat, negate: bool, ranges: seq<(char, char)>)
    requires a != [] && a[0] == '[' && ClassBody(a, 0) == k && Negated(a, 1) == negate
    requires Reads(a, k, ranges, |a|) && ranges != []
    ensures B.IsAtom(a) && TokensFrom(a, 0) == Some([Class(negate, ranges)])
  {
    ClassesAgree(a, k);
    assert TokensFrom(a, |a|) == Some([]);
    T.Unit([Class(negate, ranges)]);
  }

  /** The whole text is one class for the brace scanner and one token for the tokenizer. */
  lemma ClassTextRead(negation: string, items: seq<Item>, dash: bool)
    requires ClassFits(negation, items, dash)
    ensures var a := ClassText(negation, items, dash);
            && B.IsAtom(a)
            && TokensFrom(a, 0) == Some([Class(negation != "", ClassRanges(items, dash))])
  {
    var a := ClassText(negation, items, dash);
    ClassTextParts(negation, items, dash, a);
    NotEmpty(items, dash);
    OneClass(a, 1 + |negation|, negation != "", ClassRanges(items, dash));
  }

  lemma NotEmpty(items: seq<Item>, dash: bool)
    requires items != [] || dash
    ensures ClassRanges(items, dash) != []
  {
  }

  lemma Opened(a: string, negation: string, first: char)
    requires negation in {"", "!", "^"} && At(a, 0, "[" + negation) && 1 + |negation| < |a|
    requires a[1 + |negation|] == first && (negation == "" ==> first !in {'!', '^'})
    ensures a[0] == '[' && ClassBody(a, 0) == 1 + |negation| && Negated(a, 1) == (negation != "")
  {
    AtIndex(a, 0, "[" + negation, 0);
    if negation != "" {
      AtIndex(a, 0, "[" + negation, 1);
    }
  }

  lemma {:induction false} ItemsFree(items: seq<Item>)
    requires AllFit(items)
    ensures '/' !in ItemsText(items)
  {
    if items != [] {
      assert items[0] in items;
      ItemsFree(items[1..]);
    }
  }

  lemma OneTokenCompiles(a: string, t: Token)
    requires B.IsAtom(a) && '/' !in a && a != "**" && TokensFrom(a, 0) == Some([t])
    ensures Compile(a) == Some([[Tokens([t])]])
  {
    B.ExpandFlat(B.Text(a, B.Nil), a);
    T.SplitFree(a, '/');
    L.TraverseOne(CompileSegment, a);
    L.TraverseOne(CompileAlt, a);
  }

  lemma OneTokenSelects(t: Token, path: seq<string>)
    ensures Selects([[Tokens([t])]], path) <==> |path| == 1 && Denotes([t], path[0])
  {
    SegmentMeans(Tokens([t]), path);
    assert [[Tokens([t])]][0] == [Tokens([t])];
  }

  /** A pattern that is the text of one class, its bounds plain or escaped, selects exactly the paths of one
      name of one character that is in one of the ranges, or for a negated class in none. */
  lemma ClassSelects(negation: string, items: seq<Item>, dash: bool, path: seq<string>)
    requires ClassFits(negation, items, dash)
    ensures var compiled := Compile(ClassText(negation, items, dash));
            && compiled.Some?
            && (Selects(compiled.value, path) <==>
                  && |path| == 1 && |path[0]| == 1
                  && (negation != "" <==> Outside(ClassRanges(items, dash), path[0][0])))
  {
    var (a, t) := (ClassText(negation, items, dash), Class(negation != "", ClassRanges(items, dash)));
    ClassTextRead(negation, items, dash);
    ItemsFree(items);
    OneTokenCompiles(a, t);
    OneTokenSelects(t, path);
    if |path| == 1 {
      TokenMeans(t, path[0]);
    }
  }

  /** `[lo-hi]` selects the characters from `lo` to `hi`, `[!lo-hi]` and `[^lo-hi]` all others. */
  lemma RangeSelects(negation: string, lo: char, hi: char, path: seq<string>)
    requires negation in {"", "!", "^"} && lo !in {']', '\\', '-', '/', '!', '^'} && hi !in {']', '\\', '-', '/'}
    ensures var compiled := Compile("[" + negation + [lo, '-', hi, ']']);
            && compiled.Some?
            && (Selects(compiled.value, path) <==>
                  |path| == 1 && |path[0]| == 1 && (negation != "" <==> path[0][0] < lo || hi < path[0][0]))
  {
    var items := [Range(lo, false, hi, false)];
    assert items[1..] == [] && ItemsText([]) == [] && ItemRanges([]) == [];
    assert ItemText(items[0]) == [lo, '-', hi];
    assert ItemsText(items) == [lo, '-', hi];
    assert ClassText(negation, items, false) == "[" + negation + [lo, '-', hi, ']'];
    assert ClassRanges(items, false) == [(lo, hi)];
    ClassSelects(negation, items, false, path);
  }

  // What is refused.

  /** Text that begins no token: a `\` with nothing after it, a class that is empty, or one that never
      closes. */
  predicate Malformed(bad: string) {
    || bad == "\\" || "[]" <= bad || "[!]" <= bad || "[^]" <= bad
    || ("[" <= bad && ']' !in bad)
  }

  lemma {:induction false} NoClose(c: string, i: nat)
    requires forall k | i <= k < |c| :: c[k] != ']'
    ensures Ranges(c, i).None?
    decreases |c| - i
  {
    if i < |c| {
      var lo := if c[i] == '\\' then i + 1 else i;
      if lo < |c| {
        if HasUpper(c, lo + 1) {
          var hi := if c[lo + 2] == '\\' then lo + 3 else lo + 2;
          if hi < |c| {
            NoClose(c, hi + 1);
          }
        } else {
          NoClose(c, lo + 1);
        }
      }
    }
  }

  lemma MalformedHere(c: string, i: nat, bad: string)
    requires Malformed(bad) && i + |bad| == |c| && At(c, i, bad)
    ensures i < |c| && NextToken(c, i).None?
  {
    AtSlice(c, i, bad);
    assert c[i] == bad[0];
    if "[" <= bad && ']' !in bad {
      forall k | i <= k < |c|
        ensures c[k] != ']'
      {
        assert c[k] == bad[k - i];
      }
      NoClose(c, ClassBody(c, i));
    } else if |bad| > 1 {
      assert c[i + 1] == bad[1];
      if |bad| > 2 {
        assert c[i + 2] == bad[2];
      }
    }
  }

  lemma OneBefore(c: string, i: nat, t: Token, j: nat)
    requires Spellable(t) && At(c, i, Spell(t)) && j == i + |Spell(t)| && TokensFrom(c, j).None?
    ensures TokensFrom(c, i).None?
  {
    TokenSpelled(c, i, t);
  }

  lemma SpellSplit(c: string, i: nat, ts: seq<Token>, bad: string)
    requires ts != [] && At(c, i, SpellAll(ts) + bad)
    ensures At(c, i, Spell(ts[0])) && At(c, i + |Spell(ts[0])|, SpellAll(ts[1..]) + bad)
    ensures |SpellAll(ts) + bad| == |Spell(ts[0])| + |SpellAll(ts[1..]) + bad|
  {
    T.Assoc(Spell(ts[0]), SpellAll(ts[1..]), bad);
    AtSplit(c, i, Spell(ts[0]), SpellAll(ts[1..]) + bad);
  }

  lemma {:induction false} MalformedFrom(c: string, i: nat, ts: seq<Token>, bad: string)
    requires (forall t <- ts :: Spellable(t)) && Malformed(bad)
    requires At(c, i, SpellAll(ts) + bad) && i + |SpellAll(ts) + bad| == |c|
    ensures TokensFrom(c, i).None?
    decreases |ts|
  {
    if ts == [] {
      T.Unit(bad);
      MalformedHere(c, i, bad);
    } else {
      var j := i + |Spell(ts[0])|;
      assert ts[0] in ts;
      SpellSplit(c, i, ts, bad);
      MalformedFrom(c, j, ts[1..], bad);
      OneBefore(c, i, ts[0], j);
    }
  }

  /** Whatever tokens come before it, such text makes the tokenizer refuse the segment. */
  lemma MalformedRefused(ts: seq<Token>, bad: string)
    requires (forall t <- ts :: Spellable(t)) && Malformed(bad)
    ensures TokensFrom(SpellAll(ts) + bad, 0).None?
  {
    AtSelf(SpellAll(ts) + bad);
    MalformedFrom(SpellAll(ts) + bad, 0, ts, bad);
  }
}
