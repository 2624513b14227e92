/** Every alternative can be written as a pattern, and reads back as itself. */
module GlobSpelling {
  import T = Text
  import opened Wrappers
  import opened GlobMatch
  import opened GlobTokens
  import opened GlobBraces
  import opened GlobPattern
  import B = BraceMeaning
  import L = GlobLiteral

  function SpellSegment(seg: Segment): string {
    match seg
    case Any => "**"
    case Tokens(ts) => SpellAll(ts)
  }

  /** A segment that stays one when written: no `/` in it, and not two stars, which mean `**`. */
  predicate Writable(seg: Segment) {
    seg.Tokens? ==>
      && (forall t <- seg.tokens :: Spellable(t))
      && '/' !in SpellAll(seg.tokens) && SpellAll(seg.tokens) != "**"
  }

  function Spellings(alt: seq<Segment>): (r: seq<string>)
    ensures |r| == |alt|
    ensures forall k: nat | k < |alt| :: r[k] == SpellSegment(alt[k])
  {
    if alt == [] then [] else [SpellSegment(alt[0])] + Spellings(alt[1..])
  }

  function SpellAlt(alt: seq<Segment>): string
    requires alt != []
  {
    T.Join(Spellings(alt), '/')
  }

  // Each segment reads back.

  lemma SegmentReads(seg: Segment)
    requires Writable(seg)
    ensures CompileSegment(SpellSegment(seg)) == Some(seg)
  {
    if seg.Tokens? {
      TokensSpelled(seg.tokens);
    }
  }

  lemma AltReads(alt: seq<Segment>)
    requires alt != [] && forall seg <- alt :: Writable(seg)
    ensures CompileAlt(SpellAlt(alt)) == Some(alt)
  {
    var parts := Spellings(alt);
    forall k: nat | k < |parts|
      ensures T.Free(parts[k], '/') && CompileSegment(parts[k]) == Some(alt[k])
    {
      assert alt[k] in alt;
      SegmentReads(alt[k]);
    }
    T.SplitJoin(parts, '/');
    var r := Traverse(CompileSegment, parts);
    assert r.Some? && r.value == alt;
  }

  // Nothing in it is taken for a group.

  lemma ClassAtom(negate: bool, ranges: seq<(char, char)>)
    requires ranges != []
    ensures B.IsAtom(Spell(Class(negate, ranges)))
  {
    var a := Spell(Class(negate, ranges));
    var (open, body) := (if negate then "[!" else "[", SpellRanges(ranges) + "]");
    AtSelf(a);
    AtSplit(a, 0, open, body);
    RangesSpelled(a, |open|, ranges);
    BodyStarts(ranges);
    AtIndex(a, |open|, body, 0);
    ClassOpened(a, 0, open, body[0]);
    ClassesAgree(a, |open|);
  }

  lemma TokenAtom(t: Token)
    requires Spellable(t)
    ensures B.IsAtom(Spell(t))
  {
    if t.Class? {
      ClassAtom(t.negate, t.ranges);
    }
  }

  function TokenPieces(ts: seq<Token>, after: B.Pieces): B.Pieces {
    if ts == [] then after else B.Text(Spell(ts[0]), TokenPieces(ts[1..], after))
  }

  lemma {:induction false} TokensWritten(ts: seq<Token>, after: B.Pieces)
    requires (forall t <- ts :: Spellable(t)) && B.Flat(after) && B.Written(after, false)
    ensures var ps := TokenPieces(ts, after);
            B.Flat(ps) && B.Written(ps, false) && B.Write(ps) == SpellAll(ts) + B.Write(after)
  {
    if ts == [] {
      T.Unit(B.Write(after));
    } else {
      assert ts[0] in ts;
      TokenAtom(ts[0]);
      TokensWritten(ts[1..], after);
      T.Assoc(Spell(ts[0]), SpellAll(ts[1..]), B.Write(after));
    }
  }

  function SegmentPieces(seg: Segment, after: B.Pieces): B.Pieces {
    match seg
    case Any => TokenPieces([Star, Star], after)
    case Tokens(ts) => TokenPieces(ts, after)
  }

  lemma SegmentWritten(seg: Segment, after: B.Pieces)
    requires Writable(seg) && B.Flat(after) && B.Written(after, false)
    ensures var ps := SegmentPieces(seg, after);
            B.Flat(ps) && B.Written(ps, false) && B.Write(ps) == SpellSegment(seg) + B.Write(after)
  {
    match seg
    case Any =>
      TokensWritten([Star, Star], after);
      assert [Star, Star][1..] == [Star];
      assert SpellAll([Star]) == "*";
      assert SpellAll([Star, Star]) == "**";
    case Tokens(ts) => TokensWritten(ts, after);
  }

  function AltPieces(alt: seq<Segment>): B.Pieces
    requires alt != []
  {
    SegmentPieces(alt[0], if |alt| == 1 then B.Nil else B.Text("/", AltPieces(alt[1..])))
  }

  lemma {:induction false} AltWritten(alt: seq<Segment>)
    requires alt != [] && forall seg <- alt :: Writable(seg)
    ensures var ps := AltPieces(alt);
            B.Flat(ps) && B.Written(ps, false) && B.Write(ps) == SpellAlt(alt)
  {
    assert alt[0] in alt;
    if |alt| == 1 {
      SegmentWritten(alt[0], B.Nil);
      T.Unit(SpellSegment(alt[0]));
    } else {
      AltWritten(alt[1..]);
      assert B.IsAtom("/");
      SegmentWritten(alt[0], B.Text("/", AltPieces(alt[1..])));
      assert Spellings(alt)[1..] == Spellings(alt[1..]);
      T.Assoc(SpellSegment(alt[0]), ['/'], SpellAlt(alt[1..]));
    }
  }

  /** Every list of segments compiles back from its spelling, through brace scanning, splitting and
      tokenizing: nothing is lost, merged or taken for a group. */
  lemma PatternSpelled(alt: seq<Segment>)
    requires alt != [] && forall seg <- alt :: Writable(seg)
    ensures Compile(SpellAlt(alt)) == Some([alt])
  {
    AltWritten(alt);
    B.ExpandFlat(AltPieces(alt), SpellAlt(alt));
    AltReads(alt);
    L.TraverseOne(CompileAlt, SpellAlt(alt));
  }

  /** A pattern with groups compiles to its choices, each compiled on its own. */
  lemma GroupsCompile(ps: B.Pieces)
    requires B.Written(ps, false)
    ensures Compile(B.Write(ps)) == Traverse(CompileAlt, B.Choices(ps))
  {
    B.ExpandIsChoices(ps);
  }
}
