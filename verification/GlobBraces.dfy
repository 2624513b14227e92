/** Expansion of `{a,b}` alternatives. */
module GlobBraces {
  import opened Text
  import opened Wrappers
  import opened GlobTokens

  /** Index just past the first unescaped `]` from `i`. */
  function ClassClose(p: string, i: nat): (r: Option<nat>)
    ensures r.Some? ==> i < r.value <= |p|
    decreases |p| - i
  {
    if i >= |p| then None
    else match p[i]
      case '\\' => ClassClose(p, i + 2)
      case ']' => Some(i + 1)
      case _ => ClassClose(p, i + 1)
  }

  /** Where the scan resumes after the class whose `[` is at `open`; an absent result means no `]`
      closes it. */
  function ClassEnd(p: string, open: nat): Option<nat> {
    ClassClose(p, ClassBody(p, open))
  }

  /** The index to look at after `p[i]`: past an escape or a closed class, else the next one. */
  function Next(p: string, i: nat): (r: nat)
    requires i < |p|
    ensures r > i
  {
    match p[i]
    case '\\' => i + 2
    case '[' => if ClassEnd(p, i).Some? then ClassEnd(p, i).value else i + 1
    case _ => i + 1
  }

  /** The first `{` from `i` that is not in an escape or a class. */
  function FindOpen(p: string, i: nat): (r: Option<nat>)
    ensures r.Some? ==> i <= r.value < |p| && p[r.value] == '{'
    decreases |p| - i
  {
    if i >= |p| then None else if p[i] == '{' then Some(i) else FindOpen(p, Next(p, i))
  }

  predicate Ordered(from: nat, commas: seq<nat>, close: nat)
    decreases |commas|
  {
    if commas == [] then from <= close
    else from <= commas[0] && Ordered(commas[0] + 1, commas[1..], close)
  }

  /** From `i`, inside `depth` open braces: the commas directly inside the outermost one, and the
      `}` that closes it. */
  function Commas(p: string, i: nat, depth: nat): (r: Option<(seq<nat>, nat)>)
    requires depth > 0
    ensures r.Some? ==> Ordered(i, r.value.0, r.value.1) && r.value.1 < |p|
    decreases |p| - i
  {
    if i >= |p| then None
    else if p[i] == '{' then Commas(p, i + 1, depth + 1)
    else if p[i] == '}' then if depth == 1 then Some(([], i)) else Commas(p, i + 1, depth - 1)
    else if p[i] == ',' && depth == 1 then WithFound([i], Commas(p, i + 1, depth))
    else Commas(p, Next(p, i), depth)
  }

  /** Each alternative between the bounds, put back between `head` and `tail`. */
  function Candidates(p: string, head: string, tail: string, from: nat, commas: seq<nat>, close: nat):
    seq<string>
    requires Ordered(from, commas, close) && close < |p|
    decreases |commas|
  {
    if commas == [] then [head + p[from..close] + tail]
    else
      OrderedBounds(from, commas, close);
      [head + p[from..commas[0]] + tail]
      + Candidates(p, head, tail, commas[0] + 1, commas[1..], close)
  }

  lemma OrderedBounds(from: nat, commas: seq<nat>, close: nat)
    requires Ordered(from, commas, close)
    ensures from <= close
    ensures commas != [] ==> commas[0] < close
    decreases |commas|
  {
    if commas != [] {
      OrderedBounds(commas[0] + 1, commas[1..], close);
    }
  }

  /** One round of expansion: no group left, a group that never closes, or the group's alternatives
      each put in its place. */
  datatype Round = Settled | Unclosed | Replace(candidates: seq<string>)

  lemma {:induction false} CandidatesShort(p: string, head: string, tail: string, from: nat,
                                           commas: seq<nat>, close: nat)
    requires Ordered(from, commas, close) && close < |p|
    ensures forall c <- Candidates(p, head, tail, from, commas, close) ::
              |c| <= |head| + (close - from) + |tail|
    decreases |commas|
  {
    if commas != [] {
      OrderedBounds(from, commas, close);
      CandidatesShort(p, head, tail, commas[0] + 1, commas[1..], close);
    }
  }

  /** The group opened at `o`, given its commas and its `}`. */
  function Grouped(p: string, o: nat, found: Option<(seq<nat>, nat)>): Round
    requires o < |p|
    requires found.Some? ==> Ordered(o + 1, found.value.0, found.value.1) && found.value.1 < |p|
  {
    match found
    case None => Unclosed
    case Some((commas, close)) =>
      OrderedBounds(o + 1, commas, close);
      Replace(Candidates(p, p[..o], p[close + 1..], o + 1, commas, close))
  }

  function Open(p: string): Round {
    match FindOpen(p, 0)
    case None => Settled
    case Some(o) => Grouped(p, o, Commas(p, o + 1, 1))
  }

  /** Each round drops a pair of braces. */
  lemma OpenShortens(p: string)
    ensures Open(p).Replace? ==> forall c <- Open(p).candidates :: |c| < |p|
  {
    if Open(p).Replace? {
      var o := FindOpen(p, 0).value;
      var (commas, close) := Commas(p, o + 1, 1).value;
      OrderedBounds(o + 1, commas, close);
      CandidatesShort(p, p[..o], p[close + 1..], o + 1, commas, close);
    }
  }

  /** The alternatives of `p`, or `None` for an unclosed `{`. Each round drops a pair of braces, so
      the length decreases however deeply they nest. */
  function Expand(p: string): Option<seq<string>>
    decreases |p|, 1, 0
  {
    match Open(p)
    case Settled => Some([p])
    case Unclosed => None
    case Replace(candidates) =>
      OpenShortens(p);
      ExpandAll(candidates, |p|)
  }

  function ExpandAll(candidates: seq<string>, size: nat): Option<seq<string>>
    requires forall c <- candidates :: |c| < size
    decreases size, 0, |candidates|
  {
    if candidates == [] then Some([])
    else
      assert candidates[0] in candidates;
      var first := Expand(candidates[0]);
      var rest := ExpandAll(candidates[1..], size);
      if first.None? || rest.None? then None else Some(first.value + rest.value)
  }

  // The loops of the source.

  method ScanClass(p: string, open: nat) returns (r: Option<nat>)
    ensures r == ClassEnd(p, open)
  {
    var i := open + 1;
    if i < |p| && (p[i] == '!' || p[i] == '^') {
      i := i + 1;
    }
    while i < |p|
      invariant ClassEnd(p, open) == ClassClose(p, i)
      decreases |p| - i
    {
      match p[i]
      case '\\' => i := i + 2;
      case ']' => return Some(i + 1);
      case _ => i := i + 1;
    }
    return None;
  }

  method Skip(p: string, i: nat) returns (next: nat)
    requires i < |p|
    ensures next == Next(p, i)
  {
    match p[i]
    case '\\' => next := i + 2;
    case '[' =>
      var end := ScanClass(p, i);
      next := if end.Some? then end.value else i + 1;
    case _ => next := i + 1;
  }

  method ScanCommas(p: string, open: nat) returns (r: Option<(seq<nat>, nat)>)
    requires open < |p| && p[open] == '{'
    ensures r == Commas(p, open + 1, 1)
  {
    var depth, i, commas: seq<nat> := 1, open + 1, [];
    while i < |p|
      invariant depth >= 1
      invariant Commas(p, open + 1, 1) == WithFound(commas, Commas(p, i, depth))
      decreases |p| - i
    {
      if p[i] == '{' {
        depth, i := depth + 1, i + 1;
      } else if p[i] == '}' {
        if depth == 1 {
          assert commas + [] == commas;
          return Some((commas, i));
        }
        depth, i := depth - 1, i + 1;
      } else if p[i] == ',' && depth == 1 {
        ghost var rest := Commas(p, i + 1, depth);
        if rest.Some? {
          Assoc(commas, [i], rest.value.0);
        }
        commas, i := commas + [i], i + 1;
      } else {
        i := Skip(p, i);
      }
    }
    return None;
  }

  method ScanOpen(p: string) returns (open: Option<nat>)
    ensures open == FindOpen(p, 0)
  {
    var i := 0;
    while i < |p|
      invariant FindOpen(p, 0) == FindOpen(p, i)
      decreases |p| - i
    {
      if p[i] == '{' {
        return Some(i);
      }
      i := Skip(p, i);
    }
    return None;
  }

  method OpenGroup(p: string) returns (r: Round)
    ensures r == Open(p)
  {
    var open := ScanOpen(p);
    if open.None? {
      return Settled;
    }
    var o := open.value;
    var found := ScanCommas(p, o);
    if found.None? {
      return Unclosed;
    }
    var (commas, close) := found.value;
    OrderedBounds(o + 1, commas, close);
    r := Replace(Candidates(p, p[..o], p[close + 1..], o + 1, commas, close));
  }

  /** The recursion over rounds: each alternative of the first group is expanded in its turn. */
  method ExpandBraces(p: string) returns (r: Option<seq<string>>)
    ensures r == Expand(p)
    decreases |p|, 1, 0
  {
    var round := OpenGroup(p);
    match round
    case Settled => r := Some([p]);
    case Unclosed => r := None;
    case Replace(candidates) =>
      OpenShortens(p);
      r := ExpandCandidates(candidates, |p|);
  }

  method ExpandCandidates(candidates: seq<string>, size: nat) returns (r: Option<seq<string>>)
    requires forall c <- candidates :: |c| < size
    ensures r == ExpandAll(candidates, size)
    decreases size, 0, 0
  {
    var out: seq<string> := [];
    var k := 0;
    ghost var all := ExpandAll(candidates, size);
    assert candidates[0..] == candidates;
    if all.Some? {
      Unit(all.value);
    }
    while k < |candidates|
      invariant 0 <= k <= |candidates|
      invariant var rest := ExpandAll(candidates[k..], size);
                ExpandAll(candidates, size) == if rest.None? then None else Some(out + rest.value)
    {
      assert candidates[k] in candidates;
      var alts := ExpandBraces(candidates[k]);
      ghost var rest := ExpandAll(candidates[k + 1..], size);
      assert candidates[k..][1..] == candidates[k + 1..];
      if alts.None? {
        return None;
      }
      if rest.Some? {
        Assoc(out, alts.value, rest.value);
      }
      out := out + alts.value;
      k := k + 1;
    }
    assert out + [] == out;
    return Some(out);
  }

  // What expansion leaves.

  /** Every alternative is a fixed point: no brace outside an escape or a class is left in it, so
      expanding it again yields only itself. */
  lemma {:induction false} ExpandFixed(p: string)
    ensures Expand(p).Some? ==>
              forall a <- Expand(p).value :: FindOpen(a, 0).None? && Expand(a) == Some([a])
    decreases |p|, 1, 0
  {
    if Open(p).Replace? {
      OpenShortens(p);
      ExpandAllFixed(Open(p).candidates, |p|);
    }
  }

  lemma {:induction false} ExpandAllFixed(candidates: seq<string>, size: nat)
    requires forall c <- candidates :: |c| < size
    ensures ExpandAll(candidates, size).Some? ==>
              forall a <- ExpandAll(candidates, size).value ::
                FindOpen(a, 0).None? && Expand(a) == Some([a])
    decreases size, 0, |candidates|
  {
    if candidates != [] {
      assert candidates[0] in candidates;
      ExpandFixed(candidates[0]);
      ExpandAllFixed(candidates[1..], size);
    }
  }

  /** The brace scanner skips exactly the class the tokenizer reads: both close it at the same `]`,
      or both find it unclosed. */
  lemma {:induction false} ClassesAgree(c: string, i: nat)
    ensures Ranges(c, i).Some? <==> ClassClose(c, i).Some?
    ensures Ranges(c, i).Some? ==> Ranges(c, i).value.1 == ClassClose(c, i).value
    decreases |c| - i
  {
    if i < |c| && c[i] != ']' {
      var lo := if c[i] == '\\' then i + 1 else i;
      assert lo < |c| ==> ClassClose(c, i) == ClassClose(c, lo + 1);
      if lo < |c| {
        if HasUpper(c, lo + 1) {
          var hi := if c[lo + 2] == '\\' then lo + 3 else lo + 2;
          assert ClassClose(c, lo + 1) == ClassClose(c, lo + 2);
          if hi < |c| {
            assert ClassClose(c, lo + 2) == ClassClose(c, hi + 1);
            ClassesAgree(c, hi + 1);
          }
        } else {
          ClassesAgree(c, lo + 1);
        }
      }
    }
  }
}
