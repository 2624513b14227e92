/** A string field of the atop log, and the reader that takes a record apart. */
module AtopField {
  import opened Wrappers
  import Text

  // Writing a field.

  predicate IsControl(c: char) {
    c <= '\U{001F}' || '\U{007F}' <= c <= '\U{009F}'
  }

  /** Control characters become spaces, so that one record stays one line. */
  function OneLine(s: string): (t: string)
    ensures |t| == |s|
  {
    if s == [] then [] else [if IsControl(s[0]) then ' ' else s[0]] + OneLine(s[1..])
  }

  function WithoutParens(s: string): (t: string)
    ensures |t| == |s|
  {
    if s == [] then [] else [if s[0] == '(' || s[0] == ')' then ' ' else s[0]] + WithoutParens(s[1..])
  }

  /** Read from `depth` open parentheses, `s` closes what it opens and no more. */
  predicate Closes(s: string, depth: nat) {
    if s == [] then depth == 0
    else if s[0] == '(' then Closes(s[1..], depth + 1)
    else if s[0] == ')' then depth > 0 && Closes(s[1..], depth - 1)
    else Closes(s[1..], depth)
  }

  method Balanced(s: string) returns (r: bool)
    ensures r == Closes(s, 0)
  {
    var depth := 0;
    for i := 0 to |s|
      invariant Closes(s, 0) == Closes(s[i..], depth)
    {
      if s[i] == '(' {
        depth := depth + 1;
      } else if s[i] == ')' {
        if depth == 0 {
          return false;
        }
        depth := depth - 1;
      }
    }
    return depth == 0;
  }

  /** What stands between the field's own parentheses: unbalanced text loses those it has. */
  function Content(s: string): string {
    var text := OneLine(s);
    if Closes(text, 0) then text else WithoutParens(text)
  }

  function Paren(s: string): string {
    "(" + Content(s) + ")"
  }

  method WriteParen(s: string) returns (field: string)
    ensures field == Paren(s)
  {
    var text := OneLine(s);
    var balanced := Balanced(text);
    if !balanced {
      return "(" + WithoutParens(text) + ")";
    }
    return "(" + text + ")";
  }

  // Reading one.

  /** How many characters a field takes whose reader has `depth` parentheses open: up to the one that
      closes the first. */
  function Span(s: string, depth: nat): (n: Option<nat>)
    ensures n.Some? ==> 0 < n.value <= |s|
  {
    if s == [] || (s[0] == ')' && depth == 0) then None
    else if s[0] == ')' && depth == 1 then Some(1)
    else
      var inner := if s[0] == '(' then depth + 1 else if s[0] == ')' then depth - 1 else depth;
      var rest := Span(s[1..], inner);
      if rest.None? then None else Some(rest.value + 1)
  }

  method MatchParen(s: string) returns (at: Option<nat>)
    ensures at.Some? <==> Span(s, 0).Some?
    ensures at.Some? ==> at.value + 1 == Span(s, 0).value
  {
    var depth := 0;
    for i := 0 to |s|
      invariant Span(s, 0).Some? <==> Span(s[i..], depth).Some?
      invariant Span(s, 0).Some? ==> Span(s, 0).value == i + Span(s[i..], depth).value
    {
      if s[i] == '(' {
        depth := depth + 1;
      } else if s[i] == ')' {
        if depth == 0 {
          return None;
        }
        depth := depth - 1;
        if depth == 0 {
          return Some(i);
        }
      }
    }
    return None;
  }

  lemma {:induction false} SpanPasses(t: string, depth: nat, rest: string)
    requires Closes(t, depth)
    ensures Span(t + [')'] + rest, depth + 1) == Some(|t| + 1)
  {
    var s := t + [')'] + rest;
    if t != [] {
      assert s[1..] == t[1..] + [')'] + rest;
      SpanPasses(t[1..], if t[0] == '(' then depth + 1 else if t[0] == ')' then depth - 1 else depth,
                 rest);
    }
  }

  lemma {:induction false} WithoutParensCloses(s: string)
    ensures Closes(WithoutParens(s), 0)
  {
    if s != [] {
      WithoutParensCloses(s[1..]);
      assert WithoutParens(s)[1..] == WithoutParens(s[1..]);
    }
  }

  /** Whatever the field holds and whatever follows it, a reader that counts parentheses until the
      count is back at zero takes exactly the field. */
  lemma ReaderTakesField(s: string, rest: string)
    ensures Span(Paren(s) + rest, 0) == Some(|Paren(s)|)
  {
    var t := Content(s);
    WithoutParensCloses(OneLine(s));
    var whole := Paren(s) + rest;
    assert whole[1..] == t + [')'] + rest;
    SpanPasses(t, 0, rest);
  }

  predicate ControlFree(s: string) {
    forall c <- s :: !IsControl(c)
  }

  lemma {:induction false} OneLineFree(s: string)
    ensures ControlFree(OneLine(s))
    ensures OneLine(s) == s <==> ControlFree(s)
  {
    if s != [] {
      OneLineFree(s[1..]);
      assert OneLine(s)[1..] == OneLine(s[1..]);
      assert OneLine(s) == s ==> s[1..] == OneLine(s[1..]);
      assert s == [s[0]] + s[1..];
    }
  }

  lemma {:induction false} WithoutParensFree(s: string)
    requires ControlFree(s)
    ensures ControlFree(WithoutParens(s))
    ensures WithoutParens(s) == s ==> Closes(s, 0)
  {
    WithoutParensCloses(s);
    if s != [] {
      WithoutParensFree(s[1..]);
    }
  }

  /** A character that keeps a record on one line: none below the space, and none from delete to the end of
      the second row of control codes. */
  predicate Printing(c: char) {
    ' ' <= c && (c <= '~' || '\U{00A0}' <= c)
  }

  lemma PrintingIs(c: char)
    ensures Printing(c) <==> !IsControl(c)
  {
  }

  /** The field never holds a line break or any other control character. */
  lemma FieldOnOneLine(s: string)
    ensures forall c <- Paren(s) :: Printing(c)
    ensures '\n' !in Paren(s) && '\r' !in Paren(s) && '\t' !in Paren(s) && '\0' !in Paren(s)
  {
    OneLineFree(s);
    WithoutParensFree(OneLine(s));
    assert ControlFree(Paren(s));
    forall c <- Paren(s)
      ensures Printing(c)
    {
      PrintingIs(c);
    }
  }

  // Balance by counting.

  function Count(s: string, c: char): nat {
    if s == [] then 0 else (if s[0] == c then 1 else 0) + Count(s[1..], c)
  }

  /** As many close as open, and no more close than open before any point; `depth` are open before. */
  predicate Even(s: string, depth: nat) {
    && depth + Count(s, '(') == Count(s, ')')
    && forall k | 0 <= k <= |s| :: Count(s[..k], ')') <= depth + Count(s[..k], '(')
  }

  lemma CountPrefix(s: string, k: nat, c: char)
    requires 0 < k <= |s|
    ensures Count(s[..k], c) == (if s[0] == c then 1 else 0) + Count(s[1..][..k - 1], c)
  {
    assert s[..k][1..] == s[1..][..k - 1];
  }

  lemma EvenStep(s: string, depth: nat, depth': nat)
    requires s != [] && (s[0] == '(' ==> depth' == depth + 1) && (s[0] == ')' ==> depth' + 1 == depth)
    requires s[0] != '(' && s[0] != ')' ==> depth' == depth
    ensures Even(s, depth) <==> Even(s[1..], depth')
  {
    var rest := s[1..];
    forall k | 0 < k <= |s|
      ensures Count(s[..k], ')') <= depth + Count(s[..k], '(')
              <==> Count(rest[..k - 1], ')') <= depth' + Count(rest[..k - 1], '(')
    {
      CountPrefix(s, k, '(');
      CountPrefix(s, k, ')');
    }
    assert s[..0] == "";
    forall k | 0 <= k <= |rest|
      ensures rest[..k] == rest[..(k + 1) - 1]
    {
    }
    if Even(s, depth) {
      forall k | 0 <= k <= |rest|
        ensures Count(rest[..k], ')') <= depth' + Count(rest[..k], '(')
      {
        assert Count(s[..k + 1], ')') <= depth + Count(s[..k + 1], '(');
      }
    }
    if Even(rest, depth') {
      forall k | 0 <= k <= |s|
        ensures Count(s[..k], ')') <= depth + Count(s[..k], '(')
      {
        if k > 0 {
          assert Count(rest[..k - 1], ')') <= depth' + Count(rest[..k - 1], '(');
        }
      }
    }
  }

  /** The parentheses close just when they are even. */
  lemma {:induction false} ClosesIffEven(s: string, depth: nat)
    ensures Closes(s, depth) <==> Even(s, depth)
  {
    if s == [] {
      assert forall k | 0 <= k <= |s| :: s[..k] == "";
    } else if s[0] == ')' && depth == 0 {
      CountPrefix(s, 1, '(');
      CountPrefix(s, 1, ')');
      assert s[1..][..0] == "";
    } else {
      var depth' := if s[0] == '(' then depth + 1 else if s[0] == ')' then depth - 1 else depth;
      ClosesIffEven(s[1..], depth');
      EvenStep(s, depth, depth');
    }
  }

  lemma {:induction false} OneLineAt(s: string, k: nat)
    requires k < |s|
    ensures OneLine(s)[k] == if Printing(s[k]) then s[k] else ' '
  {
    PrintingIs(s[k]);
    if k > 0 {
      OneLineAt(s[1..], k - 1);
    }
  }

  lemma {:induction false} WithoutParensAt(s: string, k: nat)
    requires k < |s|
    ensures WithoutParens(s)[k] == if s[k] == '(' || s[k] == ')' then ' ' else s[k]
  {
    if k > 0 {
      WithoutParensAt(s[1..], k - 1);
    }
  }

  lemma {:induction false} OneLineCloses(s: string, depth: nat)
    ensures Closes(OneLine(s), depth) <==> Closes(s, depth)
  {
    if s != [] {
      assert OneLine(s)[1..] == OneLine(s[1..]);
      OneLineCloses(s[1..], if s[0] == '(' then depth + 1 else if s[0] == ')' && depth > 0 then depth - 1 else depth);
    }
  }

  /** The field, character by character: in its parentheses stands the text, with a space for each control
      character and, if its parentheses are not even, for each of those too. */
  lemma FieldIs(s: string, k: nat)
    requires k < |s|
    ensures |Paren(s)| == |s| + 2 && Paren(s)[0] == '(' && Paren(s)[|s| + 1] == ')'
    ensures Paren(s)[k + 1]
            == if !Printing(s[k]) || (s[k] in {'(', ')'} && !Even(s, 0)) then ' ' else s[k]
  {
    OneLineAt(s, k);
    WithoutParensAt(OneLine(s), k);
    OneLineCloses(s, 0);
    ClosesIffEven(s, 0);
    assert Paren(s)[k + 1] == Content(s)[k];
  }

  /** The reader recovers the content verbatim if and only if it is free of control characters and its
      parentheses are even. */
  lemma FieldVerbatim(s: string)
    ensures Paren(s)[1..|Paren(s)| - 1] == Content(s)
    ensures Content(s) == s <==> (forall c <- s :: Printing(c)) && Even(s, 0)
  {
    OneLineFree(s);
    WithoutParensFree(OneLine(s));
    WithoutParensCloses(OneLine(s));
    ClosesIffEven(s, 0);
    forall c <- s
      ensures Printing(c) <==> !IsControl(c)
    {
      PrintingIs(c);
    }
  }

  // Reading a whole record.

  /** Unicode's White_Space property. */
  predicate IsSpace(c: char) {
    || '\t' <= c <= '\r' || c == ' ' || c == '\U{0085}' || c == '\U{00A0}' || c == '\U{1680}'
    || '\U{2000}' <= c <= '\U{200A}' || c == '\U{2028}' || c == '\U{2029}' || c == '\U{202F}'
    || c == '\U{205F}' || c == '\U{3000}'
  }

  function TrimStart(s: string): (t: string)
    ensures |t| <= |s|
    ensures t != [] ==> !IsSpace(t[0])
  {
    if s != [] && IsSpace(s[0]) then TrimStart(s[1..]) else s
  }

  /** The length of the cell at the front of `s`, up to the next space. */
  function BareLength(s: string): (n: nat)
    ensures n <= |s|
    ensures s != [] && !IsSpace(s[0]) ==> n > 0
  {
    if s == [] || IsSpace(s[0]) then 0 else 1 + BareLength(s[1..])
  }

  /** Where the last `)` stands. */
  function LastClose(s: string): (at: Option<nat>)
    ensures at.Some? ==> at.value < |s|
  {
    if s == [] then None
    else if s[|s| - 1] == ')' then Some(|s| - 1)
    else LastClose(s[..|s| - 1])
  }

  /** The length of the cell at the front of `s`, which does not start with a space. A field whose
      parentheses never balance is taken to the last one that closes, or to the end. */
  function CellLength(s: string): (n: nat)
    ensures n <= |s|
    ensures s != [] && !IsSpace(s[0]) ==> n > 0
  {
    if s == [] || s[0] != '(' then BareLength(s)
    else if Span(s, 0).Some? then Span(s, 0).value
    else if LastClose(s).Some? then LastClose(s).value + 1
    else |s|
  }

  function Cells(line: string): seq<string>
    decreases |line|
  {
    var rest := TrimStart(line);
    if rest == [] then [] else [rest[..CellLength(rest)]] + Cells(rest[CellLength(rest)..])
  }

  method ReadCells(line: string) returns (out: seq<string>)
    ensures out == Cells(line)
  {
    out := [];
    var rest := line;
    while rest != []
      invariant Cells(line) == out + Cells(rest)
      decreases |rest|
    {
      rest := TrimStart(rest);
      if rest != [] {
        var n := CellLength(rest);
        assert out + ([rest[..n]] + Cells(rest[n..])) == out + [rest[..n]] + Cells(rest[n..]);
        out := out + [rest[..n]];
        rest := rest[n..];
      }
    }
  }

  /** One cell of a record as it is written: a bare word, or a string field. */
  datatype Cell = Bare(word: string) | Field(text: string)

  predicate BareWord(word: string) {
    word != [] && word[0] != '(' && forall c <- word :: !IsSpace(c)
  }

  predicate Writable(cell: Cell) {
    cell.Bare? ==> BareWord(cell.word)
  }

  function Written(cell: Cell): string {
    match cell
    case Bare(word) => word
    case Field(text) => Paren(text)
  }

  /** The cells one after the other, a space between each two. */
  function Record(cells: seq<Cell>): string {
    if cells == [] then []
    else if |cells| == 1 then Written(cells[0])
    else Written(cells[0]) + [' '] + Record(cells[1..])
  }

  function WrittenAll(cells: seq<Cell>): seq<string> {
    if cells == [] then [] else [Written(cells[0])] + WrittenAll(cells[1..])
  }

  lemma {:induction false} BareTaken(word: string, rest: string)
    requires forall c <- word :: !IsSpace(c)
    requires rest == [] || IsSpace(rest[0])
    ensures BareLength(word + rest) == |word|
  {
    if word == [] {
      assert word + rest == rest;
    } else {
      Text.TailPlus(word, rest);
      BareTaken(word[1..], rest);
    }
  }

  /** The reader takes one written cell, whatever follows a space. */
  lemma CellTaken(cell: Cell, rest: string)
    requires Writable(cell) && (rest == [] || IsSpace(rest[0]))
    ensures Written(cell) != [] && !IsSpace(Written(cell)[0])
    ensures CellLength(Written(cell) + rest) == |Written(cell)|
  {
    match cell
    case Bare(word) => BareTaken(word, rest);
    case Field(text) => ReaderTakesField(text, rest);
  }

  lemma CellsFirst(cell: Cell, rest: string)
    requires Writable(cell) && (rest == [] || IsSpace(rest[0]))
    ensures Cells(Written(cell) + rest) == [Written(cell)] + Cells(rest)
  {
    CellTaken(cell, rest);
    var line := Written(cell) + rest;
    assert TrimStart(line) == line;
    assert line[..|Written(cell)|] == Written(cell) && line[|Written(cell)|..] == rest;
  }

  lemma CellsAfterSpace(rest: string)
    ensures Cells([' '] + rest) == Cells(rest)
  {
    assert ([' '] + rest)[1..] == rest;
  }

  /** Reading a written record gives back its cells, whatever text its fields hold. */
  lemma {:induction false} RecordReadsBack(cells: seq<Cell>)
    requires forall cell <- cells :: Writable(cell)
    ensures Cells(Record(cells)) == WrittenAll(cells)
  {
    if |cells| == 1 {
      CellsFirst(cells[0], []);
      Text.Unit(Written(cells[0]));
    } else if |cells| > 1 {
      var rest := Record(cells[1..]);
      Text.Assoc(Written(cells[0]), [' '], rest);
      CellsFirst(cells[0], [' '] + rest);
      CellsAfterSpace(rest);
      RecordReadsBack(cells[1..]);
    }
  }

  /** The code points with Unicode's White_Space property. */
  predicate Blank(code: int) {
    || code in {32, 133, 160, 5760, 8232, 8233, 8239, 8287, 12288}
    || 9 <= code <= 13 || 8192 <= code <= 8202
  }

  /** Two bare words are two cells just when what stands between them is white space. */
  lemma SpaceSeparates(a: string, c: char, b: string)
    requires BareWord(a) && BareWord(b)
    ensures Cells(a + [c] + b) == if Blank(c as int) then [a, b] else [a + [c] + b]
  {
    assert IsSpace(c) <==> Blank(c as int);
    if IsSpace(c) {
      Text.Assoc(a, [c], b);
      CellsFirst(Bare(a), [c] + b);
      assert ([c] + b)[1..] == b;
      OneCell(b);
    } else {
      OneCell(a + [c] + b);
    }
  }

  lemma OneCell(word: string)
    requires BareWord(word)
    ensures Cells(word) == [word]
  {
    CellsFirst(Bare(word), []);
    Text.Unit(word);
  }

  lemma {:induction false} LastCloseIs(s: string)
    ensures LastClose(s).None? <==> ')' !in s
    ensures LastClose(s).Some? ==> s[LastClose(s).value] == ')' && ')' !in s[LastClose(s).value + 1..]
  {
    if s != [] {
      var n := |s| - 1;
      assert s == s[..n] + [s[n]];
      LastCloseIs(s[..n]);
      if s[n] != ')' && LastClose(s).Some? {
        var at := LastClose(s).value;
        assert s[at + 1..] == s[..n][at + 1..] + [s[n]];
      }
    }
  }

  /** A field of which no parenthesis closes the first is read up to its last `)`, or to the end without
      one. */
  lemma UnclosedField(s: string)
    requires s != [] && s[0] == '(' && Span(s, 0).None?
    ensures Cells(s) != []
    ensures var first := Cells(s)[0];
            && first != [] && first <= s
            && (if ')' in s then first[|first| - 1] == ')' && ')' !in s[|first|..] else first == s)
  {
    LastCloseIs(s);
    assert TrimStart(s) == s;
  }
}
