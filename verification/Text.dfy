/** Splitting and joining text on one separator character, as Rust's `str::split(char)` and
    `[&str]::join` do. */
module Text {

  /** The parts of `s` between its separators: never empty, and `[""]` for the empty string. */
  function Split(s: string, sep: char): (parts: seq<string>)
    ensures |parts| > 0
  {
    if s == [] then [[]]
    else
      var rest := Split(s[1..], sep);
      if s[0] == sep then [[]] + rest else [[s[0]] + rest[0]] + rest[1..]
  }

  function Join(parts: seq<string>, sep: char): string
    requires |parts| > 0
  {
    if |parts| == 1 then parts[0] else parts[0] + [sep] + Join(parts[1..], sep)
  }

  /** A non-empty sequence is its first element and the rest. */
  lemma HeadTail<T>(s: seq<T>)
    requires s != []
    ensures s == [s[0]] + s[1..]
  {
  }

  lemma Assoc<T>(a: seq<T>, b: seq<T>, c: seq<T>)
    ensures (a + b) + c == a + (b + c)
  {
  }

  lemma TailPlus<T>(a: seq<T>, b: seq<T>)
    requires a != []
    ensures (a + b)[0] == a[0] && (a + b)[1..] == a[1..] + b
  {
  }

  lemma Unit<T>(s: seq<T>)
    ensures [] + s == s && s + [] == s
  {
  }

  ghost predicate Free(s: string, c: char) {
    c !in s
  }

  lemma {:induction false} SplitPartsFree(s: string, sep: char)
    ensures forall part <- Split(s, sep) :: Free(part, sep)
  {
    if s != [] {
      SplitPartsFree(s[1..], sep);
      var rest := Split(s[1..], sep);
      assert rest[0] in rest;
    }
  }

  /** Splitting one part with no separator in it gives that part back. */
  lemma {:induction false} SplitFree(s: string, sep: char)
    requires Free(s, sep)
    ensures Split(s, sep) == [s]
  {
    if s != [] {
      SplitFree(s[1..], sep);
      assert [s[0]] + s[1..] == s;
    }
  }

  lemma {:induction false} SplitCons(part: string, rest: string, sep: char)
    requires Free(part, sep)
    ensures Split(part + [sep] + rest, sep) == [part] + Split(rest, sep)
  {
    var whole := part + [sep] + rest;
    if part == [] {
      assert whole[1..] == rest;
    } else {
      SplitCons(part[1..], rest, sep);
      assert whole[1..] == part[1..] + [sep] + rest;
      assert [part[0]] + part[1..] == part;
    }
  }

  lemma {:induction false} SplitPlus(a: string, b: string, sep: char)
    ensures Split(a + [sep] + b, sep) == Split(a, sep) + Split(b, sep)
  {
    if a == [] {
      Unit([sep]);
      assert ([sep] + b)[1..] == b;
    } else {
      var rest, tail := Split(a[1..], sep), Split(b, sep);
      Assoc(a, [sep], b);
      TailPlus(a, [sep] + b);
      Assoc(a[1..], [sep], b);
      SplitPlus(a[1..], b, sep);
      if a[0] == sep {
        Assoc([[]], rest, tail);
      } else {
        TailPlus(rest, tail);
        Assoc([[a[0]] + rest[0]], rest[1..], tail);
      }
    }
  }

  /** Splitting undoes joining, for a non-empty list of separator-free parts. */
  lemma {:induction false} SplitJoin(parts: seq<string>, sep: char)
    requires |parts| > 0
    requires forall part <- parts :: Free(part, sep)
    ensures Split(Join(parts, sep), sep) == parts
  {
    if |parts| == 1 {
      assert parts[0] in parts;
      SplitFree(parts[0], sep);
    } else {
      assert parts[0] in parts;
      SplitJoin(parts[1..], sep);
      SplitCons(parts[0], Join(parts[1..], sep), sep);
    }
  }

  /** Joining undoes splitting, for every string: so splitting is injective. */
  lemma {:induction false} JoinSplit(s: string, sep: char)
    ensures Join(Split(s, sep), sep) == s
  {
    if s != [] {
      JoinSplit(s[1..], sep);
      var rest := Split(s[1..], sep);
      if s[0] == sep {
        assert ([[]] + rest)[1..] == rest;
      } else {
        var parts := [[s[0]] + rest[0]] + rest[1..];
        assert parts[1..] == rest[1..];
        if |rest| > 1 {
          assert Join(parts, sep) == [s[0]] + Join(rest, sep);
        }
      }
    }
  }

  lemma {:induction false} SplitInjective(a: string, b: string, sep: char)
    requires Split(a, sep) == Split(b, sep)
    ensures a == b
  {
    JoinSplit(a, sep);
    JoinSplit(b, sep);
  }

  /** Where `c` first stands in `s`, or its length. */
  function IndexOf(s: string, c: char): (n: nat)
    ensures n <= |s|
    ensures n < |s| ==> s[n] == c
  {
    if s == [] || s[0] == c then 0 else 1 + IndexOf(s[1..], c)
  }

  lemma {:induction false} IndexFound(a: string, c: char, rest: string)
    requires c !in a
    ensures IndexOf(a + ([c] + rest), c) == |a|
  {
    if a == [] {
      Unit([c] + rest);
    } else {
      TailPlus(a, [c] + rest);
      IndexFound(a[1..], c, rest);
    }
  }
}
