/** What a pattern with wildcards means, and why a matcher may forget every wildcard but the last.

    Both matchers of the archive globs have this shape: a pattern is a sequence of items, each
    either a wildcard standing for any run of inputs or an item taking exactly one input. The
    module is generic in both, so that `*` over characters and `**` over path segments share one
    theory. */
module Wildcard {

  /** `p[i..]` matches `s[j..]`: the plain recursive meaning, every wildcard free to take any run. */
  ghost predicate Matches<P(!new), S(!new)>(wild: P -> bool, one: (P, S) -> bool,
                                            p: seq<P>, i: nat, s: seq<S>, j: nat)
    requires i <= |p| && j <= |s|
    decreases |p| - i
  {
    if i == |p| then j == |s|
    else
      var next: nat := i + 1;
      if wild(p[i]) then exists k: nat :: j <= k <= |s| && Matches(wild, one, p, next, s, k)
      else j < |s| && one(p[i], s[j]) && Matches(wild, one, p, next, s, j + 1)
  }

  /** Whether every item of `p[i..]` is a wildcard: what is left to check at the input's end. */
  predicate AllWild<P>(wild: P -> bool, p: seq<P>, i: nat)
    requires i <= |p|
  {
    forall k | i <= k < |p| :: wild(p[k])
  }

  ghost predicate NoWild<P>(wild: P -> bool, p: seq<P>, lo: nat, hi: nat)
    requires lo <= hi <= |p|
  {
    forall k | lo <= k < hi :: !wild(p[k])
  }

  lemma {:induction false} MatchesAtEnd<P(!new), S(!new)>(wild: P -> bool, one: (P, S) -> bool,
                                                          p: seq<P>, i: nat, s: seq<S>)
    requires i <= |p|
    ensures Matches(wild, one, p, i, s, |s|) <==> AllWild(wild, p, i)
    decreases |p| - i
  {
    if i < |p| {
      MatchesAtEnd(wild, one, p, i + 1, s);
    }
  }

  /** Items without a wildcard take exactly one input each. */
  lemma {:induction false} FixedRun<P(!new), S(!new)>(wild: P -> bool, one: (P, S) -> bool,
                                                      p: seq<P>, lo: nat, hi: nat, s: seq<S>, j: nat)
    requires lo <= hi <= |p| && j <= |s|
    requires NoWild(wild, p, lo, hi)
    requires Matches(wild, one, p, lo, s, j)
    ensures j + (hi - lo) <= |s| && Matches(wild, one, p, hi, s, j + (hi - lo))
    decreases hi - lo
  {
    if lo < hi {
      FixedRun(wild, one, p, lo + 1, hi, s, j + 1);
    }
  }

  /** A wildcard at `i` reached with the input at `j` absorbs any match that starts later. */
  lemma WildAbsorbs<P(!new), S(!new)>(wild: P -> bool, one: (P, S) -> bool,
                                      p: seq<P>, i: nat, s: seq<S>, j: nat, later: nat)
    requires i < |p| && wild(p[i]) && j <= later <= |s|
    requires Matches(wild, one, p, i, s, later)
    ensures Matches(wild, one, p, i, s, j)
  {
    var k: nat :| later <= k <= |s| && Matches(wild, one, p, i + 1, s, k);
  }

  /** The last wildcard seen: where the pattern resumes after it, and where in the input it last
      did. */
  datatype Last = NoneYet | Seen(resume: nat, at: nat)

  /** Whether some retry is left: the last wildcard taking more of the input than it last did. */
  ghost predicate Retry<P(!new), S(!new)>(wild: P -> bool, one: (P, S) -> bool,
                                          p: seq<P>, s: seq<S>, last: Last)
  {
    last.Seen? && last.resume <= |p| &&
    exists k: nat :: last.at < k <= |s| && Matches(wild, one, p, last.resume, s, k)
  }

  /** What a matcher that remembers only the last wildcard keeps, at pattern index `i` and input
      index `j`: the whole question is equivalent to matching here or retrying there. */
  ghost predicate Kept<P(!new), S(!new)>(wild: P -> bool, one: (P, S) -> bool,
                                         p: seq<P>, s: seq<S>, i: nat, j: nat, last: Last)
  {
    && i <= |p| && j <= |s|
    && (last.Seen? ==>
      && last.resume <= i && last.at <= j && i - last.resume == j - last.at
      && NoWild(wild, p, last.resume, i))
    && (Matches(wild, one, p, 0, s, 0) <==>
        Matches(wild, one, p, i, s, j) || Retry(wild, one, p, s, last))
  }

  /** Dropping an earlier wildcard's remaining choices at a later wildcard loses nothing: the items
      between the two take the same number of inputs wherever they start, so whatever an earlier
      retry could reach, the later wildcard reaches too. */
  lemma EarlierWildcardDropped<P(!new), S(!new)>(wild: P -> bool, one: (P, S) -> bool,
                                                 p: seq<P>, s: seq<S>, i: nat, j: nat, last: Last)
    requires Kept(wild, one, p, s, i, j, last)
    requires i < |p| && wild(p[i])
    ensures Kept(wild, one, p, s, i + 1, j, Seen(i + 1, j))
  {
    if Matches(wild, one, p, i, s, j) {
      var k: nat :| j <= k <= |s| && Matches(wild, one, p, i + 1, s, k);
      assert k > j ==> Retry(wild, one, p, s, Seen(i + 1, j));
    }
    if Retry(wild, one, p, s, last) {
      var k: nat :| last.at < k <= |s| && Matches(wild, one, p, last.resume, s, k);
      FixedRun(wild, one, p, last.resume, i, s, k);
      WildAbsorbs(wild, one, p, i, s, j, k + (i - last.resume));
    }
  }

  lemma StepKept<P(!new), S(!new)>(wild: P -> bool, one: (P, S) -> bool,
                                   p: seq<P>, s: seq<S>, i: nat, j: nat, last: Last)
    requires Kept(wild, one, p, s, i, j, last)
    requires i < |p| && j < |s| && !wild(p[i]) && one(p[i], s[j])
    ensures Kept(wild, one, p, s, i + 1, j + 1, last)
  {
  }

  lemma RetryKept<P(!new), S(!new)>(wild: P -> bool, one: (P, S) -> bool,
                                    p: seq<P>, s: seq<S>, i: nat, j: nat, last: Last)
    requires Kept(wild, one, p, s, i, j, last)
    requires j < |s| && last.Seen? && !Matches(wild, one, p, i, s, j)
    ensures Kept(wild, one, p, s, last.resume, last.at + 1, Seen(last.resume, last.at + 1))
  {
    var next := Seen(last.resume, last.at + 1);
    if Retry(wild, one, p, s, last) {
      var k: nat :| last.at < k <= |s| && Matches(wild, one, p, last.resume, s, k);
      if k > last.at + 1 {
        assert Retry(wild, one, p, s, next);
      }
    }
  }

  /** At the input's end no retry is left: it would run past the end. */
  lemma NoRetryAtEnd<P(!new), S(!new)>(wild: P -> bool, one: (P, S) -> bool,
                                       p: seq<P>, s: seq<S>, i: nat, last: Last)
    requires Kept(wild, one, p, s, i, |s|, last)
    ensures Matches(wild, one, p, 0, s, 0) <==> AllWild(wild, p, i)
  {
    MatchesAtEnd(wild, one, p, i, s);
    if Retry(wild, one, p, s, last) {
      var k: nat :| last.at < k <= |s| && Matches(wild, one, p, last.resume, s, k);
      FixedRun(wild, one, p, last.resume, i, s, k);
    }
  }

  /** The (pattern, input) positions a matcher has already been at: none of them is ahead, so the
      loop never comes back to one. */
  ghost predicate Behind<P>(wild: P -> bool, p: seq<P>, n: nat, i: nat, j: nat, last: Last,
                            seen: set<(nat, nat)>)
    requires i <= |p|
  {
    forall v <- seen ::
      && v.0 <= |p| && v.1 < n
      && match last
         case NoneYet => v.0 < i
         case Seen(resume, at) =>
           || v.0 < resume
           || (NoWild(wild, p, resume, v.0) &&
               (v.1 - (v.0 - resume) < at || (v.1 - (v.0 - resume) == at && v.0 < i)))
  }

  /** Where a matcher goes from one position, with the wildcard it then remembers. */
  ghost predicate Moves<P>(wild: P -> bool, p: seq<P>, i: nat, j: nat, last: Last,
                           i': nat, j': nat, last': Last)
    requires i <= |p|
  {
    || (i < |p| && wild(p[i]) && i' == i + 1 && j' == j && last' == Seen(i', j'))
    || (i < |p| && !wild(p[i]) && i' == i + 1 && j' == j + 1 && last' == last)
    || (last.Seen? && i' == last.resume && j' == last.at + 1 && last' == Seen(i', j'))
  }

  /** Every move leaves its position behind for good. */
  lemma MovesForward<P>(wild: P -> bool, p: seq<P>, n: nat, i: nat, j: nat, last: Last,
                        i': nat, j': nat, last': Last, seen: set<(nat, nat)>)
    requires i <= |p| && j < n && i' <= |p|
    requires last.Seen? ==>
               && last.resume <= i && last.at <= j && i - last.resume == j - last.at
               && NoWild(wild, p, last.resume, i)
    requires Behind(wild, p, n, i, j, last, seen)
    requires Moves(wild, p, i, j, last, i', j', last')
    ensures (i, j) !in seen
    ensures Behind(wild, p, n, i', j', last', seen + {(i, j)})
  {
  }

  /** At most one visit per position: `pattern length + 1` times the input length in all. */
  lemma {:induction false} VisitsBounded(seen: set<(nat, nat)>, rows: nat, columns: nat)
    requires forall v <- seen :: v.0 < rows && v.1 < columns
    ensures |seen| <= rows * columns
  {
    if rows == 0 {
      assert seen == {};
    } else {
      var row := set v <- seen | v.0 == rows - 1;
      RowBounded(row, rows - 1, columns);
      VisitsBounded(seen - row, rows - 1, columns);
      assert |seen| == |seen - row| + |row|;
      assert rows * columns == (rows - 1) * columns + columns;
    }
  }

  lemma {:induction false} RowBounded(row: set<(nat, nat)>, r: nat, columns: nat)
    requires forall v <- row :: v.0 == r && v.1 < columns
    ensures |row| <= columns
  {
    if columns == 0 {
      assert row == {};
    } else {
      RowBounded(row - {(r, columns - 1)}, r, columns - 1);
    }
  }
}
