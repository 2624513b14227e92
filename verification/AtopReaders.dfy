/** What a reader of the log knows: the current wait channels, and one stack dump a stall. */
module AtopReaders {
  import opened Wrappers
  import opened AtopSample
  import opened AtopLog
  import opened AtopSums

  // Wait channels.

  /** The histogram a record carries as a PRW line, if it carries one. */
  function Line(r: Record): Option<Histogram> {
    if r.wchansChanged then r.wchans else None
  }

  /** A reader that keeps the last PRW line of each pid, over the records of one sample. */
  function ReadRecords(known: map<int, Histogram>, rs: seq<Record>): map<int, Histogram> {
    if rs == [] then known
    else
      var r := rs[|rs| - 1];
      var before := ReadRecords(known, rs[..|rs| - 1]);
      if Line(r).Some? then before[r.task.pid := Line(r).value] else before
  }

  function Read(log: seq<Entry>, n: nat): map<int, Histogram>
    requires n <= |log|
  {
    if n == 0 then map[] else ReadRecords(Read(log, n - 1), log[n - 1].sample.records)
  }

  predicate Knows(known: map<int, Histogram>, pid: int, h: Histogram) {
    pid in known && known[pid] == h
  }

  lemma {:induction false} ReadJoins(known: map<int, Histogram>, a: seq<Record>, b: seq<Record>)
    ensures ReadRecords(known, a + b) == ReadRecords(ReadRecords(known, a), b)
  {
    if b == [] {
      assert a + b == a;
    } else {
      assert (a + b)[..|a + b| - 1] == a + b[..|b| - 1];
      ReadJoins(known, a, b[..|b| - 1]);
    }
  }

  lemma {:induction false} ExitsCarryNone(known: map<int, Histogram>, prev: Option<Sys>, es: seq<Exit>,
                                          hertz: nat)
    ensures ReadRecords(known, ExitRecords(prev, es, hertz)) == known
  {
    if es != [] {
      var init := es[..|es| - 1];
      ExitsCarryNone(known, prev, init, hertz);
      ReadJoins(known, ExitRecords(prev, init, hertz), [ExitRecord(prev, es[|es| - 1], hertz)]);
    }
  }

  /** What the reader knows of `pid` after the live records: the line of the process that has it, or
      what it knew. */
  predicate LineRead(known: map<int, Histogram>, known': map<int, Histogram>, pid: int,
                     line: Option<Histogram>)
  {
    match line
    case Some(h) => Knows(known', pid, h)
    case None => pid in known ==> Knows(known', pid, known[pid])
  }

  /** The line of the live record kept for the process that has `pid`. */
  function LineOf(prev: Option<Sys>, ps: seq<Proc>, es: seq<Exit>, pid: int): Option<Histogram> {
    var found := Find(ps, pid);
    if found.None? || (prev.Some? && Replaced(es, found.value.task)) then None
    else Line(LiveRecord(Before(prev, found.value.task), found.value))
  }

  function Kept(prev: Option<Sys>, ps: seq<Proc>, es: seq<Exit>): seq<Record> {
    if prev.None? then LiveRecords(prev, ps) else Retained(LiveRecords(prev, ps), es)
  }

  lemma KeptMore(prev: Option<Sys>, ps: seq<Proc>, es: seq<Exit>)
    requires ps != []
    ensures var (n, p) := (|ps| - 1, ps[|ps| - 1]);
            Kept(prev, ps, es)
            == Kept(prev, ps[..n], es)
               + if prev.Some? && Replaced(es, p.task) then [] else [LiveRecord(Before(prev, p.task), p)]
  {
    var (n, p) := (|ps| - 1, ps[|ps| - 1]);
    var (init, last) := (LiveRecords(prev, ps[..n]), LiveRecord(Before(prev, p.task), p));
    assert (init + [last])[..|init|] == init;
  }

  lemma ReadOne(known: map<int, Histogram>, r: Record)
    ensures ReadRecords(known, [r])
            == if Line(r).Some? then known[r.task.pid := Line(r).value] else known
  {
  }

  lemma {:induction false} LiveRead(known: map<int, Histogram>, prev: Option<Sys>, ps: seq<Proc>,
                                    es: seq<Exit>, pid: int)
    requires Distinct(ps)
    ensures LineRead(known, ReadRecords(known, Kept(prev, ps, es)), pid, LineOf(prev, ps, es, pid))
  {
    if ps != [] {
      var (n, p) := (|ps| - 1, ps[|ps| - 1]);
      LiveRead(known, prev, ps[..n], es, pid);
      KeptMore(prev, ps, es);
      var (init, last) := (Kept(prev, ps[..n], es), LiveRecord(Before(prev, p.task), p));
      if prev.Some? && Replaced(es, p.task) {
        assert Kept(prev, ps, es) == init;
      } else {
        ReadJoins(known, init, [last]);
        ReadOne(ReadRecords(known, init), last);
      }
    }
  }

  lemma SampleRead(known: map<int, Histogram>, prev: Option<Sys>, cur: Sys, es: seq<Exit>, hertz: nat,
                   pid: int)
    requires Distinct(cur.procs)
    ensures LineRead(known, ReadRecords(known, Records(prev, cur, es, hertz)), pid,
                     LineOf(prev, cur.procs, es, pid))
  {
    var kept := Kept(prev, cur.procs, es);
    LiveRead(known, prev, cur.procs, es, pid);
    ReadJoins(known, kept, ExitRecords(prev, es, hertz));
    ExitsCarryNone(ReadRecords(known, kept), prev, es, hertz);
  }

  /** A task reported exited in a landed sample is in no later landed snapshot. */
  ghost predicate NoReturn(ls: seq<Turn>) {
    forall i: nat, j: nat, t: Task | i < j < |ls| && Replaced(ls[i].exited, t) ::
      Swept(ls[j].cur.procs, t).None?
  }

  /** Snapshot `n` holds multi-threaded task `t` with histogram `h`, and no exit record of its sample
      replaced it. */
  predicate Stands(ls: seq<Turn>, n: nat, t: Task, h: Histogram) {
    && n < |ls| && Swept(ls[n].cur.procs, t).Some? && Swept(ls[n].cur.procs, t).value.wchans == Some(h)
    && (n > 0 ==> !Replaced(ls[n].exited, t))
  }

  lemma StandsLine(ls: seq<Turn>, n: nat, t: Task, h: Histogram)
    requires Stands(ls, n, t, h) && NoReturn(ls)
    ensures LineOf(PrevAt(ls, n), ls[n].cur.procs, ls[n].exited, t.pid) == Some(h)
            || (n > 0 && Stands(ls, n - 1, t, h))
  {
    SweptTask(ls[n].cur.procs, t);
    if n > 0 && Swept(ls[n - 1].cur.procs, t).Some? {
      assert !Replaced(ls[n - 1].exited, t);
    }
  }

  lemma OneSampleRead(log: seq<Entry>, ls: seq<Turn>, hertz: nat, n: nat, pid: int)
    requires LogFits(log, ls, hertz) && PidsDistinct(ls) && n < |ls|
    ensures LineRead(Read(log, n), Read(log, n + 1), pid,
                     LineOf(PrevAt(ls, n), ls[n].cur.procs, ls[n].exited, pid))
  {
    assert log[n].sample == SampleAt(ls, n, hertz);
    assert Distinct(ls[n].cur.procs);
    SampleRead(Read(log, n), PrevAt(ls, n), ls[n].cur, ls[n].exited, hertz, pid);
  }

  lemma {:induction false} ReadAt(log: seq<Entry>, ls: seq<Turn>, hertz: nat, n: nat, t: Task, h: Histogram)
    requires LogFits(log, ls, hertz) && PidsDistinct(ls) && NoReturn(ls) && Stands(ls, n, t, h)
    ensures Knows(Read(log, n + 1), t.pid, h)
  {
    OneSampleRead(log, ls, hertz, n, t.pid);
    StandsLine(ls, n, t, h);
    if LineOf(PrevAt(ls, n), ls[n].cur.procs, ls[n].exited, t.pid) != Some(h) {
      NoLine(ls, n, t, h);
      ReadAt(log, ls, hertz, n - 1, t, h);
    }
  }

  lemma NoLine(ls: seq<Turn>, n: nat, t: Task, h: Histogram)
    requires Stands(ls, n, t, h)
    requires LineOf(PrevAt(ls, n), ls[n].cur.procs, ls[n].exited, t.pid) != Some(h)
    ensures LineOf(PrevAt(ls, n), ls[n].cur.procs, ls[n].exited, t.pid) == None
  {
    SweptTask(ls[n].cur.procs, t);
  }

  /** For every run, whatever writes failed: a reader of the PRW lines alone holds, after every landed
      sample, the current histogram of each multi-threaded live task in it that no exit record
      replaced, provided a task reported exited never comes back. */
  lemma ReaderIsCurrent(turns: seq<Turn>, hertz: nat, n: nat, t: Task, h: Histogram)
    requires PidsDistinct(Landed(turns)) && NoReturn(Landed(turns)) && Stands(Landed(turns), n, t, h)
    ensures n < |Run(turns, hertz).log| && Knows(Read(Run(turns, hertz).log, n + 1), t.pid, h)
  {
    LogOfLanded(turns, hertz);
    ReadAt(Run(turns, hertz).log, Landed(turns), hertz, n, t, h);
  }
}
