/** What the log says, in the terms of what was sampled: stamps, live records, exit records and the units of
    a whole life. */
module AtopPrints {
  import opened Wrappers
  import opened AtopSample
  import opened AtopLog
  import opened AtopSums

  // Stamps.

  /** Each landed sample carries its snapshot's time, and the seconds since the one before it on disk, or
      since boot; at least one. */
  lemma SampleStamped(turns: seq<Turn>, hertz: nat, k: nat)
    requires k < |Run(turns, hertz).log|
    ensures k < |Landed(turns)|
    ensures var (sample, turn) := (Run(turns, hertz).log[k].sample, Landed(turns)[k]);
            && sample.epoch == turn.cur.epoch
            && var elapsed := if k == 0 then turn.uptime else turn.cur.epoch - Landed(turns)[k - 1].cur.epoch;
               sample.covered == if elapsed < 1 then 1 else elapsed
  {
    LogOfLanded(turns, hertz);
    assert Run(turns, hertz).log[k].sample == SampleAt(Landed(turns), k, hertz);
  }

  // Live records.

  lemma {:induction false} FindIs(ps: seq<Proc>, p: Proc)
    requires Distinct(ps) && p in ps
    ensures Find(ps, p.task.pid) == Some(p)
  {
    var n := |ps| - 1;
    if p in ps[..n] {
      FindIs(ps[..n], p);
    } else {
      assert ps == ps[..n] + [ps[n]];
    }
  }

  lemma {:induction false} FoundIn(ps: seq<Proc>, pid: int)
    requires Find(ps, pid).Some?
    ensures Find(ps, pid).value in ps && Find(ps, pid).value.task.pid == pid
  {
    var n := |ps| - 1;
    if ps[n].task.pid != pid {
      FoundIn(ps[..n], pid);
    }
  }

  /** A distinct snapshot holds the task just when some process of it is that task. */
  lemma SweptIs(ps: seq<Proc>, t: Task)
    requires Distinct(ps)
    ensures Swept(ps, t).None? <==> forall q <- ps :: q.task != t
    ensures forall q <- ps | q.task == t :: Swept(ps, t) == Some(q)
  {
    forall q <- ps | q.task == t
      ensures Swept(ps, t) == Some(q)
    {
      FindIs(ps, q);
    }
    if Swept(ps, t).Some? {
      FoundIn(ps, t.pid);
    }
  }

  /** No exit record of the turn is of this task, by pid and start time. */
  predicate Unreplaced(es: seq<Exit>, t: Task) {
    forall e <- es :: e.task.pid != t.pid || !(-2 <= e.task.btime - t.btime <= 2)
  }

  /** A live record tells its process: new, with whole figures, if the snapshot before did not have the
      task, and with changed wait channels if it is new or has others than before. */
  predicate TellsProc(r: Record, p: Proc, before: seq<Proc>) {
    && !r.exited && r.task == p.task && r.wchans == p.wchans
    && (r.isNew <==> forall q <- before :: q.task != p.task)
    && (r.wchansChanged <==> forall q <- before | q.task == p.task :: q.wchans != p.wchans)
    && (r.isNew ==> r.usage == p.usage)
  }

  function ProcsBefore(ls: seq<Turn>, n: nat): seq<Proc>
    requires n < |ls|
  {
    if n == 0 then [] else ls[n - 1].cur.procs
  }

  lemma LiveTells(prev: Option<Sys>, before: seq<Proc>, p: Proc)
    requires before == if prev.None? then [] else prev.value.procs
    requires Distinct(before)
    ensures TellsProc(LiveRecord(Before(prev, p.task), p), p, before)
  {
    SweptIs(before, p.task);
    var was := Before(prev, p.task);
    if was.Some? {
      FoundIn(before, p.task.pid);
    }
  }

  lemma LiveAmong(prev: Option<Sys>, cur: Sys, es: seq<Exit>, hertz: nat, p: Proc)
    requires p in cur.procs && (prev.Some? ==> Unreplaced(es, p.task))
    ensures LiveRecord(Before(prev, p.task), p) in Records(prev, cur, es, hertz)
  {
    var r := LiveRecord(Before(prev, p.task), p);
    var i: nat :| i < |cur.procs| && cur.procs[i] == p;
    SweptIsRecorded(prev, cur.procs, i);
    RetainedLive(LiveRecords(prev, cur.procs), es, r);
  }

  /** Every process of a landed snapshot that no exit record replaces has a record that tells it. */
  lemma LiveRecordSays(turns: seq<Turn>, hertz: nat, n: nat, p: Proc)
    requires n < |Landed(turns)| && PidsDistinct(Landed(turns)) && p in Landed(turns)[n].cur.procs
    requires n > 0 ==> Unreplaced(Landed(turns)[n].exited, p.task)
    ensures n < |Run(turns, hertz).log|
    ensures exists r <- Run(turns, hertz).log[n].sample.records :: TellsProc(r, p, ProcsBefore(Landed(turns), n))
  {
    var ls := Landed(turns);
    LogOfLanded(turns, hertz);
    assert Run(turns, hertz).log[n].sample == SampleAt(ls, n, hertz);
    var prev := PrevAt(ls, n);
    assert n > 0 ==> Distinct(ls[n - 1].cur.procs);
    LiveTells(prev, ProcsBefore(ls, n), p);
    LiveAmong(prev, ls[n].cur, ls[n].exited, hertz, p);
  }

  // The units of a whole life.

  /** `n` whole units of `unit` in `amount`. */
  predicate Units(n: nat, unit: nat, amount: nat) {
    unit * n <= amount < unit * (n + 1)
  }

  /** What a column of the log should say of a whole life: calls and faults as counted by the kernel, bytes
      in sectors of 512, microseconds in ticks of the clock, delays not at all. */
  predicate LifeSays(n: nat, e: Exit, hertz: nat, c: Column) {
    match c
    case Rio => n == e.readSyscalls
    case Wio => n == e.writeSyscalls
    case Minflt => n == e.minflt
    case Majflt => n == e.majflt
    case Rsz => Units(n, 512, e.readBytes)
    case Wsz => Units(n, 512, e.writeBytes)
    case Cwsz => Units(n, 512, e.cancelledBytes)
    case Utime => Units(n, 1_000_000, e.utimeUs * hertz)
    case Stime => Units(n, 1_000_000, e.stimeUs * hertz)
    case Rundelay | Blkdelay => n == 0
  }

  lemma LifeUnits(e: Exit, hertz: nat, c: Column)
    ensures LifeSays(At(Life(e, hertz), c), e, hertz, c)
  {
  }

  // Exit records.

  /** The figures of a whole life, field by field. */
  predicate Figures(u: Usage, e: Exit, hertz: nat) {
    && Units(u.utime, 1_000_000, e.utimeUs * hertz) && Units(u.stime, 1_000_000, e.stimeUs * hertz)
    && u.minflt == e.minflt && u.majflt == e.majflt && u.rundelay == 0 && u.blkdelay == 0
    && u.rio == e.readSyscalls && Units(u.rsz, 512, e.readBytes)
    && u.wio == e.writeSyscalls && Units(u.wsz, 512, e.writeBytes) && Units(u.cwsz, 512, e.cancelledBytes)
  }

  lemma LifeFigures(e: Exit, hertz: nat)
    ensures Figures(Life(e, hertz), e, hertz)
  {
  }

  /** An exit record tells a death: new, with the figures of the whole life, if the snapshot before did not
      have the task. */
  predicate TellsExit(r: Record, e: Exit, before: seq<Proc>, hertz: nat) {
    && (r.isNew ==> Figures(r.usage, e, hertz))
    && r.exited && r.task == e.task && r.wchans.None?
    && (r.isNew <==> forall q <- before :: e.task.pid != q.task.pid || !(-2 <= e.task.btime - q.task.btime <= 2))
  }

  lemma {:induction false} FirstSameIs(ps: seq<Proc>, t: Task)
    ensures FirstSame(ps, t).None?
            <==> forall q <- ps :: t.pid != q.task.pid || !(-2 <= t.btime - q.task.btime <= 2)
  {
    if ps != [] {
      FirstSameIs(ps[1..], t);
      assert ps == [ps[0]] + ps[1..];
    }
  }

  lemma {:induction false} ExitAmong(prev: Option<Sys>, es: seq<Exit>, hertz: nat, e: Exit)
    requires e in es
    ensures ExitRecord(prev, e, hertz) in ExitRecords(prev, es, hertz)
  {
    var n := |es| - 1;
    if e in es[..n] {
      ExitAmong(prev, es[..n], hertz, e);
    } else {
      assert es == es[..n] + [es[n]];
    }
  }

  /** Every death taken for a landed sample has a record that tells it. */
  lemma ExitRecordSays(turns: seq<Turn>, hertz: nat, n: nat, e: Exit)
    requires n < |Landed(turns)| && e in Landed(turns)[n].exited
    ensures n < |Run(turns, hertz).log|
    ensures exists r <- Run(turns, hertz).log[n].sample.records :: TellsExit(r, e, ProcsBefore(Landed(turns), n), hertz)
  {
    var ls := Landed(turns);
    LogOfLanded(turns, hertz);
    assert Run(turns, hertz).log[n].sample == SampleAt(ls, n, hertz);
    FirstSameIs(ProcsBefore(ls, n), e.task);
    ExitAmong(PrevAt(ls, n), ls[n].exited, hertz, e);
    LifeFigures(e, hertz);
    assert TellsExit(ExitRecord(PrevAt(ls, n), e, hertz), e, ProcsBefore(ls, n), hertz);
  }

  /** A task never swept before its death is in the log with what the kernel counted of it, in the log's
      units, once: over all records, live and exited. */
  lemma UnsweptInUnits(turns: seq<Turn>, hertz: nat, n: nat, j: nat, t: Task, c: Column)
    requires DiesUnswept(Landed(turns), n, j, t)
    ensures var log := Run(turns, hertz).log;
            LifeSays(LogTally(log, |log|, t, Some(c)), Landed(turns)[n].exited[j], hertz, c)
  {
    UnsweptPrintedOnce(turns, hertz, n, j, t);
    LifeUnits(Landed(turns)[n].exited[j], hertz, c);
  }
}
