/** What the printed differences of a whole log add up to. */
module AtopSums {
  import opened Wrappers
  import opened AtopSample
  import opened AtopLog

  // Differences of one counter.

  /** The sum of the first `n` printed differences of a counter, its first value printed whole. */
  function DeltaSum(vs: seq<nat>, n: nat): nat
    requires n <= |vs|
  {
    if n == 0 then 0
    else DeltaSum(vs, n - 1) + if n == 1 then vs[0] else Sub(vs[n - 1], vs[n - 2])
  }

  predicate Rising(vs: seq<nat>, n: nat)
    requires n <= |vs|
  {
    forall i: nat, j: nat | i <= j < n :: vs[i] <= vs[j]
  }

  /** The differences never lose anything, and are exact just when the counter never went back. */
  lemma {:induction false} DeltaSumExact(vs: seq<nat>, n: nat)
    requires 0 < n <= |vs|
    ensures DeltaSum(vs, n) >= vs[n - 1]
    ensures DeltaSum(vs, n) == vs[n - 1] <==> Rising(vs, n)
  {
    if n > 1 {
      DeltaSumExact(vs, n - 1);
      assert Rising(vs, n) <==> Rising(vs, n - 1) && vs[n - 2] <= vs[n - 1];
    }
  }

  lemma {:induction false} DeltaSumPrefix(vs: seq<nat>, v: nat, n: nat)
    requires n <= |vs|
    ensures DeltaSum(vs + [v], n) == DeltaSum(vs, n)
  {
    if n > 0 {
      DeltaSumPrefix(vs, v, n - 1);
    }
  }

  // System counters.

  /** What sample `i` prints for counter `k`. */
  function CounterPrinted(log: seq<Entry>, i: nat, k: Counter): nat
    requires i < |log|
  {
    var printed := log[i].sample.counters;
    if k in printed then printed[k] else 0
  }

  function CounterTotal(log: seq<Entry>, a: nat, n: nat, k: Counter): nat
    requires a <= n <= |log|
    decreases n
  {
    if a == n then 0 else CounterTotal(log, a, n - 1, k) + CounterPrinted(log, n - 1, k)
  }

  /** From snapshot `a` on, counter `k` takes the values `vs`. */
  predicate CounterTakes(ls: seq<Turn>, a: nat, k: Counter, vs: seq<nat>) {
    && a + |vs| == |ls|
    && forall i: nat | i < |vs| :: ValueAt(ls, a + i, k, vs[i])
  }

  predicate ValueAt(ls: seq<Turn>, i: nat, k: Counter, v: nat) {
    i < |ls| && k in ls[i].cur.counters && ls[i].cur.counters[k] == v
  }

  /** A counter is new at `a`: the first sample, or one that the snapshot before did not have. */
  predicate AppearsAt(ls: seq<Turn>, a: nat, k: Counter)
    requires a <= |ls|
  {
    a == 0 || k !in ls[a - 1].cur.counters
  }

  /** A processor that came online between two samples: its first value is not printed. */
  predicate CameOnline(a: nat, k: Counter) {
    a > 0 && k.Processor?
  }

  predicate PrintsDelta(log: seq<Entry>, a: nat, k: Counter, vs: seq<nat>, i: nat)
    requires i < |vs| && a + |vs| == |log|
  {
    CounterPrinted(log, a + i, k)
    == if i > 0 then Sub(vs[i], vs[i - 1]) else if CameOnline(a, k) then 0 else vs[0]
  }

  lemma CounterAt(log: seq<Entry>, ls: seq<Turn>, hertz: nat, a: nat, k: Counter, vs: seq<nat>, i: nat)
    requires LogFits(log, ls, hertz) && CounterTakes(ls, a, k, vs) && i < |vs| && AppearsAt(ls, a, k)
    ensures PrintsDelta(log, a, k, vs, i)
  {
    assert ValueAt(ls, a + i, k, vs[i]);
    if i > 0 {
      assert ValueAt(ls, a + (i - 1), k, vs[i - 1]);
    }
    assert log[a + i].sample == SampleAt(ls, a + i, hertz);
  }

  predicate PrintsDeltas(log: seq<Entry>, a: nat, k: Counter, vs: seq<nat>)
    requires a + |vs| == |log|
  {
    forall i: nat | i < |vs| :: PrintsDelta(log, a, k, vs, i)
  }

  lemma CounterAll(log: seq<Entry>, ls: seq<Turn>, hertz: nat, a: nat, k: Counter, vs: seq<nat>)
    requires LogFits(log, ls, hertz) && CounterTakes(ls, a, k, vs) && AppearsAt(ls, a, k)
    ensures PrintsDeltas(log, a, k, vs)
  {
    forall i: nat | i < |vs|
      ensures PrintsDelta(log, a, k, vs, i)
    {
      CounterAt(log, ls, hertz, a, k, vs, i);
    }
  }

  lemma {:induction false} CounterTotals(log: seq<Entry>, a: nat, k: Counter, vs: seq<nat>, n: nat)
    requires a + |vs| == |log| && 0 < n <= |vs|
    requires PrintsDeltas(log, a, k, vs)
    ensures CounterTotal(log, a, a + n, k) + (if CameOnline(a, k) then vs[0] else 0)
            == DeltaSum(vs, n)
  {
    assert PrintsDelta(log, a, k, vs, n - 1);
    if n > 1 {
      CounterTotals(log, a, k, vs, n - 1);
    }
  }

  /** What the log prints for `k` from sample `a` on adds up to at least its last value, and to exactly
      that if and only if it never went back. A processor that came online later is counted from the
      value it came with. */
  predicate CounterAddsUp(log: seq<Entry>, a: nat, k: Counter, vs: seq<nat>)
    requires vs != [] && a <= |log|
  {
    var total := CounterTotal(log, a, |log|, k) + if CameOnline(a, k) then vs[0] else 0;
    && total >= vs[|vs| - 1]
    && (total == vs[|vs| - 1] <==> Rising(vs, |vs|))
  }

  lemma CounterExact(log: seq<Entry>, a: nat, k: Counter, vs: seq<nat>)
    requires vs != [] && a + |vs| == |log| && PrintsDeltas(log, a, k, vs)
    ensures CounterAddsUp(log, a, k, vs)
  {
    CounterTotals(log, a, k, vs, |vs|);
    DeltaSumExact(vs, |vs|);
  }

  /** For every run, whatever writes failed, a counter's printed differences add up from the sample it
      appears in. */
  lemma CounterConserved(turns: seq<Turn>, hertz: nat, a: nat, k: Counter, vs: seq<nat>)
    requires vs != [] && CounterTakes(Landed(turns), a, k, vs) && AppearsAt(Landed(turns), a, k)
    ensures |Run(turns, hertz).log| == |Landed(turns)|
    ensures CounterAddsUp(Run(turns, hertz).log, a, k, vs)
  {
    LogOfLanded(turns, hertz);
    CounterAll(Run(turns, hertz).log, Landed(turns), hertz, a, k, vs);
    CounterExact(Run(turns, hertz).log, a, k, vs);
  }

  // Interval columns.

  function CoveredTotal(log: seq<Entry>, n: nat): nat
    requires n <= |log|
  {
    if n <= 1 then 0 else CoveredTotal(log, n - 1) + log[n - 1].sample.covered
  }

  predicate ClockAdvances(ls: seq<Turn>, n: nat)
    requires n <= |ls|
  {
    forall i: nat, j: nat | i < j < n :: ls[i].cur.epoch < ls[j].cur.epoch
  }

  lemma ClockOneMore(ls: seq<Turn>, n: nat)
    requires 1 <= n < |ls|
    ensures ClockAdvances(ls, n + 1)
            <==> ClockAdvances(ls, n) && ls[n - 1].cur.epoch < ls[n].cur.epoch
  {
  }

  lemma CoveredIs(log: seq<Entry>, ls: seq<Turn>, hertz: nat, k: nat)
    requires LogFits(log, ls, hertz) && 0 < k < |ls|
    ensures var elapsed := ls[k].cur.epoch - ls[k - 1].cur.epoch;
            log[k].sample.covered == if elapsed > 1 then elapsed else 1
  {
    assert log[k].sample == SampleAt(ls, k, hertz);
  }

  /** The first `n` intervals cover the time between their ends, exactly if the clock advanced. */
  predicate Spans(log: seq<Entry>, ls: seq<Turn>, n: nat)
    requires 1 <= n <= |ls| && n <= |log|
  {
    var span := ls[n - 1].cur.epoch - ls[0].cur.epoch;
    && CoveredTotal(log, n) >= span
    && (CoveredTotal(log, n) == span <==> ClockAdvances(ls, n))
  }

  lemma {:induction false} CoveredTotals(log: seq<Entry>, ls: seq<Turn>, hertz: nat, n: nat)
    requires LogFits(log, ls, hertz) && 1 <= n <= |ls|
    ensures Spans(log, ls, n)
  {
    if n > 1 {
      CoveredTotals(log, ls, hertz, n - 1);
      ClockOneMore(ls, n - 1);
      CoveredIs(log, ls, hertz, n - 1);
    }
  }

  /** The interval columns after the first cover the time from the first landed sample to the last:
      exactly, if and only if the clock advanced between any two of them. */
  lemma IntervalsCoverTheRun(turns: seq<Turn>, hertz: nat)
    requires Landed(turns) != []
    ensures |Run(turns, hertz).log| == |Landed(turns)|
    ensures Spans(Run(turns, hertz).log, Landed(turns), |Landed(turns)|)
  {
    LogOfLanded(turns, hertz);
    CoveredTotals(Run(turns, hertz).log, Landed(turns), hertz, |Landed(turns)|);
  }

  // Tasks.

  function TaskTotal(log: seq<Entry>, a: nat, n: nat, t: Task, c: Column): nat
    requires a <= n <= |log|
    decreases n
  {
    if a == n then 0
    else TaskTotal(log, a, n - 1, t, c) + Printed(log[n - 1].sample.records, t, c)
  }

  /** Snapshot `i` holds `t` with figure `v`, and no exit record of its sample replaces it. */
  predicate AliveAt(ls: seq<Turn>, i: nat, t: Task, c: Column, v: nat) {
    && i < |ls| && Swept(ls[i].cur.procs, t).Some? && (i > 0 ==> !Replaced(ls[i].exited, t))
    && At(Swept(ls[i].cur.procs, t).value.usage, c) == v
  }

  /** In the snapshots from `a` on, task `t` is alive with the figures `vs` in column `c`. */
  predicate TaskTakes(ls: seq<Turn>, a: nat, t: Task, c: Column, vs: seq<nat>) {
    a + |vs| <= |ls| && forall i: nat | i < |vs| :: AliveAt(ls, a + i, t, c, vs[i])
  }

  predicate StartsAt(ls: seq<Turn>, a: nat, t: Task)
    requires a <= |ls|
  {
    a == 0 || Swept(ls[a - 1].cur.procs, t).None?
  }

  predicate PidsDistinct(ls: seq<Turn>) {
    forall turn <- ls :: Distinct(turn.cur.procs)
  }

  predicate PrintsTask(log: seq<Entry>, a: nat, t: Task, c: Column, vs: seq<nat>, i: nat)
    requires i < |vs| && a + |vs| <= |log|
  {
    Printed(log[a + i].sample.records, t, c) == if i > 0 then Sub(vs[i], vs[i - 1]) else vs[0]
  }

  lemma PrintedAt(log: seq<Entry>, ls: seq<Turn>, hertz: nat, k: nat, t: Task, c: Column)
    requires LogFits(log, ls, hertz) && PidsDistinct(ls) && k < |ls|
    requires Swept(ls[k].cur.procs, t).Some? && (k > 0 ==> !Replaced(ls[k].exited, t))
    ensures var v := At(Swept(ls[k].cur.procs, t).value.usage, c);
            Printed(log[k].sample.records, t, c)
            == if Before(PrevAt(ls, k), t).None? then v
               else Sub(v, At(Before(PrevAt(ls, k), t).value.usage, c))
  {
    assert log[k].sample == SampleAt(ls, k, hertz);
    assert Distinct(ls[k].cur.procs);
    SamplePrinted(PrevAt(ls, k), ls[k].cur, ls[k].exited, hertz, t, c);
  }

  lemma TaskAt(log: seq<Entry>, ls: seq<Turn>, hertz: nat, a: nat, t: Task, c: Column, vs: seq<nat>,
               i: nat)
    requires LogFits(log, ls, hertz) && PidsDistinct(ls)
    requires TaskTakes(ls, a, t, c, vs) && i < |vs| && StartsAt(ls, a, t)
    ensures PrintsTask(log, a, t, c, vs, i)
  {
    assert AliveAt(ls, a + i, t, c, vs[i]);
    if i > 0 {
      assert AliveAt(ls, a + (i - 1), t, c, vs[i - 1]);
    }
    PrintedAt(log, ls, hertz, a + i, t, c);
  }

  predicate PrintsTasks(log: seq<Entry>, a: nat, t: Task, c: Column, vs: seq<nat>)
    requires a + |vs| <= |log|
  {
    forall i: nat | i < |vs| :: PrintsTask(log, a, t, c, vs, i)
  }

  lemma TaskAll(log: seq<Entry>, ls: seq<Turn>, hertz: nat, a: nat, t: Task, c: Column, vs: seq<nat>)
    requires LogFits(log, ls, hertz) && PidsDistinct(ls)
    requires TaskTakes(ls, a, t, c, vs) && StartsAt(ls, a, t)
    ensures PrintsTasks(log, a, t, c, vs)
  {
    forall i: nat | i < |vs|
      ensures PrintsTask(log, a, t, c, vs, i)
    {
      TaskAt(log, ls, hertz, a, t, c, vs, i);
    }
  }

  lemma {:induction false} TaskSum(log: seq<Entry>, a: nat, t: Task, c: Column, vs: seq<nat>, n: nat)
    requires a + |vs| <= |log| && 0 < n <= |vs|
    requires PrintsTasks(log, a, t, c, vs)
    ensures TaskTotal(log, a, a + n, t, c) == DeltaSum(vs, n)
  {
    assert PrintsTask(log, a, t, c, vs, n - 1);
    if n > 1 {
      TaskSum(log, a, t, c, vs, n - 1);
    }
  }

  /** What the log prints for `t` in the samples from `a` on adds up to at least its last figure, and to
      exactly that if and only if the figure never went back. */
  predicate TaskAddsUp(log: seq<Entry>, a: nat, t: Task, c: Column, vs: seq<nat>)
    requires vs != [] && a + |vs| <= |log|
  {
    var total := TaskTotal(log, a, a + |vs|, t, c);
    && total >= vs[|vs| - 1]
    && (total == vs[|vs| - 1] <==> Rising(vs, |vs|))
  }

  lemma TaskExact(log: seq<Entry>, a: nat, t: Task, c: Column, vs: seq<nat>)
    requires vs != [] && a + |vs| <= |log| && PrintsTasks(log, a, t, c, vs)
    ensures TaskAddsUp(log, a, t, c, vs)
  {
    TaskSum(log, a, t, c, vs, |vs|);
    DeltaSumExact(vs, |vs|);
  }

  /** For every run, whatever writes failed: while a task is in every landed snapshot since its first
      and no exit record replaces it, its printed differences add up. */
  lemma TaskConserved(turns: seq<Turn>, hertz: nat, a: nat, t: Task, c: Column, vs: seq<nat>)
    requires PidsDistinct(Landed(turns))
    requires vs != [] && TaskTakes(Landed(turns), a, t, c, vs) && StartsAt(Landed(turns), a, t)
    ensures |Run(turns, hertz).log| == |Landed(turns)|
    ensures TaskAddsUp(Run(turns, hertz).log, a, t, c, vs)
  {
    LogOfLanded(turns, hertz);
    TaskAll(Run(turns, hertz).log, Landed(turns), hertz, a, t, c, vs);
    TaskExact(Run(turns, hertz).log, a, t, c, vs);
  }

  // Exits.

  lemma {:induction false} SameFound(ps: seq<Proc>, t: Task, e: Task)
    requires Distinct(ps) && Swept(ps, t).Some? && SameTask(e, t)
    ensures FirstSame(ps, e) == Swept(ps, t)
  {
    var n := |ps| - 1;
    if ps[n].task.pid == t.pid {
      OnlyLastSame(ps[..n], e);
    } else {
      SameFound(ps[..n], t, e);
    }
    FirstSameMore(ps[..n], ps[n], e);
    assert ps[..n] + [ps[n]] == ps;
  }

  lemma {:induction false} OnlyLastSame(ps: seq<Proc>, e: Task)
    requires Find(ps, e.pid).None?
    ensures FirstSame(ps, e).None?
  {
    if ps != [] {
      var n := |ps| - 1;
      OnlyLastSame(ps[..n], e);
      FirstSameMore(ps[..n], ps[n], e);
      assert ps[..n] + [ps[n]] == ps;
    }
  }

  lemma {:induction false} FirstSameMore(ps: seq<Proc>, p: Proc, e: Task)
    ensures FirstSame(ps + [p], e)
            == if FirstSame(ps, e).Some? then FirstSame(ps, e)
               else if SameTask(e, p.task) then Some(p) else None
  {
    if ps != [] {
      assert (ps + [p])[1..] == ps[1..] + [p];
      FirstSameMore(ps[1..], p, e);
    }
  }

  lemma {:induction false} ExitIsRecorded(prev: Option<Sys>, es: seq<Exit>, hertz: nat, j: nat)
    requires j < |es|
    ensures |ExitRecords(prev, es, hertz)| == |es|
    ensures ExitRecords(prev, es, hertz)[j] == ExitRecord(prev, es[j], hertz)
  {
    var n := |es| - 1;
    if j < n {
      ExitIsRecorded(prev, es[..n], hertz, j);
    } else if n > 0 {
      ExitIsRecorded(prev, es[..n], hertz, 0);
    }
  }

  /** The exit record of `e` in sample `n`. */
  function RecordOf(ls: seq<Turn>, n: nat, e: Exit, hertz: nat): Record
    requires n < |ls|
  {
    ExitRecord(PrevAt(ls, n), e, hertz)
  }

  /** What the samples from `a` on printed of `t` and what its exit record prints, `rest`, add up to at
      least its whole life, and to exactly that if and only if no figure, the whole life last, is less
      than the one before. */
  predicate LifeAddsUp(log: seq<Entry>, a: nat, t: Task, c: Column, vs: seq<nat>, rest: nat, life: nat)
    requires a + |vs| <= |log|
  {
    var total := TaskTotal(log, a, a + |vs|, t, c) + rest;
    && total >= life
    && (total == life <==> Rising(vs + [life], |vs| + 1))
  }

  lemma LifeExact(log: seq<Entry>, a: nat, t: Task, c: Column, vs: seq<nat>, rest: nat, life: nat)
    requires vs != [] && a + |vs| <= |log| && PrintsTasks(log, a, t, c, vs)
    requires rest == Sub(life, vs[|vs| - 1])
    ensures LifeAddsUp(log, a, t, c, vs, rest, life)
  {
    TaskSum(log, a, t, c, vs, |vs|);
    DeltaSumPrefix(vs, life, |vs|);
    DeltaSumExact(vs + [life], |vs| + 1);
  }

  /** A task's death: for every run, the samples before and the exit record together print its whole
      life, and its sample prints nothing else of it. */
  lemma LifeConserved(turns: seq<Turn>, hertz: nat, a: nat, t: Task, c: Column, vs: seq<nat>, e: Exit)
    requires PidsDistinct(Landed(turns))
    requires vs != [] && TaskTakes(Landed(turns), a, t, c, vs) && StartsAt(Landed(turns), a, t)
    requires a + |vs| < |Landed(turns)|
    requires e in Landed(turns)[a + |vs|].exited && SameTask(e.task, t)
    ensures var (log, record) := (Run(turns, hertz).log, RecordOf(Landed(turns), a + |vs|, e, hertz));
            && |log| == |Landed(turns)|
            && record in log[a + |vs|].sample.records
            && Printed(log[a + |vs|].sample.records, t, c) == 0
            && LifeAddsUp(log, a, t, c, vs, At(record.usage, c), At(Life(e, hertz), c))
  {
    var (log, ls) := (Run(turns, hertz).log, Landed(turns));
    LogOfLanded(turns, hertz);
    TaskAll(log, ls, hertz, a, t, c, vs);
    ExitListed(log, ls, hertz, a + |vs|, e);
    DeadPrintNothing(log, ls, hertz, a + |vs|, t, c);
    LastPart(ls, hertz, a, t, c, vs, e);
    LifeExact(log, a, t, c, vs, At(RecordOf(ls, a + |vs|, e, hertz).usage, c), At(Life(e, hertz), c));
  }

  /** The exit record prints what `t` did after it was last swept. */
  lemma LastPart(ls: seq<Turn>, hertz: nat, a: nat, t: Task, c: Column, vs: seq<nat>, e: Exit)
    requires PidsDistinct(ls) && vs != [] && TaskTakes(ls, a, t, c, vs)
    requires a + |vs| < |ls| && SameTask(e.task, t)
    ensures At(RecordOf(ls, a + |vs|, e, hertz).usage, c) == Sub(At(Life(e, hertz), c), vs[|vs| - 1])
  {
    var n := a + |vs|;
    assert AliveAt(ls, a + (|vs| - 1), t, c, vs[|vs| - 1]);
    assert Distinct(ls[n - 1].cur.procs);
    SameFound(ls[n - 1].cur.procs, t, e.task);
  }

  lemma ExitListed(log: seq<Entry>, ls: seq<Turn>, hertz: nat, n: nat, e: Exit)
    requires LogFits(log, ls, hertz) && n < |ls| && e in ls[n].exited
    ensures RecordOf(ls, n, e, hertz) in log[n].sample.records
  {
    assert log[n].sample == SampleAt(ls, n, hertz);
    var j: nat :| j < |ls[n].exited| && ls[n].exited[j] == e;
    ExitIsRecorded(PrevAt(ls, n), ls[n].exited, hertz, j);
    assert ExitRecords(PrevAt(ls, n), ls[n].exited, hertz)[j] in log[n].sample.records;
  }

  lemma DeadPrintNothing(log: seq<Entry>, ls: seq<Turn>, hertz: nat, n: nat, t: Task, c: Column)
    requires LogFits(log, ls, hertz) && PidsDistinct(ls) && 0 < n < |ls| && Replaced(ls[n].exited, t)
    ensures Printed(log[n].sample.records, t, c) == 0
  {
    assert log[n].sample == SampleAt(ls, n, hertz);
    assert Distinct(ls[n].cur.procs);
    SamplePrinted(PrevAt(ls, n), ls[n].cur, ls[n].exited, hertz, t, c);
  }

  // Live and exit records of one sample.

  lemma {:induction false} RetainedLive(live: seq<Record>, es: seq<Exit>, r: Record)
    ensures r in Retained(live, es) <==> r in live && !Replaced(es, r.task)
  {
    if live != [] {
      var n := |live| - 1;
      RetainedLive(live[..n], es, r);
      assert live == live[..n] + [live[n]];
    }
  }

  lemma {:induction false} RecordKinds(prev: Option<Sys>, ps: seq<Proc>, es: seq<Exit>, hertz: nat)
    ensures forall r <- LiveRecords(prev, ps) :: !r.exited && exists p <- ps :: p.task == r.task
    ensures forall r <- ExitRecords(prev, es, hertz) :: r.exited && exists e <- es :: e.task == r.task
    decreases |ps| + |es|
  {
    if ps != [] {
      var n := |ps| - 1;
      RecordKinds(prev, ps[..n], es, hertz);
      assert ps == ps[..n] + [ps[n]];
    } else if es != [] {
      var n := |es| - 1;
      RecordKinds(prev, ps, es[..n], hertz);
      assert es == es[..n] + [es[n]];
    }
  }

  /** In every landed sample after the first, no live record and exit record are of one task: one pid, and
      start times up to two seconds apart. */
  lemma NoTaskTwice(turns: seq<Turn>, hertz: nat, n: nat, live: Record, dead: Record)
    requires 0 < n < |Run(turns, hertz).log|
    requires live in Run(turns, hertz).log[n].sample.records && !live.exited
    requires dead in Run(turns, hertz).log[n].sample.records && dead.exited
    ensures dead.task.pid != live.task.pid || !(-2 <= dead.task.btime - live.task.btime <= 2)
  {
    var (log, ls) := (Run(turns, hertz).log, Landed(turns));
    LogOfLanded(turns, hertz);
    assert log[n].sample == SampleAt(ls, n, hertz);
    var (prev, es) := (PrevAt(ls, n), ls[n].exited);
    var swept := LiveRecords(prev, ls[n].cur.procs);
    RecordKinds(prev, ls[n].cur.procs, es, hertz);
    RetainedLive(swept, es, live);
    RetainedLive(swept, es, dead);
  }

  /** The records of a sample hold a task both live and exited, by pid and start time. */
  predicate PrintsTwice(records: seq<Record>) {
    exists live <- records, dead <- records ::
      && !live.exited && dead.exited && dead.task.pid == live.task.pid
      && -2 <= dead.task.btime - live.task.btime <= 2
  }

  /** A snapshot and the exit records taken with it overlap. */
  predicate Overlap(turn: Turn) {
    exists p <- turn.cur.procs, e <- turn.exited ::
      e.task.pid == p.task.pid && -2 <= e.task.btime - p.task.btime <= 2
  }

  lemma FirstPrintsTwice(turn: Turn, hertz: nat)
    requires Overlap(turn)
    ensures PrintsTwice(Records(None, turn.cur, turn.exited, hertz))
  {
    var (ps, es, rs) := (turn.cur.procs, turn.exited, Records(None, turn.cur, turn.exited, hertz));
    var p: Proc, e: Exit :| p in ps && e in es && SameTask(e.task, p.task);
    var i: nat :| i < |ps| && ps[i] == p;
    SweptIsRecorded(None, ps, i);
    var live := LiveRecords(None, ps)[i];
    var j: nat :| j < |es| && es[j] == e;
    ExitIsRecorded(None, es, hertz, j);
    var dead := ExitRecords(None, es, hertz)[j];
    assert live in rs && dead in rs && SameTask(dead.task, live.task);
  }

  lemma TwiceOverlaps(turn: Turn, hertz: nat)
    requires PrintsTwice(Records(None, turn.cur, turn.exited, hertz))
    ensures Overlap(turn)
  {
    var rs := Records(None, turn.cur, turn.exited, hertz);
    var live: Record, dead: Record :|
      live in rs && dead in rs && !live.exited && dead.exited && SameTask(dead.task, live.task);
    RecordKinds(None, turn.cur.procs, turn.exited, hertz);
    var p :| p in turn.cur.procs && p.task == live.task;
    var e :| e in turn.exited && e.task == dead.task;
    assert SameTask(e.task, p.task);
  }

  /** For every run and every landed sample: it prints a task both live and exited if and only if it is
      the first and its snapshot and exit records overlap. */
  lemma PrintedTwiceIff(turns: seq<Turn>, hertz: nat, n: nat)
    requires n < |Run(turns, hertz).log|
    ensures n < |Landed(turns)|
    ensures PrintsTwice(Run(turns, hertz).log[n].sample.records) <==> n == 0 && Overlap(Landed(turns)[n])
  {
    var (log, ls) := (Run(turns, hertz).log, Landed(turns));
    LogOfLanded(turns, hertz);
    assert log[n].sample == SampleAt(ls, n, hertz);
    if n == 0 {
      if Overlap(ls[0]) {
        FirstPrintsTwice(ls[0], hertz);
      }
      if PrintsTwice(log[0].sample.records) {
        TwiceOverlaps(ls[0], hertz);
      }
    } else {
      forall live <- log[n].sample.records, dead <- log[n].sample.records | !live.exited && dead.exited
        ensures !SameTask(dead.task, live.task)
      {
        NoTaskTwice(turns, hertz, n, live, dead);
      }
    }
  }

  lemma {:induction false} SweptIsRecorded(prev: Option<Sys>, ps: seq<Proc>, i: nat)
    requires i < |ps|
    ensures |LiveRecords(prev, ps)| == |ps|
    ensures LiveRecords(prev, ps)[i] == LiveRecord(Before(prev, ps[i].task), ps[i])
  {
    var n := |ps| - 1;
    if i < n {
      SweptIsRecorded(prev, ps[..n], i);
    } else if n > 0 {
      SweptIsRecorded(prev, ps[..n], 0);
    }
  }

  /** Exit records taken for a sample whose write failed are not in the log: it holds those of the
      landed turns and no others. */
  lemma OnlyLandedExits(turns: seq<Turn>, hertz: nat, n: nat, r: Record)
    requires n < |Run(turns, hertz).log|
    requires r in Run(turns, hertz).log[n].sample.records && r.exited
    ensures n < |Landed(turns)| && exists e <- Landed(turns)[n].exited :: e.task == r.task
  {
    var (log, ls) := (Run(turns, hertz).log, Landed(turns));
    LogOfLanded(turns, hertz);
    assert log[n].sample == SampleAt(ls, n, hertz);
    var (prev, es) := (PrevAt(ls, n), ls[n].exited);
    RecordKinds(prev, ls[n].cur.procs, es, hertz);
    RetainedLive(LiveRecords(prev, ls[n].cur.procs), es, r);
  }

  // Everything the log says of a task.

  /** What the records of `t`, live and exited, come to: their number, or their sum in a column. */
  function Tally(rs: seq<Record>, t: Task, c: Option<Column>): nat {
    if rs == [] then 0
    else
      var r := rs[|rs| - 1];
      Tally(rs[..|rs| - 1], t, c) + if SameTask(t, r.task) then Share(r.usage, c) else 0
  }

  function Share(u: Usage, c: Option<Column>): nat {
    if c.None? then 1 else At(u, c.value)
  }

  function LogTally(log: seq<Entry>, n: nat, t: Task, c: Option<Column>): nat
    requires n <= |log|
  {
    if n == 0 then 0 else LogTally(log, n - 1, t, c) + Tally(log[n - 1].sample.records, t, c)
  }

  lemma TallyMore(rs: seq<Record>, r: Record, t: Task, c: Option<Column>)
    ensures Tally(rs + [r], t, c) == Tally(rs, t, c) + if SameTask(t, r.task) then Share(r.usage, c) else 0
  {
    assert (rs + [r])[..|rs|] == rs;
  }

  lemma {:induction false} TallyJoins(a: seq<Record>, b: seq<Record>, t: Task, c: Option<Column>)
    ensures Tally(a + b, t, c) == Tally(a, t, c) + Tally(b, t, c)
  {
    if b == [] {
      assert a + b == a;
    } else {
      assert (a + b)[..|a + b| - 1] == a + b[..|b| - 1];
      TallyJoins(a, b[..|b| - 1], t, c);
    }
  }

  lemma {:induction false} TallyNone(rs: seq<Record>, t: Task, c: Option<Column>)
    requires forall r <- rs :: !SameTask(t, r.task)
    ensures Tally(rs, t, c) == 0
  {
    if rs != [] {
      TallyNone(rs[..|rs| - 1], t, c);
    }
  }

  /** Among these exit records only the one at `j`, if any, is of `t`. */
  predicate OnlyExit(es: seq<Exit>, t: Task, j: int) {
    forall i: nat | i < |es| :: SameTask(t, es[i].task) <==> i == j
  }

  lemma {:induction false} ExitTally(prev: Option<Sys>, es: seq<Exit>, hertz: nat, t: Task, j: int,
                                     c: Option<Column>)
    requires OnlyExit(es, t, j)
    ensures Tally(ExitRecords(prev, es, hertz), t, c)
            == if 0 <= j < |es| then Share(ExitRecord(prev, es[j], hertz).usage, c) else 0
  {
    if es != [] {
      var n := |es| - 1;
      assert SameTask(t, es[n].task) <==> n == j;
      ExitTally(prev, es[..n], hertz, t, j, c);
      TallyMore(ExitRecords(prev, es[..n], hertz), ExitRecord(prev, es[n], hertz), t, c);
    }
  }

  predicate Unswept(ps: seq<Proc>, t: Task) {
    forall p <- ps :: !SameTask(t, p.task)
  }

  lemma {:induction false} UnsweptNotFound(ps: seq<Proc>, t: Task)
    requires Unswept(ps, t)
    ensures FirstSame(ps, t).None?
  {
    if ps != [] {
      UnsweptNotFound(ps[1..], t);
    }
  }

  lemma SampleTally(prev: Option<Sys>, turn: Turn, hertz: nat, t: Task, j: int, c: Option<Column>)
    requires OnlyExit(turn.exited, t, j)
    requires Unswept(turn.cur.procs, t) || (prev.Some? && 0 <= j < |turn.exited| && t == turn.exited[j].task)
    ensures Tally(Records(prev, turn.cur, turn.exited, hertz), t, c)
            == if 0 <= j < |turn.exited| then Share(ExitRecord(prev, turn.exited[j], hertz).usage, c) else 0
  {
    var (ps, es) := (turn.cur.procs, turn.exited);
    var live := LiveRecords(prev, ps);
    var kept := if prev.None? then live else Retained(live, es);
    RecordKinds(prev, ps, es, hertz);
    forall r <- kept
      ensures !SameTask(t, r.task)
    {
      RetainedLive(live, es, r);
      if Unswept(ps, t) {
        var p :| p in ps && p.task == r.task;
      } else {
        assert es[j] in es;
      }
    }
    TallyNone(kept, t, c);
    ExitTally(prev, es, hertz, t, j, c);
    TallyJoins(kept, ExitRecords(prev, es, hertz), t, c);
  }

  /** In no landed snapshot but that of its death, and not there if it is the first, is there a process of
      the task, and in no landed turn but `n` an exit record of it; there only the one at `j`. */
  predicate DiesUnswept(ls: seq<Turn>, n: nat, j: nat, t: Task) {
    && n < |ls| && j < |ls[n].exited| && t == ls[n].exited[j].task
    && forall k: nat | k < |ls| ::
         && (Unswept(ls[k].cur.procs, t) || 0 < k == n)
         && OnlyExit(ls[k].exited, t, if k == n then j else -1)
  }

  lemma EntryTally(log: seq<Entry>, ls: seq<Turn>, hertz: nat, n: nat, j: nat, t: Task, c: Option<Column>,
                   k: nat)
    requires LogFits(log, ls, hertz) && DiesUnswept(ls, n, j, t) && k < |ls|
    ensures TallyIs(log, k, t, c, n, Share(Life(ls[n].exited[j], hertz), c))
  {
    assert OnlyExit(ls[k].exited, t, if k == n then j else -1);
    assert log[k].sample == SampleAt(ls, k, hertz);
    SampleTally(PrevAt(ls, k), ls[k], hertz, t, if k == n then j else -1, c);
    if k == n && n > 0 {
      assert Unswept(ls[n - 1].cur.procs, t);
      UnsweptNotFound(ls[n - 1].cur.procs, t);
    }
  }

  /** Sample `k` says `share` of `t` if it is the one of its death, else nothing. */
  predicate TallyIs(log: seq<Entry>, k: nat, t: Task, c: Option<Column>, n: nat, share: nat)
    requires k < |log|
  {
    Tally(log[k].sample.records, t, c) == if k == n then share else 0
  }

  predicate TalliesAre(log: seq<Entry>, t: Task, c: Option<Column>, n: nat, share: nat) {
    forall k: nat | k < |log| :: TallyIs(log, k, t, c, n, share)
  }

  lemma AllTallies(log: seq<Entry>, ls: seq<Turn>, hertz: nat, n: nat, j: nat, t: Task, c: Option<Column>)
    requires LogFits(log, ls, hertz) && DiesUnswept(ls, n, j, t)
    ensures TalliesAre(log, t, c, n, Share(Life(ls[n].exited[j], hertz), c))
  {
    forall k: nat | k < |log|
      ensures TallyIs(log, k, t, c, n, Share(Life(ls[n].exited[j], hertz), c))
    {
      EntryTally(log, ls, hertz, n, j, t, c, k);
    }
  }

  lemma {:induction false} TallySum(log: seq<Entry>, t: Task, c: Option<Column>, n: nat, share: nat, m: nat)
    requires TalliesAre(log, t, c, n, share) && m <= |log|
    ensures LogTally(log, m, t, c) == if n < m then share else 0
  {
    if m > 0 {
      assert TallyIs(log, m - 1, t, c, n, share);
      TallySum(log, t, c, n, share, m - 1);
    }
  }

  lemma UnsweptTally(turns: seq<Turn>, hertz: nat, n: nat, j: nat, t: Task, c: Option<Column>)
    requires DiesUnswept(Landed(turns), n, j, t)
    ensures var log := Run(turns, hertz).log;
            LogTally(log, |log|, t, c) == Share(Life(Landed(turns)[n].exited[j], hertz), c)
  {
    var log := Run(turns, hertz).log;
    LogOfLanded(turns, hertz);
    AllTallies(log, Landed(turns), hertz, n, j, t, c);
    TallySum(log, t, c, n, Share(Life(Landed(turns)[n].exited[j], hertz), c), |log|);
  }

  /** A task never swept before its death contributes its whole life exactly once, even if the sample of
      its death, the first apart, still finds it alive: for every run, whatever writes failed, of all the
      records in the log, live and exited, exactly one is of the task, and in every column they add up to
      its life. */
  lemma UnsweptPrintedOnce(turns: seq<Turn>, hertz: nat, n: nat, j: nat, t: Task)
    requires DiesUnswept(Landed(turns), n, j, t)
    ensures var log := Run(turns, hertz).log;
            && LogTally(log, |log|, t, None) == 1
            && forall c: Column ::
                 LogTally(log, |log|, t, Some(c)) == At(Life(Landed(turns)[n].exited[j], hertz), c)
  {
    var log := Run(turns, hertz).log;
    UnsweptTally(turns, hertz, n, j, t, None);
    forall c: Column
      ensures LogTally(log, |log|, t, Some(c)) == At(Life(Landed(turns)[n].exited[j], hertz), c)
    {
      UnsweptTally(turns, hertz, n, j, t, Some(c));
    }
  }
}
