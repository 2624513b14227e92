/** What one sample of the atop log holds: each counter's change since the previous sample on disk. */
module AtopSample {
  import opened Wrappers

  /** Threads of a process by the wait channel each stands in. */
  type Histogram = map<string, nat>

  /** A task is its pid and its start time in seconds. */
  datatype Task = Task(pid: int, btime: int)

  datatype Usage = Usage(utime: nat, stime: nat, minflt: nat, majflt: nat,
                         rundelay: nat, blkdelay: nat,
                         rio: nat, rsz: nat, wio: nat, wsz: nat, cwsz: nat)

  /** A process as swept from /proc; `wchans` is absent for a single-threaded one. */
  datatype Proc = Proc(task: Task, usage: Usage, wchans: Option<Histogram>)

  /** The kernel's record of a task's death: microseconds, system calls and bytes of a whole life. */
  datatype Exit = Exit(task: Task, utimeUs: nat, stimeUs: nat, minflt: nat, majflt: nat,
                       readSyscalls: nat, readBytes: nat, writeSyscalls: nat, writeBytes: nat,
                       cancelledBytes: nat)

  /** A per-interval column: of the whole system, one processor, one disk or one interface. */
  datatype Counter =
    | System(column: string)
    | Processor(id: nat, column: string)
    | Disk(name: string, column: string)
    | Interface(name: string, column: string)

  datatype Sys = Sys(epoch: int, counters: map<Counter, nat>, procs: seq<Proc>)

  datatype Record = Record(task: Task, exited: bool, isNew: bool, usage: Usage,
                           wchans: Option<Histogram>, wchansChanged: bool)

  datatype Sample = Sample(reset: bool, epoch: int, covered: nat, counters: map<Counter, nat>,
                           records: seq<Record>)

  /** A counter difference; a counter that was reset reads as no activity. */
  function Sub(cur: nat, prev: nat): nat {
    if cur < prev then 0 else cur - prev
  }

  function Less(cur: Usage, prev: Usage): Usage {
    Usage(Sub(cur.utime, prev.utime), Sub(cur.stime, prev.stime),
          Sub(cur.minflt, prev.minflt), Sub(cur.majflt, prev.majflt),
          Sub(cur.rundelay, prev.rundelay), Sub(cur.blkdelay, prev.blkdelay),
          Sub(cur.rio, prev.rio), Sub(cur.rsz, prev.rsz),
          Sub(cur.wio, prev.wio), Sub(cur.wsz, prev.wsz), Sub(cur.cwsz, prev.cwsz))
  }

  function Covered(now: int, before: int): nat {
    if now - before > 1 then now - before else 1
  }

  // System counters.

  /** A processor that came online starts from nothing; a disk or interface that appeared, from what
      it has done. */
  function Delta(prev: Option<Sys>, counter: Counter, value: nat): nat {
    if prev.None? then value
    else if counter in prev.value.counters then Sub(value, prev.value.counters[counter])
    else if counter.Processor? then 0
    else value
  }

  function Deltas(prev: Option<Sys>, cur: map<Counter, nat>): map<Counter, nat> {
    map k | k in cur :: Delta(prev, k, cur[k])
  }

  // Tasks.

  /** The process a table of the snapshot's processes by pid holds. */
  function Find(ps: seq<Proc>, pid: int): Option<Proc> {
    if ps == [] then None
    else if ps[|ps| - 1].task.pid == pid then Some(ps[|ps| - 1])
    else Find(ps[..|ps| - 1], pid)
  }

  function Swept(ps: seq<Proc>, t: Task): Option<Proc> {
    var found := Find(ps, t.pid);
    if found.Some? && found.value.task.btime == t.btime then found else None
  }

  function Before(prev: Option<Sys>, t: Task): Option<Proc> {
    if prev.None? then None else Swept(prev.value.procs, t)
  }

  /** A snapshot holds each pid once. */
  predicate Distinct(ps: seq<Proc>) {
    ps == [] || (Distinct(ps[..|ps| - 1]) && Find(ps[..|ps| - 1], ps[|ps| - 1].task.pid).None?)
  }

  function LiveRecord(before: Option<Proc>, p: Proc): Record {
    match before
    case Some(q) =>
      Record(p.task, false, false, Less(p.usage, q.usage), p.wchans, p.wchans != q.wchans)
    case None =>
      Record(p.task, false, true, p.usage, p.wchans, true)
  }

  function LiveRecords(prev: Option<Sys>, ps: seq<Proc>): seq<Record> {
    if ps == [] then []
    else
      var p := ps[|ps| - 1];
      LiveRecords(prev, ps[..|ps| - 1]) + [LiveRecord(Before(prev, p.task), p)]
  }

  /** The same task by two clocks: start times up to two seconds apart. */
  predicate SameTask(a: Task, b: Task) {
    a.pid == b.pid && -2 <= a.btime - b.btime <= 2
  }

  function FirstSame(ps: seq<Proc>, t: Task): Option<Proc> {
    if ps == [] then None
    else if SameTask(t, ps[0].task) then Some(ps[0])
    else FirstSame(ps[1..], t)
  }

  /** What the whole life of an exited task comes to in the log's units. */
  function Life(e: Exit, hertz: nat): Usage {
    Usage(e.utimeUs * hertz / 1_000_000, e.stimeUs * hertz / 1_000_000, e.minflt, e.majflt, 0, 0,
          e.readSyscalls, e.readBytes / 512, e.writeSyscalls, e.writeBytes / 512,
          e.cancelledBytes / 512)
  }

  function ExitRecord(prev: Option<Sys>, e: Exit, hertz: nat): Record {
    var swept := if prev.None? then None else FirstSame(prev.value.procs, e.task);
    match swept
    case Some(q) =>
      Record(e.task, true, false, Less(Life(e, hertz), q.usage), None, false)
    case None =>
      Record(e.task, true, true, Life(e, hertz), None, false)
  }

  function ExitRecords(prev: Option<Sys>, es: seq<Exit>, hertz: nat): seq<Record> {
    if es == [] then []
    else ExitRecords(prev, es[..|es| - 1], hertz) + [ExitRecord(prev, es[|es| - 1], hertz)]
  }

  predicate Replaced(es: seq<Exit>, t: Task) {
    exists e <- es :: SameTask(e.task, t)
  }

  function Retained(live: seq<Record>, es: seq<Exit>): seq<Record> {
    if live == [] then []
    else
      var (r, rest) := (live[|live| - 1], Retained(live[..|live| - 1], es));
      if Replaced(es, r.task) then rest else rest + [r]
  }

  /** The first sample keeps live tasks beside their exit records; later ones keep the record only. */
  function Records(prev: Option<Sys>, cur: Sys, es: seq<Exit>, hertz: nat): seq<Record> {
    var live := LiveRecords(prev, cur.procs);
    (if prev.None? then live else Retained(live, es)) + ExitRecords(prev, es, hertz)
  }

  /** The seconds a sample covers: since the previous one on disk, or since boot; never none. */
  function CoveredBy(prev: Option<Sys>, epoch: int, uptime: nat): nat {
    if prev.Some? then Covered(epoch, prev.value.epoch) else if uptime > 1 then uptime else 1
  }

  function SampleOf(prev: Option<Sys>, cur: Sys, es: seq<Exit>, uptime: nat, hertz: nat): Sample {
    Sample(prev.None?, cur.epoch, CoveredBy(prev, cur.epoch, uptime),
           Deltas(prev, cur.counters), Records(prev, cur, es, hertz))
  }

  // The loops.

  method ExitedProcs(es: seq<Exit>, prev: Option<Sys>, hertz: nat) returns (out: seq<Record>)
    ensures out == ExitRecords(prev, es, hertz)
  {
    out := [];
    for i := 0 to |es|
      invariant out == ExitRecords(prev, es[..i], hertz)
    {
      var record := Record(es[i].task, true, true, Life(es[i], hertz), None, false);
      if prev.Some? {
        var swept := FindSame(prev.value.procs, es[i].task);
        if swept.Some? {
          record := record.(isNew := false, usage := Less(record.usage, swept.value.usage));
        }
      }
      assert es[..i + 1][..i] == es[..i];
      out := out + [record];
    }
    assert es[..|es|] == es;
  }

  method FindSame(ps: seq<Proc>, t: Task) returns (found: Option<Proc>)
    ensures found == FirstSame(ps, t)
  {
    for i := 0 to |ps|
      invariant FirstSame(ps, t) == FirstSame(ps[i..], t)
    {
      if SameTask(t, ps[i].task) {
        return Some(ps[i]);
      }
    }
    return None;
  }

  method LiveProcs(prev: Option<Sys>, ps: seq<Proc>) returns (live: seq<Record>)
    ensures live == LiveRecords(prev, ps)
  {
    live := [];
    for i := 0 to |ps|
      invariant live == LiveRecords(prev, ps[..i])
    {
      assert ps[..i + 1][..i] == ps[..i];
      live := live + [LiveRecord(Before(prev, ps[i].task), ps[i])];
    }
    assert ps[..|ps|] == ps;
  }

  method Retain(live: seq<Record>, es: seq<Exit>) returns (kept: seq<Record>)
    ensures kept == Retained(live, es)
  {
    kept := [];
    for i := 0 to |live|
      invariant kept == Retained(live[..i], es)
    {
      assert live[..i + 1][..i] == live[..i];
      if !Replaced(es, live[i].task) {
        kept := kept + [live[i]];
      }
    }
    assert live[..|live|] == live;
  }

  method DeviateCounters(cur: map<Counter, nat>, prev: Option<Sys>) returns (d: map<Counter, nat>)
    ensures d == Deltas(prev, cur)
  {
    d := cur;
    if prev.None? {
      return;
    }
    var (before, todo) := (prev.value.counters, cur.Keys);
    while todo != {}
      invariant todo <= cur.Keys == d.Keys
      invariant forall k <- d.Keys :: d[k] == if k in todo then cur[k] else Delta(prev, k, cur[k])
      decreases todo
    {
      var k :| k in todo;
      if k in before {
        d := d[k := if d[k] < before[k] then 0 else d[k] - before[k]];
      } else if k.Processor? {
        d := d[k := 0];
      }
      todo := todo - {k};
    }
  }

  method Deviate(cur: Sys, prev: Option<Sys>, es: seq<Exit>, hertz: nat)
    returns (counters: map<Counter, nat>, records: seq<Record>)
    ensures counters == Deltas(prev, cur.counters)
    ensures records == Records(prev, cur, es, hertz)
  {
    counters := DeviateCounters(cur.counters, prev);
    records := LiveProcs(prev, cur.procs);
    if prev.Some? {
      records := Retain(records, es);
    }
    var exits := ExitedProcs(es, prev, hertz);
    records := records + exits;
  }

  // What a sample says about one task.

  datatype Column =
    Utime | Stime | Minflt | Majflt | Rundelay | Blkdelay | Rio | Rsz | Wio | Wsz | Cwsz

  function At(u: Usage, c: Column): nat {
    match c
    case Utime => u.utime
    case Stime => u.stime
    case Minflt => u.minflt
    case Majflt => u.majflt
    case Rundelay => u.rundelay
    case Blkdelay => u.blkdelay
    case Rio => u.rio
    case Rsz => u.rsz
    case Wio => u.wio
    case Wsz => u.wsz
    case Cwsz => u.cwsz
  }

  /** What the live records of `t` print in column `c`. */
  function Printed(rs: seq<Record>, t: Task, c: Column): nat {
    if rs == [] then 0
    else
      var r := rs[|rs| - 1];
      Printed(rs[..|rs| - 1], t, c) + if !r.exited && r.task == t then At(r.usage, c) else 0
  }

  lemma PrintedMore(rs: seq<Record>, r: Record, t: Task, c: Column)
    ensures Printed(rs + [r], t, c)
            == Printed(rs, t, c) + if !r.exited && r.task == t then At(r.usage, c) else 0
  {
    assert (rs + [r])[..|rs|] == rs;
  }

  lemma {:induction false} PrintedJoins(a: seq<Record>, b: seq<Record>, t: Task, c: Column)
    ensures Printed(a + b, t, c) == Printed(a, t, c) + Printed(b, t, c)
  {
    if b == [] {
      assert a + b == a;
    } else {
      assert (a + b)[..|a + b| - 1] == a + b[..|b| - 1];
      PrintedJoins(a, b[..|b| - 1], t, c);
    }
  }

  lemma {:induction false} ExitsNotLive(prev: Option<Sys>, es: seq<Exit>, hertz: nat, t: Task, c: Column)
    ensures Printed(ExitRecords(prev, es, hertz), t, c) == 0
  {
    if es != [] {
      var init := ExitRecords(prev, es[..|es| - 1], hertz);
      ExitsNotLive(prev, es[..|es| - 1], hertz, t, c);
      PrintedMore(init, ExitRecord(prev, es[|es| - 1], hertz), t, c);
    }
  }

  lemma {:induction false} RetainedPrinted(live: seq<Record>, es: seq<Exit>, t: Task, c: Column)
    ensures Printed(Retained(live, es), t, c) == if Replaced(es, t) then 0 else Printed(live, t, c)
  {
    if live != [] {
      RetainedPrinted(live[..|live| - 1], es, t, c);
      PrintedMore(Retained(live[..|live| - 1], es), live[|live| - 1], t, c);
    }
  }

  lemma {:induction false} LivePrinted(prev: Option<Sys>, ps: seq<Proc>, t: Task, c: Column)
    requires Distinct(ps)
    ensures Printed(LiveRecords(prev, ps), t, c)
            == match Swept(ps, t)
               case Some(p) => At(LiveRecord(Before(prev, t), p).usage, c)
               case None => 0
  {
    if ps != [] {
      var p := ps[|ps| - 1];
      LivePrinted(prev, ps[..|ps| - 1], t, c);
      PrintedMore(LiveRecords(prev, ps[..|ps| - 1]), LiveRecord(Before(prev, p.task), p), t, c);
    }
  }

  lemma {:induction false} SweptTask(ps: seq<Proc>, t: Task)
    requires Swept(ps, t).Some?
    ensures Swept(ps, t).value.task == t
  {
    var n := |ps| - 1;
    if ps[n].task.pid != t.pid {
      SweptTask(ps[..n], t);
    }
  }

  /** A sample prints a live task's change since the previous one, unless an exit record replaced it. */
  lemma SamplePrinted(prev: Option<Sys>, cur: Sys, es: seq<Exit>, hertz: nat, t: Task, c: Column)
    requires Distinct(cur.procs)
    ensures Printed(Records(prev, cur, es, hertz), t, c)
            == if Swept(cur.procs, t).None? || (prev.Some? && Replaced(es, t)) then 0
               else if Before(prev, t).None? then At(Swept(cur.procs, t).value.usage, c)
               else Sub(At(Swept(cur.procs, t).value.usage, c), At(Before(prev, t).value.usage, c))
  {
    var live := LiveRecords(prev, cur.procs);
    LivePrinted(prev, cur.procs, t, c);
    RetainedPrinted(live, es, t, c);
    ExitsNotLive(prev, es, hertz, t, c);
    PrintedJoins(if prev.None? then live else Retained(live, es), ExitRecords(prev, es, hertz), t, c);
  }
}
