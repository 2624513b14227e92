/** The sampler's loop: a sample whose write failed leaves the baseline of the next one where it was. */
module AtopLog {
  import opened Wrappers
  import opened AtopSample

  // Progress towards a stall.

  const STALL_SECS := 300
  const IDLE_CPU_PERCENT := 10
  const STALL_MIN_SAMPLES := 3

  datatype Stall = Stall(seen: bool, from: int, still: nat, worked: bool)

  const UNSEEN := Stall(false, 0, 0, false)

  function Observe(s: Stall, epoch: int, idle: bool, worked: bool): (Stall, bool) {
    var s' := if idle && s.seen then s.(still := s.still + 1)
              else Stall(true, epoch, 0, s.worked || worked);
    (s', s'.worked && epoch - s'.from >= STALL_SECS && s'.still >= STALL_MIN_SAMPLES)
  }

  /** The processor ticks and disk sectors of a process over the interval. */
  function Work(before: Option<Proc>, p: Proc): (nat, nat) {
    var (ticks, sectors) := (p.usage.utime + p.usage.stime, p.usage.rsz + p.usage.wsz);
    match before
    case Some(q) => (Sub(ticks, q.usage.utime + q.usage.stime), Sub(sectors, q.usage.rsz + q.usage.wsz))
    case None => (ticks, sectors)
  }

  predicate Idle(before: Option<Proc>, p: Proc, hertz: nat, covered: nat) {
    var (ticks, sectors) := Work(before, p);
    && before.Some? && before.value.wchans.Some? && p.wchans.Some?
    && before.value.wchans.value.Keys == p.wchans.value.Keys
    && sectors == 0 && ticks * 100 < IDLE_CPU_PERCENT * hertz * covered
  }

  predicate Worked(prev: Option<Sys>, before: Option<Proc>, p: Proc) {
    prev.Some? && (Work(before, p).0 > 0 || Work(before, p).1 > 0)
  }

  function Track(tracks: map<Task, Stall>, t: Task): Stall {
    if t in tracks then tracks[t] else UNSEEN
  }

  function Judged(tracks: map<Task, Stall>, prev: Option<Sys>, epoch: int, p: Proc, hertz: nat,
                  covered: nat): (Stall, bool)
  {
    var before := Before(prev, p.task);
    Observe(Track(tracks, p.task), epoch, Idle(before, p, hertz, covered), Worked(prev, before, p))
  }

  datatype Stalls = Stalls(tracks: map<Task, Stall>, dumped: set<Task>)

  /** The new trackers of the multi-threaded processes, and those whose stacks are now due. */
  function Advanced(st: Stalls, prev: Option<Sys>, epoch: int, ps: seq<Proc>, hertz: nat,
                    covered: nat): (map<Task, Stall>, seq<Task>)
  {
    if ps == [] then (map[], [])
    else
      var p := ps[|ps| - 1];
      var (tracks, due) := Advanced(st, prev, epoch, ps[..|ps| - 1], hertz, covered);
      if p.wchans.None? then (tracks, due)
      else
        var (track, stalled) := Judged(st.tracks, prev, epoch, p, hertz, covered);
        (tracks[p.task := track],
         if stalled && p.task !in st.dumped then due + [p.task] else due)
  }

  function Committed(st: Stalls, tracks: map<Task, Stall>, due: seq<Task>): Stalls {
    Stalls(tracks, set t | t in tracks && (t in st.dumped || t in due))
  }

  // The loop.

  /** One turn: the snapshot, the exit records taken for it, the uptime, and whether the write lands. */
  datatype Turn = Turn(cur: Sys, exited: seq<Exit>, uptime: nat, lands: bool)

  /** A sample on disk: its records, and whose stacks it carries. */
  datatype Entry = Entry(sample: Sample, stacks: seq<Task>)

  datatype State = State(prev: Option<Sys>, stalls: Stalls, failures: nat, log: seq<Entry>)

  const START := State(None, Stalls(map[], {}), 0, [])

  function Step(s: State, turn: Turn, hertz: nat): State {
    if !turn.lands then s.(failures := s.failures + 1)
    else
      var sample := SampleOf(s.prev, turn.cur, turn.exited, turn.uptime, hertz);
      var covered := CoveredBy(s.prev, turn.cur.epoch, turn.uptime);
      var (tracks, due) :=
        Advanced(s.stalls, s.prev, turn.cur.epoch, turn.cur.procs, hertz, covered);
      State(Some(turn.cur), Committed(s.stalls, tracks, due), s.failures,
            s.log + [Entry(sample, due)])
  }

  function Run(turns: seq<Turn>, hertz: nat): State {
    if turns == [] then START
    else Step(Run(turns[..|turns| - 1], hertz), turns[|turns| - 1], hertz)
  }

  class Sampler {
    const hertz: nat
    var prev: Option<Sys>
    var stalls: Stalls
    var failures: nat
    var log: seq<Entry>

    function Abstract(): State
      reads this
    {
      State(prev, stalls, failures, log)
    }

    constructor (hertz: nat)
      ensures this.hertz == hertz && Abstract() == START
    {
      this.hertz := hertz;
      prev, stalls, failures, log := None, Stalls(map[], {}), 0, [];
    }

    method Advance(cur: Sys, covered: nat) returns (tracks: map<Task, Stall>, due: seq<Task>)
      ensures (tracks, due) == Advanced(stalls, prev, cur.epoch, cur.procs, hertz, covered)
    {
      tracks, due := map[], [];
      var ps := cur.procs;
      for i := 0 to |ps|
        invariant (tracks, due) == Advanced(stalls, prev, cur.epoch, ps[..i], hertz, covered)
      {
        assert ps[..i + 1][..i] == ps[..i];
        if ps[i].wchans.Some? {
          var (track, stalled) := Judged(stalls.tracks, prev, cur.epoch, ps[i], hertz, covered);
          if stalled && ps[i].task !in stalls.dumped {
            due := due + [ps[i].task];
          }
          tracks := tracks[ps[i].task := track];
        }
      }
      assert ps[..|ps|] == ps;
    }

    /** One turn of the loop: collect, write, and commit only what reached the log. */
    method Turn(turn: Turn)
      modifies this
      ensures Abstract() == Step(old(Abstract()), turn, hertz)
    {
      var covered := if turn.uptime > 1 then turn.uptime else 1;
      if prev.Some? {
        covered := Covered(turn.cur.epoch, prev.value.epoch);
      }
      var tracks, due := Advance(turn.cur, covered);
      var counters, records := Deviate(turn.cur, prev, turn.exited, hertz);
      if turn.lands {
        log := log + [Entry(Sample(prev.None?, turn.cur.epoch, covered, counters, records), due)];
        stalls := Committed(stalls, tracks, due);
        prev := Some(turn.cur);
      } else {
        failures := failures + 1;
      }
    }

    method TurnAll(turns: seq<Turn>)
      requires Abstract() == START
      modifies this
      ensures Abstract() == Run(turns, hertz)
    {
      for i := 0 to |turns|
        invariant Abstract() == Run(turns[..i], hertz)
      {
        assert turns[..i + 1][..i] == turns[..i];
        Turn(turns[i]);
      }
      assert turns[..|turns|] == turns;
    }
  }

  // A failed write leaves no trace.

  function Landed(turns: seq<Turn>): seq<Turn> {
    if turns == [] then []
    else
      var last := turns[|turns| - 1];
      Landed(turns[..|turns| - 1]) + if last.lands then [last] else []
  }

  function Failed(turns: seq<Turn>): nat {
    if turns == [] then 0
    else Failed(turns[..|turns| - 1]) + if turns[|turns| - 1].lands then 0 else 1
  }

  lemma {:induction false} AllLanded(turns: seq<Turn>)
    ensures forall turn <- Landed(turns) :: turn.lands
  {
    if turns != [] {
      AllLanded(turns[..|turns| - 1]);
    }
  }

  lemma LandedAgain(turns: seq<Turn>, turn: Turn)
    requires turn.lands
    ensures Landed(turns + [turn]) == Landed(turns) + [turn]
    ensures forall hertz: nat :: Run(turns + [turn], hertz) == Step(Run(turns, hertz), turn, hertz)
  {
    assert (turns + [turn])[..|turns|] == turns;
  }

  /** Whatever pattern of writes fails, the log and everything the next sample depends on are those of
      a run in which the failed turns never happened: their interval is covered by the next sample
      that lands, and the exit records taken for them are gone. */
  lemma {:induction false} FailedWritesLeaveNoTrace(turns: seq<Turn>, hertz: nat)
    ensures Run(turns, hertz) == Run(Landed(turns), hertz).(failures := Failed(turns))
  {
    if turns != [] {
      var init, last := turns[..|turns| - 1], turns[|turns| - 1];
      FailedWritesLeaveNoTrace(init, hertz);
      if last.lands {
        LandedAgain(Landed(init), last);
      } else {
        assert Landed(turns) == Landed(init);
      }
    }
  }

  // The log of landed turns, sample by sample.

  function PrevAt(ls: seq<Turn>, k: nat): Option<Sys>
    requires k <= |ls|
  {
    if k == 0 then None else Some(ls[k - 1].cur)
  }

  function CoveredAt(ls: seq<Turn>, k: nat): nat
    requires k < |ls|
  {
    CoveredBy(PrevAt(ls, k), ls[k].cur.epoch, ls[k].uptime)
  }

  function SampleAt(ls: seq<Turn>, k: nat, hertz: nat): Sample
    requires k < |ls|
  {
    SampleOf(PrevAt(ls, k), ls[k].cur, ls[k].exited, ls[k].uptime, hertz)
  }

  predicate LogFits(log: seq<Entry>, ls: seq<Turn>, hertz: nat) {
    |log| == |ls| && forall k: nat | k < |ls| :: log[k].sample == SampleAt(ls, k, hertz)
  }

  lemma FitsOneMore(log: seq<Entry>, ls: seq<Turn>, entry: Entry, hertz: nat)
    requires ls != [] && LogFits(log, ls[..|ls| - 1], hertz)
    requires entry.sample == SampleAt(ls, |ls| - 1, hertz)
    ensures LogFits(log + [entry], ls, hertz)
  {
    var n := |ls| - 1;
    forall k: nat | k < |ls|
      ensures (log + [entry])[k].sample == SampleAt(ls, k, hertz)
    {
      if k < n {
        assert SampleAt(ls, k, hertz) == SampleAt(ls[..n], k, hertz);
      }
    }
  }

  lemma {:induction false} RunLanded(ls: seq<Turn>, hertz: nat)
    requires forall turn <- ls :: turn.lands
    ensures LogFits(Run(ls, hertz).log, ls, hertz)
    ensures Run(ls, hertz).prev == PrevAt(ls, |ls|)
  {
    if ls != [] {
      var n := |ls| - 1;
      RunLanded(ls[..n], hertz);
      assert Run(ls, hertz) == Step(Run(ls[..n], hertz), ls[n], hertz);
      assert ls[n].lands;
      var entry := Run(ls, hertz).log[n];
      FitsOneMore(Run(ls[..n], hertz).log, ls, entry, hertz);
    }
  }

  /** Sample `k` on disk is the change from landed snapshot `k - 1` to landed snapshot `k`; the first
      one, and no other, is announced by RESET. */
  lemma LogOfLanded(turns: seq<Turn>, hertz: nat)
    ensures LogFits(Run(turns, hertz).log, Landed(turns), hertz)
    ensures forall k: nat | k < |Run(turns, hertz).log| ::
              Run(turns, hertz).log[k].sample.reset <==> k == 0
  {
    FailedWritesLeaveNoTrace(turns, hertz);
    AllLanded(turns);
    RunLanded(Landed(turns), hertz);
  }
}
