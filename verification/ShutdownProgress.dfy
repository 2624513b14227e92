/** A first stop request ends the machine, whatever the service does. */
module ShutdownProgress {
  import opened Wrappers
  import opened ShutdownModel
  import opened ShutdownInvariant
  import opened ShutdownSteps
  import opened ShutdownSafety

  // The ranking.

  /** How many steps a frame can still take, with all they may set off. */
  function Weight(pc: Pc): nat {
    match pc
    case Parked | Gone | Done | Idle | ReadPipe => 0
    case End(_) => 2
    case LoadPoweroff => 3
    case LoadReboot => 4
    case Flush => 5
    case SwapEnding => 6
    case Mask => 7
    case Arm => 29
    case Kill => 30
    case LoadPid => 31
    case StoreStopping => 32
    case Grace => 33
    case Wait(what) => (match what case Serving => 36 case Deferred => 0 case AgentOnly => 8)
    case Defer(_) => 32
    case ReadStopping(_) => 33
    case ReadStop(_) => 34
    case ClearPid(_) => 35
    case StartWorker => 37
    case Gate => 38
    case WriteWake => 45
    case LoadWake => 46
    case SwapStop => 47
    case StorePoweroff | StoreReboot => 48
  }

  const REQUEST: nat := 48

  function Until(deadline: nat, now: nat): nat {
    if now < deadline then deadline - now else 0
  }

  /** What an alarm, a byte in the pipe and a running grace are still good for. */
  function Pending(g: Shared): nat {
    44 * g.stop.pipe
    + (if g.alarm.Some? then Until(g.alarm.value, g.now) + 8 else 0)
    + (if g.stop.owner == Worker then Until(g.stop.graceStart + TERM_GRACE, g.now) else 0)
  }

  function FramesWeight(fs: seq<Frame>): nat {
    if fs == [] then 0 else FramesWeight(fs[..|fs| - 1]) + Weight(fs[|fs| - 1].pc)
  }

  function ThreadsWeight(ts: seq<Thread>): nat {
    if ts == [] then 0 else ThreadsWeight(ts[..|ts| - 1]) + FramesWeight(ts[|ts| - 1].frames)
  }

  function Rank(s: State): nat {
    ThreadsWeight(s.threads) + Pending(s.g)
  }

  lemma SetTopWeight(fs: seq<Frame>, f: Frame)
    requires fs != []
    ensures FramesWeight(fs[|fs| - 1 := f])
            == FramesWeight(fs) - Weight(fs[|fs| - 1].pc) + Weight(f.pc)
  {
    var n := |fs| - 1;
    assert fs[n := f][..n] == fs[..n];
  }

  lemma PushWeight(fs: seq<Frame>, f: Frame)
    ensures FramesWeight(fs + [f]) == FramesWeight(fs) + Weight(f.pc)
  {
    assert (fs + [f])[..|fs|] == fs;
  }

  lemma {:induction false} SetThreadWeight(ts: seq<Thread>, k: nat, th: Thread)
    requires k < |ts|
    ensures ThreadsWeight(ts[k := th])
            == ThreadsWeight(ts) - FramesWeight(ts[k].frames) + FramesWeight(th.frames)
  {
    var n := |ts| - 1;
    if k == n {
      assert ts[k := th][..n] == ts[..n];
    } else {
      assert ts[k := th][..n] == ts[..n][k := th];
      SetThreadWeight(ts[..n], k, th);
    }
  }

  lemma NewThreadWeight(ts: seq<Thread>, f: Frame)
    ensures ThreadsWeight(ts + [Thread([f], false)]) == ThreadsWeight(ts) + Weight(f.pc)
  {
    assert (ts + [Thread([f], false)])[..|ts|] == ts;
    PushWeight([], f);
    assert [] + [f] == [f];
  }

  lemma PushedThreadWeight(ts: seq<Thread>, t: nat, f: Frame)
    requires t < |ts|
    ensures ThreadsWeight(ts[t := ts[t].(frames := ts[t].frames + [f])])
            == ThreadsWeight(ts) + Weight(f.pc)
  {
    PushWeight(ts[t].frames, f);
    SetThreadWeight(ts, t, ts[t].(frames := ts[t].frames + [f]));
  }

  lemma MovedThreadWeight(ts: seq<Thread>, t: nat, move: Move)
    requires t < |ts| && ts[t].frames != []
    ensures ThreadsWeight(ts[t := Moved(ts[t], move)])
            == ThreadsWeight(ts) - Weight(Top(ts[t]).pc) + MoveWeight(move)
  {
    MovedWeight(ts[t], move);
    SetThreadWeight(ts, t, Moved(ts[t], move));
  }

  // How each event changes it.

  /** A request from outside: the others are the protocol's own doing, or the service's. */
  predicate External(e: Event) {
    e.Deliver? && e.sig != Alrm
  }

  /** The steps the protocol itself takes, and the passing of time while it waits for it. */
  predicate Advances(s: State, e: Event) {
    match e
    case Run(_, _) => true
    case Publish => true
    case Deliver(_, sig) => sig == Alrm
    case Tick =>
      || (s.g.alarm.Some? && s.g.now < s.g.alarm.value)
      || (s.g.stop.owner == Worker && s.g.now < s.g.stop.graceStart + TERM_GRACE)
    case ServiceExits => false
    case Spawn => false
  }

  function MoveWeight(move: Move): nat {
    match move
    case Goto(pc) => Weight(pc)
    case Return => 0
  }

  /** The steps that put the request, an alarm or a grace into other hands. */
  predicate HandsOn(pc: Pc) {
    || pc.Defer? || pc.ReadPipe? || pc.SwapStop? || pc.WriteWake? || pc.StoreStopping? || pc.LoadPid?
    || pc.Arm?
  }

  lemma QuietPending(g: Shared, t: nat, i: nat, pc: Pc, how: How)
    requires Steps(g, pc, how) && !HandsOn(pc)
    ensures Pending(GAfter(g, t, i, pc, how)) == Pending(g)
  {
  }

  lemma QuietWeight(g: Shared, t: nat, i: nat, pc: Pc, how: How)
    requires Steps(g, pc, how) && !HandsOn(pc)
    ensures MoveWeight(MoveOf(g, t, i, pc, how)) < Weight(pc)
  {
  }

  lemma HandingOn(g: Shared, t: nat, i: nat, pc: Pc)
    requires Steps(g, pc, Plain) && HandsOn(pc)
    requires StopOk(g.stop) && AlarmOk(g) && OwnerOk(g.stop, t, i, pc)
    requires pc.Defer? ==> MainOk(g.stop, g.svc, pc)
    requires pc.Arm? ==> !g.svc.deferred
    ensures Pending(GAfter(g, t, i, pc, Plain)) + MoveWeight(MoveOf(g, t, i, pc, Plain))
            < Pending(g) + Weight(pc)
  {
  }

  /** One step of a frame: what it leaves weighs less than what it was. */
  lemma MoveDescends(g: Shared, t: nat, i: nat, masked: bool, f: Frame, how: How)
    requires SharedOk(g) && FrameOk(g, t, i, true, masked, f) && Steps(g, f.pc, how)
    ensures Pending(GAfter(g, t, i, f.pc, how)) + MoveWeight(MoveOf(g, t, i, f.pc, how))
            < Pending(g) + Weight(f.pc)
  {
    if HandsOn(f.pc) {
      HandingOn(g, t, i, f.pc);
    } else {
      QuietPending(g, t, i, f.pc, how);
      QuietWeight(g, t, i, f.pc, how);
    }
  }

  lemma MovedWeight(th: Thread, move: Move)
    requires th.frames != []
    ensures FramesWeight(Moved(th, move).frames)
            == FramesWeight(th.frames) - Weight(Top(th).pc) + MoveWeight(move)
  {
    if move.Goto? {
      SetTopWeight(th.frames, Top(th).(pc := move.pc));
    }
  }

  lemma RunDescends(s: State, t: nat, how: How)
    requires Inv(s) && Enabled(s, Run(t, how))
    ensures Rank(Next(s, Run(t, how))) < Rank(s)
  {
    var th := s.threads[t];
    var i := |th.frames| - 1;
    Local(s, t, i);
    MoveDescends(s.g, t, i, th.masked, Top(th), how);
    MovedThreadWeight(s.threads, t, MoveOf(s.g, t, i, Top(th).pc, how));
  }

  lemma PublishDescends(s: State)
    requires Stacked(s) && Enabled(s, Publish)
    ensures Rank(Next(s, Publish)) < Rank(s)
  {
    MovedThreadWeight(s.threads, 0, Goto(Wait(Serving)));
    NewThreadWeight(s.threads[0 := SetTop(s.threads[0], Wait(Serving))], Frame(None, ReadPipe));
  }

  lemma EntryWeight(g: Shared, sig: Signal)
    requires sig == Alrm ==> g.alarm.Some?
    ensures sig == Alrm ==> Pending(g.(alarm := None)) + Weight(Entry(sig)) < Pending(g)
    ensures Weight(Entry(sig)) <= REQUEST
  {
  }

  lemma DeliverRank(s: State, t: nat, sig: Signal)
    requires Stacked(s) && Enabled(s, Deliver(t, sig))
    ensures sig == Alrm ==> Rank(Next(s, Deliver(t, sig))) < Rank(s)
    ensures Rank(Next(s, Deliver(t, sig))) <= Rank(s) + REQUEST
  {
    EntryWeight(s.g, sig);
    PushedThreadWeight(s.threads, t, Frame(Some(sig), Entry(sig)));
  }

  lemma SpawnRank(s: State)
    requires Stacked(s) && Enabled(s, Spawn)
    ensures Rank(Next(s, Spawn)) == Rank(s)
  {
    NewThreadWeight(s.threads, Frame(None, Idle));
  }

  function Cost(e: Event): nat {
    if External(e) then REQUEST else 0
  }

  function Gain(s: State, e: Event): nat {
    if Advances(s, e) then 1 else 0
  }

  /** Every advancing step lowers the ranking, an outside request raises it by a constant at most, and
      nothing else raises it. */
  lemma RankStep(s: State, e: Event)
    requires Inv(s) && Enabled(s, e)
    ensures Rank(Next(s, e)) + Gain(s, e) <= Rank(s) + Cost(e)
  {
    match e
    case Run(t, how) => RunDescends(s, t, how);
    case Publish => PublishDescends(s);
    case Deliver(t, sig) => DeliverRank(s, t, sig);
    case Spawn => SpawnRank(s);
    case ServiceExits =>
    case Tick =>
  }

  function Advanced(s: State, es: seq<Event>): nat
    requires Plays(s, es)
    decreases |es|
  {
    if es == [] then 0 else Gain(s, es[0]) + Advanced(Next(s, es[0]), es[1..])
  }

  function Requests(es: seq<Event>): nat {
    if es == [] then 0 else Cost(es[0]) + Requests(es[1..])
  }

  /** In every run, the protocol takes only so many steps: what the ranking allows at the start and
      what each outside request adds. */
  lemma {:induction false} StepsBounded(s: State, es: seq<Event>)
    requires Inv(s) && Plays(s, es)
    ensures Advanced(s, es) + Rank(After(s, es)) <= Rank(s) + Requests(es)
    decreases |es|
  {
    if es != [] {
      StepInv(s, es[0]);
      RankStep(s, es[0]);
      StepsBounded(Next(s, es[0]), es[1..]);
    }
  }

  // The protocol is never stuck before the end.

  predicate CanAdvance(s: State, e: Event)
    requires Stacked(s)
  {
    Enabled(s, e) && Advances(s, e)
  }

  /** While nobody has begun to end the machine, no handler is ever stuck. */
  lemma HandlerMoves(s: State, t: nat)
    requires Inv(s) && !s.g.power.ending
    requires t < |s.threads| && |s.threads[t].frames| > 1
    ensures CanAdvance(s, Run(t, Plain))
  {
    Local(s, t, |s.threads[t].frames| - 1);
  }

  /** Nor is a frame that can move once those on top of it have. */
  lemma FrameMoves(s: State, t: nat, i: nat)
    requires Inv(s) && !s.g.power.ending && Live(s, t, i)
    requires Steps(s.g, FrameAt(s, t, i).pc, Plain)
    ensures CanAdvance(s, Run(t, Plain))
  {
    if |s.threads[t].frames| > 1 {
      HandlerMoves(s, t);
    }
  }

  lemma WinnerMoves(s: State) returns (e: Event)
    requires Inv(s) && s.g.power.ending && s.g.power.machine == Up
    ensures CanAdvance(s, e)
  {
    var t := s.g.power.winner.value;
    Local(s, t, |s.threads[t].frames| - 1);
    e := Run(t, Plain);
  }

  lemma OwnerMoves(s: State) returns (e: Event)
    requires Inv(s) && !s.g.power.ending
    requires s.g.stop.owner.Held? || s.g.stop.owner.Stopping?
    ensures CanAdvance(s, e)
  {
    var owner := s.g.stop.owner;
    Local(s, owner.t, owner.i);
    FrameMoves(s, owner.t, owner.i);
    e := Run(owner.t, Plain);
  }

  lemma WorkerMoves(s: State) returns (e: Event)
    requires Inv(s) && !s.g.power.ending
    requires s.g.stop.owner.InPipe? || s.g.stop.owner.Worker?
    ensures CanAdvance(s, e)
  {
    Local(s, 1, 0);
    if |s.threads[1].frames| > 1 {
      HandlerMoves(s, 1);
      e := Run(1, Plain);
    } else {
      e := Run(1, if Top(s.threads[1]).pc == Grace then Leave else Plain);
    }
  }

  lemma AlarmMoves(s: State) returns (e: Event)
    requires Inv(s) && !s.g.power.ending && s.g.alarm.Some?
    ensures CanAdvance(s, e)
  {
    Local(s, 0, 0);
    if s.g.now < s.g.alarm.value {
      e := Tick;
    } else if |s.threads[0].frames| > 1 {
      HandlerMoves(s, 0);
      e := Run(0, Plain);
    } else if s.threads[0].masked {
      e := Run(0, Plain);
    } else {
      e := Deliver(0, Alrm);
    }
  }

  /** After a first stop request and until the machine ends, the protocol can always advance, without
      the service's help. */
  lemma NeverStuck(s: State) returns (e: Event)
    requires Inv(s) && s.g.stop.requested && s.g.power.machine == Up
    ensures CanAdvance(s, e) && !External(e)
  {
    if s.g.power.ending {
      e := WinnerMoves(s);
    } else {
      match s.g.stop.owner {
        case Held(_, _) => e := OwnerMoves(s);
        case Stopping(_, _) => e := OwnerMoves(s);
        case InPipe => e := WorkerMoves(s);
        case Worker => e := WorkerMoves(s);
        case Spent =>
          if s.g.alarm.Some? {
            e := AlarmMoves(s);
          } else {
            var t: nat, i: nat :| Live(s, t, i) && DoomPc(FrameAt(s, t, i).pc);
            FrameMoves(s, t, i);
            e := Run(t, Plain);
          }
      }
    }
  }

  predicate AllAdvance(s: State, es: seq<Event>)
    requires Plays(s, es)
    decreases |es|
  {
    es == [] || (Advances(s, es[0]) && !External(es[0]) && AllAdvance(Next(s, es[0]), es[1..]))
  }

  lemma {:induction false} AllAdvanced(s: State, es: seq<Event>)
    requires Plays(s, es) && AllAdvance(s, es)
    ensures Advanced(s, es) == |es| && Requests(es) == 0
    decreases |es|
  {
    if es != [] {
      AllAdvanced(Next(s, es[0]), es[1..]);
    }
  }

  lemma RequestStays(s: State, e: Event)
    requires Inv(s) && Enabled(s, e) && s.g.stop.requested
    ensures Next(s, e).g.stop.requested
  {
    if e.Run? {
      var th := s.threads[e.t];
      RequestKept(s.g, e.t, |th.frames| - 1, Top(th).pc, e.how);
    }
  }

  lemma {:induction false} RequestAlong(s: State, es: seq<Event>)
    requires Inv(s) && Plays(s, es) && s.g.stop.requested
    ensures After(s, es).g.stop.requested
    decreases |es|
  {
    if es != [] {
      StepInv(s, es[0]);
      RequestStays(s, es[0]);
      RequestAlong(Next(s, es[0]), es[1..]);
    }
  }

  /** From every reachable state after a first stop request, with a service that never exits, however
      the protocol's own steps are ordered it takes at most as many as the ranking says, and it stops
      taking them only once the machine has ended. */
  lemma MachineEnds(s: State, es: seq<Event>)
    requires Reachable(s) && s.g.stop.requested
    requires Plays(s, es) && AllAdvance(s, es)
    ensures |es| <= Rank(s)
    ensures Stacked(After(s, es))
    ensures (forall e: Event :: !CanAdvance(After(s, es), e)) ==> After(s, es).g.power.machine.Ended?
  {
    ReachableInv(s);
    AllAdvanced(s, es);
    StepsBounded(s, es);
    InvAlong(s, es);
    RequestAlong(s, es);
    if After(s, es).g.power.machine == Up {
      var e := NeverStuck(After(s, es));
    }
  }

  lemma LeftStays(s: State, e: Event)
    requires Inv(s) && Enabled(s, e) && LeftToWorker(s)
    ensures Stacked(Next(s, e)) && LeftToWorker(Next(s, e))
  {
    StepInv(s, e);
    Local(s, 0, 0);
    if e.Run? && e.t == 0 {
      var th := s.threads[0];
      Local(s, 0, |th.frames| - 1);
    }
  }

  lemma {:induction false} LeftAlong(s: State, es: seq<Event>)
    requires Inv(s) && Plays(s, es) && LeftToWorker(s)
    ensures Inv(After(s, es)) && LeftToWorker(After(s, es))
    decreases |es|
  {
    if es != [] {
      StepInv(s, es[0]);
      LeftStays(s, es[0]);
      LeftAlong(Next(s, es[0]), es[1..]);
    }
  }

  /** From every reachable state with the service's exit left to the worker: in every run it stays so and
      `stop_service` never sees a service, and the protocol's own steps, however ordered, are bounded and
      stop only once the machine has ended. */
  lemma DeferredExitEndsMachine(s: State, es: seq<Event>)
    requires Reachable(s) && Stacked(s) && LeftToWorker(s) && Plays(s, es)
    ensures var s' := After(s, es);
            && Stacked(s') && LeftToWorker(s') && !s'.g.stop.sawLive
            && (AllAdvance(s, es) ==>
                  && |es| <= Rank(s)
                  && ((forall e: Event :: !CanAdvance(s', e)) ==> s'.g.power.machine.Ended?))
  {
    HandshakeNeverMisses(s);
    ReachableInv(s);
    LeftAlong(s, es);
    Local(After(s, es), 0, 0);
    if AllAdvance(s, es) {
      MachineEnds(s, es);
    }
  }

  /** And there is such a run to the end. */
  lemma {:induction false} RunToTheEnd(s: State) returns (es: seq<Event>)
    requires Inv(s) && s.g.stop.requested
    ensures Plays(s, es) && AllAdvance(s, es) && After(s, es).g.power.machine.Ended?
    decreases Rank(s)
  {
    if s.g.power.machine.Ended? {
      es := [];
    } else {
      var e := NeverStuck(s);
      StepInv(s, e);
      RequestStays(s, e);
      RankStep(s, e);
      var rest := RunToTheEnd(Next(s, e));
      es := [e] + rest;
      assert es[1..] == rest;
    }
  }
}
