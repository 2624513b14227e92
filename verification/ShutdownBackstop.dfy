/** Exactly when the backstop alarm cuts the workloads' grace short. */
module ShutdownBackstop {
  import opened Wrappers
  import opened ShutdownModel
  import opened ShutdownInvariant
  import opened ShutdownSafety

  // Reachability, one event at a time.

  lemma {:induction false} PlaysMore(s: State, es: seq<Event>, e: Event)
    requires Plays(s, es) && Stacked(After(s, es)) && Enabled(After(s, es), e)
    ensures Plays(s, es + [e]) && After(s, es + [e]) == Next(After(s, es), e)
    decreases |es|
  {
    if es == [] {
      assert [e][1..] == [];
      assert es + [e] == [e];
    } else {
      assert (es + [e])[1..] == es[1..] + [e];
      PlaysMore(Next(s, es[0]), es[1..], e);
    }
  }

  lemma ReachableNext(s: State, e: Event)
    requires Reachable(s) && Stacked(s) && Enabled(s, e)
    ensures Reachable(Next(s, e))
  {
    var s0: State, es: seq<Event> :| Init(s0) && Plays(s0, es) && After(s0, es) == s;
    PlaysMore(s0, es, e);
  }

  // The supervising thread and the stop worker, and a handler on top of the former.

  function Two(g: Shared, main: Pc, worker: Pc): State {
    State(g, [Thread([Frame(None, main)], false), Thread([Frame(None, worker)], false)])
  }

  function Handling(g: Shared, main: Pc, sig: Signal, pc: Pc, masked: bool, worker: Pc): State {
    State(g, [Thread([Frame(None, main), Frame(Some(sig), pc)], masked),
              Thread([Frame(None, worker)], false)])
  }

  lemma First<T>(a: T, b: T, x: T)
    ensures [a, b][0 := x] == [x, b]
  {
  }

  lemma Second<T>(a: T, b: T, x: T)
    ensures [a, b][1 := x] == [a, x]
  {
  }

  lemma OneFrame(f: Frame, masked: bool, pc: Pc)
    ensures SetTop(Thread([f], masked), pc) == Thread([f.(pc := pc)], masked || f.pc == Mask)
  {
    assert [f][0 := f.(pc := pc)] == [f.(pc := pc)];
  }

  lemma TwoFrames(e: Frame, f: Frame, masked: bool, pc: Pc)
    ensures SetTop(Thread([e, f], masked), pc) == Thread([e, f.(pc := pc)], masked || f.pc == Mask)
  {
    Second(e, f, f.(pc := pc));
  }

  lemma Moves(s: State, t: nat, how: How, g': Shared, move: Move, th': Thread, threads: seq<Thread>)
    requires Stacked(s) && Enabled(s, Run(t, how))
    requires Effect(s.g, t, |s.threads[t].frames| - 1, Top(s.threads[t]).pc, how) == (g', move)
    requires Moved(s.threads[t], move) == th' && s.threads[t := th'] == threads
    ensures Next(s, Run(t, how)) == State(g', threads)
  {
  }

  lemma MainStep(g: Shared, main: Pc, worker: Pc, how: How, g': Shared, main': Pc)
    requires Reachable(Two(g, main, worker)) && Steps(g, main, how) && main != Mask
    requires Effect(g, 0, 0, main, how) == (g', Goto(main'))
    ensures Reachable(Two(g', main', worker))
  {
    var s := Two(g, main, worker);
    var th' := Thread([Frame(None, main')], false);
    OneFrame(Frame(None, main), false, main');
    First(s.threads[0], s.threads[1], th');
    Moves(s, 0, how, g', Goto(main'), th', [th', s.threads[1]]);
    ReachableNext(s, Run(0, how));
  }

  lemma WorkerStep(g: Shared, main: Pc, worker: Pc, g': Shared, worker': Pc)
    requires Reachable(Two(g, main, worker)) && Steps(g, worker, Plain) && worker != Mask
    requires Effect(g, 1, 0, worker, Plain) == (g', Goto(worker'))
    ensures Reachable(Two(g', main, worker'))
  {
    var s := Two(g, main, worker);
    var th' := Thread([Frame(None, worker')], false);
    OneFrame(Frame(None, worker), false, worker');
    Second(s.threads[0], s.threads[1], th');
    Moves(s, 1, Plain, g', Goto(worker'), th', [s.threads[0], th']);
    ReachableNext(s, Run(1, Plain));
  }

  lemma HandlerStep(g: Shared, main: Pc, sig: Signal, pc: Pc, masked: bool, worker: Pc, g': Shared, pc': Pc)
    requires Reachable(Handling(g, main, sig, pc, masked, worker)) && Steps(g, pc, Plain)
    requires Effect(g, 0, 1, pc, Plain) == (g', Goto(pc'))
    ensures Reachable(Handling(g', main, sig, pc', masked || pc == Mask, worker))
  {
    var s := Handling(g, main, sig, pc, masked, worker);
    var th' := Thread([Frame(None, main), Frame(Some(sig), pc')], masked || pc == Mask);
    TwoFrames(Frame(None, main), Frame(Some(sig), pc), masked, pc');
    First(s.threads[0], s.threads[1], th');
    Moves(s, 0, Plain, g', Goto(pc'), th', [th', s.threads[1]]);
    ReachableNext(s, Run(0, Plain));
  }

  lemma HandlerReturns(g: Shared, main: Pc, sig: Signal, pc: Pc, worker: Pc, g': Shared)
    requires Reachable(Handling(g, main, sig, pc, false, worker)) && Steps(g, pc, Plain)
    requires Effect(g, 0, 1, pc, Plain) == (g', Return)
    ensures Reachable(Two(g', main, worker))
  {
    var s := Handling(g, main, sig, pc, false, worker);
    var th' := Thread([Frame(None, main)], false);
    assert [Frame(None, main), Frame(Some(sig), pc)][..1] == [Frame(None, main)];
    First(s.threads[0], s.threads[1], th');
    Moves(s, 0, Plain, g', Return, th', [th', s.threads[1]]);
    ReachableNext(s, Run(0, Plain));
  }

  lemma Delivered(g: Shared, main: Pc, worker: Pc, sig: Signal, g': Shared)
    requires Reachable(Two(g, main, worker)) && main != Done
    requires sig == Alrm ==> g.alarm.Some? && g.alarm.value <= g.now
    requires g' == if sig == Alrm then g.(alarm := None) else g
    ensures Reachable(Handling(g', main, sig, Entry(sig), false, worker))
  {
    var s := Two(g, main, worker);
    var (e, f) := (Frame(None, main), Frame(Some(sig), Entry(sig)));
    assert [e] + [f] == [e, f];
    First(s.threads[0], s.threads[1], Thread([e, f], false));
    ReachableNext(s, Deliver(0, sig));
    Pushed(s, sig, g', Thread([e, f], false), [Thread([e, f], false), s.threads[1]]);
  }

  lemma Pushed(s: State, sig: Signal, g': Shared, th': Thread, threads: seq<Thread>)
    requires Stacked(s) && Enabled(s, Deliver(0, sig))
    requires g' == if sig == Alrm then s.g.(alarm := None) else s.g
    requires s.threads[0].(frames := s.threads[0].frames + [Frame(Some(sig), Entry(sig))]) == th'
    requires s.threads[0 := th'] == threads
    ensures Next(s, Deliver(0, sig)) == State(g', threads)
  {
  }

  lemma {:induction false} TimePasses(g: Shared, main: Pc, worker: Pc, seconds: nat)
    requires Reachable(Two(g, main, worker))
    ensures Reachable(Two(g.(now := g.now + seconds), main, worker))
  {
    if seconds > 0 {
      TimePasses(g, main, worker, seconds - 1);
      var s := Two(g.(now := g.now + (seconds - 1)), main, worker);
      ReachableNext(s, Tick);
      assert Next(s, Tick) == Two(g.(now := g.now + seconds), main, worker);
    }
  }

  // The run: a power-off request, then the service's exit before the worker reads its pipe.

  const SERVING: Shared := QUIET.(stop := QUIET.stop.(wake := true))

  lemma PortsOpen()
    ensures Reachable(State(QUIET, [Thread([Frame(None, StartWorker)], false)]))
  {
    var s := State(QUIET, [Thread([Frame(None, Gate)], false)]);
    assert Plays(s, []) && After(s, []) == s;
    var th' := Thread([Frame(None, StartWorker)], false);
    OneFrame(Frame(None, Gate), false, StartWorker);
    assert s.threads[0 := th'] == [th'];
    Moves(s, 0, Open, QUIET, Goto(StartWorker), th', [th']);
    ReachableNext(s, Run(0, Open));
  }

  lemma ServiceUp()
    ensures Reachable(Two(SERVING, Wait(Serving), ReadPipe))
  {
    PortsOpen();
    var s := State(QUIET, [Thread([Frame(None, StartWorker)], false)]);
    var (th', worker) := (Thread([Frame(None, Wait(Serving))], false), Thread([Frame(None, ReadPipe)], false));
    OneFrame(Frame(None, StartWorker), false, Wait(Serving));
    assert s.threads[0 := th'] + [worker] == [th', worker];
    ReachableNext(s, Publish);
  }

  const ASKED: Shared :=
    SERVING.(power := SERVING.power.(poweroffRequested := true),
             stop := SERVING.stop.(requested := true, pipe := 1, owner := InPipe))

  lemma Stored(g: Shared, main: Pc, worker: Pc, g': Shared)
    requires Reachable(Two(g, main, worker)) && main != Done
    requires g' == g.(power := g.power.(poweroffRequested := true))
    ensures Reachable(Handling(g', main, Off, SwapStop, false, worker))
  {
    Delivered(g, main, worker, Off, g);
    HandlerStep(g, main, Off, StorePoweroff, false, worker, g', SwapStop);
  }

  lemma Won(g: Shared, main: Pc, worker: Pc, g': Shared)
    requires Reachable(Handling(g, main, Off, SwapStop, false, worker))
    requires !g.stop.requested && g.stop.wake
    requires g' == g.(stop := g.stop.(requested := true, owner := Held(0, 1)))
    ensures Reachable(Handling(g', main, Off, WriteWake, false, worker))
  {
    HandlerStep(g, main, Off, SwapStop, false, worker, g', LoadWake);
    HandlerStep(g', main, Off, LoadWake, false, worker, g', WriteWake);
  }

  lemma Woken(g: Shared, main: Pc, worker: Pc, g': Shared)
    requires Reachable(Handling(g, main, Off, WriteWake, false, worker))
    requires g.stop.pipe == 0 && g' == g.(stop := g.stop.(pipe := 1, owner := InPipe))
    ensures Reachable(Two(g', main, worker))
  {
    HandlerReturns(g, main, Off, WriteWake, worker, g');
  }

  lemma Requested(g: Shared, main: Pc, worker: Pc, g': Shared)
    requires Reachable(Two(g, main, worker)) && main != Done
    requires !g.stop.requested && g.stop.wake && g.stop.pipe == 0
    requires g' == g.(power := g.power.(poweroffRequested := true),
                      stop := g.stop.(requested := true, pipe := 1, owner := InPipe))
    ensures Reachable(Two(g', main, worker))
  {
    var g1 := g.(power := g.power.(poweroffRequested := true));
    var g2 := g1.(stop := g1.stop.(requested := true, owner := Held(0, 1)));
    Stored(g, main, worker, g1);
    Won(g1, main, worker, g2);
    Woken(g2, main, worker, g');
  }

  lemma PowerOffAsked()
    ensures Reachable(Two(ASKED, Wait(Serving), ReadPipe))
  {
    ServiceUp();
    Requested(SERVING, Wait(Serving), ReadPipe, ASKED);
  }

  const LEFT: Shared := ASKED.(svc := Svc(false, Reaped, true, 0, false), alarm := Some(BACKSTOP))

  lemma ServiceGone(g: Shared)
    requires g == ASKED.(svc := ASKED.svc.(process := Zombie))
    ensures Reachable(Two(g, Wait(Serving), ReadPipe))
  {
    PowerOffAsked();
    ReachableNext(Two(ASKED, Wait(Serving), ReadPipe), ServiceExits);
  }

  lemma ServiceReaped(g: Shared)
    requires g == ASKED.(svc := Svc(false, Reaped, false, 0, false))
    ensures Reachable(Two(g, ReadStop(false), ReadPipe))
  {
    var g1 := ASKED.(svc := ASKED.svc.(process := Zombie));
    var g2 := g1.(svc := g1.svc.(process := Reaped));
    ServiceGone(g1);
    MainStep(g1, Wait(Serving), ReadPipe, Reap, g2, ClearPid(false));
    MainStep(g2, ClearPid(false), ReadPipe, Plain, g, ReadStop(false));
  }

  lemma ToDefer(g: Shared, worker: Pc)
    requires Reachable(Two(g, ReadStop(false), worker)) && g.stop.requested && !g.stop.stopping
    ensures Reachable(Two(g, Defer(false), worker))
  {
    MainStep(g, ReadStop(false), worker, Plain, g, ReadStopping(false));
    MainStep(g, ReadStopping(false), worker, Plain, g, Defer(false));
  }

  lemma ExitLeft()
    ensures Reachable(Two(LEFT, Wait(Deferred), ReadPipe))
  {
    var g := ASKED.(svc := Svc(false, Reaped, false, 0, false));
    ServiceReaped(g);
    ToDefer(g, ReadPipe);
    MainStep(g, Defer(false), ReadPipe, Plain, LEFT, Wait(Deferred));
  }

  /** The grace begins `delay` seconds later. */
  function Begun(delay: nat): Shared {
    LEFT.(stop := LEFT.stop.(pipe := 0, owner := Worker, graceStart := delay), now := delay)
  }

  lemma GraceBegins(delay: nat)
    ensures Reachable(Two(Begun(delay), Wait(Deferred), Grace))
  {
    ExitLeft();
    TimePasses(LEFT, Wait(Deferred), ReadPipe, delay);
    WorkerStep(LEFT.(now := delay), Wait(Deferred), ReadPipe, Begun(delay), Grace);
  }

  /** What the alarm's handler leaves. */
  function EndedBy(g: Shared): Shared {
    g.(alarm := None,
       power := g.power.(ending := true, winner := Some(0), machine := Ended(PowerOff),
                         ends := g.power.ends + 1))
  }

  lemma AlarmMasks(g: Shared, main: Pc, worker: Pc, g': Shared)
    requires Reachable(Two(g, main, worker)) && main != Done && g.alarm.Some? && g.alarm.value <= g.now
    requires g' == g.(alarm := None)
    ensures Reachable(Handling(g', main, Alrm, SwapEnding, true, worker))
  {
    Delivered(g, main, worker, Alrm, g');
    HandlerStep(g', main, Alrm, Mask, false, worker, g', SwapEnding);
  }

  lemma WinsAndFlushes(g: Shared, main: Pc, worker: Pc, g': Shared)
    requires Reachable(Handling(g, main, Alrm, SwapEnding, true, worker)) && !g.power.ending
    requires g' == g.(power := g.power.(ending := true, winner := Some(0)))
    ensures Reachable(Handling(g', main, Alrm, LoadReboot, true, worker))
  {
    HandlerStep(g, main, Alrm, SwapEnding, true, worker, g', Flush);
    HandlerStep(g', main, Alrm, Flush, true, worker, g', LoadReboot);
  }

  lemma PowersOff(g: Shared, main: Pc, worker: Pc, g': Shared)
    requires Reachable(Handling(g, main, Alrm, LoadReboot, true, worker)) && !g.power.rebootRequested
    requires g' == g.(power := g.power.(machine := Ended(PowerOff), ends := g.power.ends + 1))
    ensures Reachable(Handling(g', main, Alrm, Gone, true, worker))
  {
    HandlerStep(g, main, Alrm, LoadReboot, true, worker, g, End(PowerOff));
    HandlerStep(g, main, Alrm, End(PowerOff), true, worker, g', Gone);
  }

  /** The alarm goes off and its handler ends the machine. */
  lemma AlarmEnds(g: Shared)
    requires Reachable(Two(g, Wait(Deferred), Grace)) && g.alarm.Some? && g.alarm.value <= g.now
    requires !g.power.ending && !g.power.rebootRequested
    ensures Reachable(Handling(EndedBy(g), Wait(Deferred), Alrm, Gone, true, Grace))
  {
    var g1 := g.(alarm := None);
    var g2 := g1.(power := g1.power.(ending := true, winner := Some(0)));
    AlarmMasks(g, Wait(Deferred), Grace, g1);
    WinsAndFlushes(g1, Wait(Deferred), Grace, g2);
    PowersOff(g2, Wait(Deferred), Grace, EndedBy(g));
  }

  /** A grace that begins more than five seconds after the service's exit can be cut short. */
  lemma CutShortWitness(delay: nat) returns (s: State)
    requires delay > 5
    ensures Reachable(s) && CutShort(s, delay)
  {
    GraceBegins(delay);
    var wait: nat := if delay < BACKSTOP then BACKSTOP - delay else 0;
    TimePasses(Begun(delay), Wait(Deferred), Grace, wait);
    var g := Begun(delay).(now := delay + wait);
    AlarmEnds(g);
    s := Handling(EndedBy(g), Wait(Deferred), Alrm, Gone, true, Grace);
    forall t: nat, i: nat | Live(s, t, i)
      ensures FrameAt(s, t, i).sig != Some(Int)
    {
    }
  }

  /** The exact condition, over all runs: without SIGINT the machine can end while the workloads' grace
      is running if and only if the grace begins more than five seconds after the service's exit was
      left to the worker. A grace begun before the exit is always whole. */
  lemma CutShortIff(delay: int)
    ensures (exists s: State :: Reachable(s) && CutShort(s, delay)) <==> delay > 5
  {
    if delay > 5 {
      var s := CutShortWitness(delay);
    }
    forall s: State | Reachable(s) && CutShort(s, delay)
      ensures delay > 5
    {
      GraceWhole(s, delay);
    }
  }
}
