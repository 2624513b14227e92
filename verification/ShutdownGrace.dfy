/** The service's own grace: once it was told to stop, only its exit, SIGINT or twenty seconds end the
    machine. */
module ShutdownGrace {
  import opened Wrappers
  import opened ShutdownModel
  import opened ShutdownInvariant
  import opened ShutdownSteps
  import opened ShutdownSafety

  /** A frame that is ending the machine and neither supervises nor handles SIGINT or the alarm: that of
      `stop_service`, which has found no service. */
  predicate StopperEnds(t: nat, i: nat, f: Frame) {
    PowerPc(f.pc) && (t, i) != (0, 0) && f.sig != Some(Int) && f.sig != Some(Alrm)
  }

  predicate Alarmed(f: Frame) {
    f.sig == Some(Alrm)
  }

  // Before the alarm is armed.

  /** What a frame says about the stop: no alarm handler without an alarm that was armed, nothing ends the
      machine in `stop_service` if it has found a service, and the supervising thread ends it only if no
      service runs. */
  predicate StopOf(st: Stop, svc: Svc, t: nat, i: nat, f: Frame) {
    && (Alarmed(f) ==> svc.deferred || st.owner.Spent?)
    && (StopperEnds(t, i, f) ==> st.owner.Spent? && !st.sawLive)
    && ((t, i) == (0, 0) && PowerPc(f.pc) ==> svc.process != Running)
    && (f.pc.Arm? ==> svc.told)
  }

  /** A service is sent SIGTERM just when `stop_service` finds it, before its alarm is armed. */
  predicate ToldOf(st: Stop, svc: Svc) {
    (svc.told ==> st.sawLive) && (st.sawLive && st.owner.Spent? ==> svc.told)
  }

  ghost predicate StopsOf(s: State) {
    && ToldOf(s.g.stop, s.g.svc)
    && forall t: nat, i: nat | Live(s, t, i) :: StopOf(s.g.stop, s.g.svc, t, i, FrameAt(s, t, i))
  }

  /** What a step of the protocol may do to the stop and to the service. */
  predicate Onward(g: Shared, g': Shared) {
    && (g.stop.owner.Spent? ==> g'.stop.owner.Spent? && g'.stop.sawLive == g.stop.sawLive)
    && (g.svc.deferred ==> g'.svc.deferred)
    && (g.svc.told ==> g'.svc.told)
    && (g'.svc.process == Running ==> g.svc.process == Running)
    && g'.now >= g.now
  }

  predicate MoverOf(g: Shared, t: nat, i: nat, f: Frame) {
    && SharedOk(g) && OwnerOk(g.stop, t, i, f.pc) && ShapeOk(t, i, true, MaskedPc(f.pc), f)
    && (t == 0 && i == 0 ==> MainOk(g.stop, g.svc, f.pc))
  }

  lemma MoveOnward(g: Shared, t: nat, i: nat, f: Frame, how: How)
    requires Steps(g, f.pc, how) && MoverOf(g, t, i, f)
    ensures Onward(g, GAfter(g, t, i, f.pc, how))
  {
  }

  lemma StopperMove(g: Shared, t: nat, i: nat, f: Frame, how: How, pc: Pc)
    requires Steps(g, f.pc, how) && MoverOf(g, t, i, f) && MoveOf(g, t, i, f.pc, how) == Goto(pc)
    requires StopperEnds(t, i, f) ==> g.stop.owner.Spent? && !g.stop.sawLive
    ensures var st := GAfter(g, t, i, f.pc, how).stop;
            StopperEnds(t, i, f.(pc := pc)) ==> st.owner.Spent? && !st.sawLive
  {
  }

  lemma MainMove(g: Shared, f: Frame, how: How, pc: Pc)
    requires Steps(g, f.pc, how) && MoverOf(g, 0, 0, f) && MoveOf(g, 0, 0, f.pc, how) == Goto(pc)
    requires PowerPc(f.pc) ==> g.svc.process != Running
    ensures PowerPc(pc) ==> GAfter(g, 0, 0, f.pc, how).svc.process != Running
  {
  }

  lemma ToldMove(g: Shared, t: nat, i: nat, f: Frame, how: How)
    requires Steps(g, f.pc, how) && MoverOf(g, t, i, f) && ToldOf(g.stop, g.svc) && (f.pc.Arm? ==> g.svc.told)
    ensures ToldOf(GAfter(g, t, i, f.pc, how).stop, GAfter(g, t, i, f.pc, how).svc)
    ensures MoveOf(g, t, i, f.pc, how) == Goto(Arm) ==> GAfter(g, t, i, f.pc, how).svc.told
  {
  }

  lemma StopMove(g: Shared, t: nat, i: nat, f: Frame, how: How, pc: Pc)
    requires Steps(g, f.pc, how) && MoverOf(g, t, i, f) && StopOf(g.stop, g.svc, t, i, f)
    requires MoveOf(g, t, i, f.pc, how) == Goto(pc) && ToldOf(g.stop, g.svc)
    ensures StopOf(GAfter(g, t, i, f.pc, how).stop, GAfter(g, t, i, f.pc, how).svc, t, i, f.(pc := pc))
  {
    MoveOnward(g, t, i, f, how);
    ToldMove(g, t, i, f, how);
    StopperMove(g, t, i, f, how, pc);
    if (t, i) == (0, 0) {
      MainMove(g, f, how, pc);
    }
  }

  lemma StopStays(g: Shared, g': Shared, t: nat, i: nat, f: Frame)
    requires Onward(g, g') && StopOf(g.stop, g.svc, t, i, f)
    ensures StopOf(g'.stop, g'.svc, t, i, f)
  {
  }

  lemma Mover(s: State, u: nat)
    requires Inv(s) && u < |s.threads|
    ensures Live(s, u, |s.threads[u].frames| - 1)
    ensures MoverOf(s.g, u, |s.threads[u].frames| - 1, Top(s.threads[u]))
  {
    Local(s, u, |s.threads[u].frames| - 1);
  }

  /** After a step of thread `u`, a frame is the one it was, or the one that moved. */
  lemma FrameRun(s: State, u: nat, how: How, t: nat, i: nat, s': State)
    requires Stacked(s) && Enabled(s, Run(u, how)) && s' == Next(s, Run(u, how)) && Live(s', t, i)
    ensures Live(s, t, i)
    ensures var (f, f') := (FrameAt(s, t, i), FrameAt(s', t, i));
            f' == f || (t == u && IsTop(s, t, i) && Steps(s.g, f.pc, how)
                        && MoveOf(s.g, t, i, f.pc, how) == Goto(f'.pc) && f' == f.(pc := f'.pc))
    ensures s'.g == GAfter(s.g, u, |s.threads[u].frames| - 1, Top(s.threads[u]).pc, how)
  {
  }

  lemma RunOnward(s: State, e: Event)
    requires Inv(s) && Enabled(s, e)
    ensures Onward(s.g, Next(s, e).g)
  {
    if e.Run? {
      Mover(s, e.t);
      MoveOnward(s.g, e.t, |s.threads[e.t].frames| - 1, Top(s.threads[e.t]), e.how);
    }
  }

  lemma StopNow(s: State, t: nat, i: nat)
    requires StopsOf(s) && Live(s, t, i)
    ensures StopOf(s.g.stop, s.g.svc, t, i, FrameAt(s, t, i))
  {
  }

  lemma FrameStays(s: State, e: Event, t: nat, i: nat, s': State)
    requires Inv(s) && Enabled(s, e) && StopsOf(s) && s' == Next(s, e)
    requires Live(s, t, i) && Live(s', t, i) && FrameAt(s', t, i) == FrameAt(s, t, i)
    ensures StopOf(s'.g.stop, s'.g.svc, t, i, FrameAt(s', t, i))
  {
    StopNow(s, t, i);
    RunOnward(s, e);
    StopStays(s.g, s'.g, t, i, FrameAt(s, t, i));
  }

  lemma FrameMoves(s: State, u: nat, how: How, pc: Pc, s': State)
    requires Inv(s) && Enabled(s, Run(u, how)) && StopsOf(s) && s' == Next(s, Run(u, how))
    requires var (i, f) := (|s.threads[u].frames| - 1, Top(s.threads[u]));
             MoveOf(s.g, u, i, f.pc, how) == Goto(pc)
    ensures var (i, f) := (|s.threads[u].frames| - 1, Top(s.threads[u]));
            StopOf(s'.g.stop, s'.g.svc, u, i, f.(pc := pc))
  {
    var (i, f) := (|s.threads[u].frames| - 1, Top(s.threads[u]));
    Mover(s, u);
    StopNow(s, u, i);
    StopMove(s.g, u, i, f, how, pc);
  }

  lemma StopRun(s: State, u: nat, how: How, t: nat, i: nat, s': State)
    requires Inv(s) && Enabled(s, Run(u, how)) && StopsOf(s) && s' == Next(s, Run(u, how)) && Live(s', t, i)
    ensures StopOf(s'.g.stop, s'.g.svc, t, i, FrameAt(s', t, i))
  {
    FrameRun(s, u, how, t, i, s');
    if FrameAt(s', t, i) == FrameAt(s, t, i) {
      FrameStays(s, Run(u, how), t, i, s');
    } else {
      FrameMoves(s, u, how, FrameAt(s', t, i).pc, s');
    }
  }

  lemma FrameElse(s: State, e: Event, t: nat, i: nat, s': State)
    requires Stacked(s) && Enabled(s, e) && !e.Run? && s' == Next(s, e) && Live(s', t, i)
    ensures || (Live(s, t, i) && FrameAt(s', t, i) == FrameAt(s, t, i))
            || (e.Deliver? && FrameAt(s', t, i) == Frame(Some(e.sig), Entry(e.sig)) && i > 0)
            || (Live(s, t, i) && FrameAt(s, t, i).pc.StartWorker?
                && FrameAt(s', t, i) == FrameAt(s, t, i).(pc := Wait(Serving)))
            || (FrameAt(s', t, i).sig.None? && !PowerPc(FrameAt(s', t, i).pc))
  {
  }

  lemma DeliveredStop(s: State, t: nat, sig: Signal, i: nat)
    requires Stacked(s) && AlarmOk(s.g) && Enabled(s, Deliver(t, sig)) && i > 0
    ensures StopOf(s.g.stop, s.g.svc, t, i, Frame(Some(sig), Entry(sig)))
  {
  }

  lemma ElseStop(s: State, e: Event)
    requires Stacked(s) && Enabled(s, e) && !e.Run?
    ensures var g' := Next(s, e).g;
            && g'.stop.owner == s.g.stop.owner && g'.stop.sawLive == s.g.stop.sawLive
            && g'.svc.deferred == s.g.svc.deferred && g'.svc.told == s.g.svc.told
            && (g'.svc.process == Running ==> s.g.svc.process == Running)
  {
  }

  lemma StopElse(s: State, e: Event, t: nat, i: nat, s': State)
    requires Stacked(s) && AlarmOk(s.g) && Enabled(s, e) && !e.Run? && StopsOf(s)
    requires s' == Next(s, e) && Live(s', t, i)
    ensures StopOf(s'.g.stop, s'.g.svc, t, i, FrameAt(s', t, i))
  {
    FrameElse(s, e, t, i, s');
    ElseStop(s, e);
    if Live(s, t, i) {
      StopNow(s, t, i);
    }
    if e.Deliver? && i > 0 {
      DeliveredStop(s, e.t, e.sig, i);
    }
  }

  lemma ToldStep(s: State, e: Event)
    requires Inv(s) && Enabled(s, e) && StopsOf(s)
    ensures ToldOf(Next(s, e).g.stop, Next(s, e).g.svc)
  {
    if e.Run? {
      var (n, f) := (|s.threads[e.t].frames| - 1, Top(s.threads[e.t]));
      Mover(s, e.t);
      StopNow(s, e.t, n);
      ToldMove(s.g, e.t, n, f, e.how);
    }
  }

  lemma StopsStep(s: State, e: Event)
    requires Inv(s) && Enabled(s, e) && StopsOf(s)
    ensures StopsOf(Next(s, e))
  {
    var s' := Next(s, e);
    ToldStep(s, e);
    forall t: nat, i: nat | Live(s', t, i)
      ensures StopOf(s'.g.stop, s'.g.svc, t, i, FrameAt(s', t, i))
    {
      if e.Run? {
        StopRun(s, e.t, e.how, t, i, s');
      } else {
        StopElse(s, e, t, i, s');
      }
    }
  }

  lemma {:induction false} StopsAlong(s: State, es: seq<Event>)
    requires Inv(s) && StopsOf(s) && Plays(s, es)
    ensures StopsOf(After(s, es))
    decreases |es|
  {
    if es != [] {
      StepInv(s, es[0]);
      StopsStep(s, es[0]);
      StopsAlong(Next(s, es[0]), es[1..]);
    }
  }

  lemma InitStops(s: State)
    requires Init(s)
    ensures StopsOf(s)
  {
    forall t: nat, i: nat | Live(s, t, i)
      ensures StopOf(s.g.stop, s.g.svc, t, i, FrameAt(s, t, i))
    {
      assert FrameAt(s, t, i).sig.None?;
    }
  }

  lemma ReachableStops(s: State)
    requires Reachable(s)
    ensures StopsOf(s)
  {
    var s0: State, es: seq<Event> :| Init(s0) && Plays(s0, es) && After(s0, es) == s;
    InitInv(s0);
    InitStops(s0);
    StopsAlong(s0, es);
  }

  /** The service is sent SIGTERM only after a stop request, when `stop_service` finds it; and it has been
      whenever its alarm is armed. */
  lemma ServiceTold(s: State)
    requires Reachable(s)
    ensures s.g.svc.told ==> s.g.stop.requested && s.g.stop.stopping && s.g.stop.sawLive
    ensures s.g.alarm.Some? ==> s.g.svc.told || s.g.svc.deferred
  {
    ReachableInv(s);
    ReachableStops(s);
  }

  // Once it is armed.

  /** The alarm armed at `then` is pending, or its time has come; as long as the service runs. */
  predicate Armed(g: Shared, since: nat) {
    && g.stop.owner.Spent? && g.stop.sawLive
    && (g.svc.process == Running ==> g.alarm == Some(since + 20) || since + 20 <= g.now)
  }

  ghost predicate NotEarly(s: State, since: nat) {
    forall t: nat, i: nat | Live(s, t, i) && Alarmed(FrameAt(s, t, i)) && s.g.svc.process == Running ::
      since + 20 <= s.g.now
  }

  lemma ArmedMove(g: Shared, t: nat, i: nat, f: Frame, how: How, since: nat)
    requires Steps(g, f.pc, how) && MoverOf(g, t, i, f) && Armed(g, since)
    ensures Armed(GAfter(g, t, i, f.pc, how), since)
  {
  }

  lemma ArmedStep(s: State, e: Event, since: nat)
    requires Inv(s) && Enabled(s, e) && Armed(s.g, since) && NotEarly(s, since)
    ensures Armed(Next(s, e).g, since) && NotEarly(Next(s, e), since)
  {
    var s' := Next(s, e);
    RunOnward(s, e);
    if e.Run? {
      Mover(s, e.t);
      ArmedMove(s.g, e.t, |s.threads[e.t].frames| - 1, Top(s.threads[e.t]), e.how, since);
    }
    forall t: nat, i: nat | Live(s', t, i) && Alarmed(FrameAt(s', t, i)) && s'.g.svc.process == Running
      ensures since + 20 <= s'.g.now
    {
      SameSignals(s, e, t, i);
    }
  }

  lemma {:induction false} ArmedAlong(s: State, es: seq<Event>, since: nat)
    requires Inv(s) && Plays(s, es) && Armed(s.g, since) && NotEarly(s, since)
    ensures Armed(After(s, es).g, since) && NotEarly(After(s, es), since)
    decreases |es|
  {
    if es != [] {
      StepInv(s, es[0]);
      ArmedStep(s, es[0], since);
      ArmedAlong(Next(s, es[0]), es[1..], since);
    }
  }

  /** Arming finds no alarm handler at work, as long as the service runs. */
  lemma JustArmed(s: State, t: nat)
    requires Inv(s) && StopsOf(s) && Enabled(s, Run(t, Plain)) && Top(s.threads[t]).pc == Arm
    ensures Armed(Next(s, Run(t, Plain)).g, s.g.now) && NotEarly(Next(s, Run(t, Plain)), s.g.now)
  {
    var (s', n) := (Next(s, Run(t, Plain)), |s.threads[t].frames| - 1);
    Mover(s, t);
    Local(s, 0, 0);
    assert s.g.stop.owner == Stopping(t, n);
    forall u: nat, i: nat | Live(s', u, i) && s'.g.svc.process == Running
      ensures !Alarmed(FrameAt(s', u, i))
    {
      SameSignals(s, Run(t, Plain), u, i);
      if Live(s, u, i) {
        StopNow(s, u, i);
      }
    }
  }

  /** The frame that is ending the machine: supervising, or handling SIGINT or the alarm. */
  lemma WhoEnds(s: State) returns (t: nat, i: nat)
    requires Inv(s) && StopsOf(s) && s.g.stop.sawLive && s.g.power.ending
    ensures Live(s, t, i)
    ensures var f := FrameAt(s, t, i);
            f.sig == Some(Int) || Alarmed(f) || s.g.svc.process != Running
  {
    t := s.g.power.winner.value;
    i := |s.threads[t].frames| - 1;
    Local(s, t, i);
    assert WinPc(FrameAt(s, t, i).pc);
    assert StopOf(s.g.stop, s.g.svc, t, i, FrameAt(s, t, i));
  }

  /** A service that was told to stop has its twenty seconds: in every run from there, while the service
      still runs and without SIGINT, the machine is not ending before they are over. */
  lemma ServiceGraceWhole(s: State, t: nat, es: seq<Event>)
    requires Reachable(s) && Stacked(s) && Enabled(s, Run(t, Plain)) && Top(s.threads[t]).pc == Arm
    requires Plays(Next(s, Run(t, Plain)), es)
    ensures var s' := After(Next(s, Run(t, Plain)), es);
            s'.g.power.ending && s'.g.svc.process == Running && !Interrupted(s') ==> s.g.now + 20 <= s'.g.now
  {
    var s1 := Next(s, Run(t, Plain));
    ReachableInv(s);
    ReachableStops(s);
    JustArmed(s, t);
    StepInv(s, Run(t, Plain));
    StopsStep(s, Run(t, Plain));
    ArmedAlong(s1, es, s.g.now);
    InvAlong(s1, es);
    StopsAlong(s1, es);
    var s' := After(s1, es);
    if s'.g.power.ending && s'.g.svc.process == Running && !Interrupted(s') {
      var u, i := WhoEnds(s');
    }
  }
}
