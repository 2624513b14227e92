/** What every step of the shutdown protocol keeps. */
module ShutdownInvariant {
  import opened Wrappers
  import opened ShutdownModel

  predicate MainPc(pc: Pc) {
    pc.Gate? || pc.StartWorker? || pc.Wait? || Exiting(pc)
  }

  /** `end_on_service_exit` after the service was reaped. */
  predicate Exiting(pc: Pc) {
    pc.ClearPid? || pc.ReadStop? || pc.ReadStopping? || pc.Defer?
  }

  /** Before the stop worker exists. */
  predicate Early(pc: Pc) {
    pc.Gate? || pc.StartWorker? || (Exiting(pc) && pc.gate)
  }

  predicate WorkerPc(pc: Pc) {
    pc.ReadPipe? || pc.Grace? || pc.Done?
  }

  predicate HandlerPc(pc: Pc) {
    pc.StorePoweroff? || pc.StoreReboot? || pc.SwapStop? || pc.LoadWake? || pc.WriteWake?
  }

  /** Past the store that announces the service's stop. */
  predicate LatePc(pc: Pc) {
    pc.LoadPid? || pc.Kill? || pc.Arm?
  }

  predicate StopPc(pc: Pc) {
    pc.StoreStopping? || LatePc(pc)
  }

  /** The first `poweroff` call, past the swap it won. */
  predicate WinPc(pc: Pc) {
    pc.Flush? || pc.LoadReboot? || pc.LoadPoweroff? || pc.End? || pc.Gone?
  }

  predicate MaskedPc(pc: Pc) {
    pc.SwapEnding? || pc.Parked? || WinPc(pc)
  }

  predicate PowerPc(pc: Pc) {
    pc.Mask? || MaskedPc(pc)
  }

  /** A handler that has won the first stop request and not yet passed it on. */
  predicate OwnPc(pc: Pc) {
    pc.LoadWake? || pc.WriteWake? || pc.StoreStopping?
  }

  // Each frame, alone against the shared state.

  /** Which code a frame runs, and whether it may be interrupted. */
  predicate ShapeOk(t: nat, i: nat, top: bool, masked: bool, f: Frame) {
    && (i == 0 <==> f.sig.None?)
    && (i == 0 && t == 0 ==> MainPc(f.pc) || PowerPc(f.pc))
    && (i == 0 && t == 1 ==> WorkerPc(f.pc) || StopPc(f.pc) || PowerPc(f.pc))
    && (i == 0 && t >= 2 ==> f.pc.Idle?)
    && (i > 0 ==> HandlerPc(f.pc) || StopPc(f.pc) || PowerPc(f.pc))
    && (i > 0 && (f.sig == Some(Int) || f.sig == Some(Alrm)) ==> PowerPc(f.pc))
    && (if top then masked == MaskedPc(f.pc) else !MaskedPc(f.pc) && !f.pc.Done?)
  }

  /** The winner of the race to end the machine is the top frame of its thread. */
  predicate WinnerOk(p: Power, t: nat, top: bool, pc: Pc) {
    && (WinPc(pc) ==> p.winner == Some(t))
    && (top && p.winner == Some(t) ==> WinPc(pc))
    && (pc.Parked? ==> p.ending)
    && (pc.Gone? ==> p.machine.Ended? && p.ends == 1)
    && (WinPc(pc) && !pc.Gone? ==> p.machine == Up && p.ends == 0)
    && (pc == End(Restart) || pc.LoadPoweroff? ==> p.rebootRequested)
  }

  /** The first stop request is in one place only. */
  predicate OwnerOk(st: Stop, t: nat, i: nat, pc: Pc) {
    && (if t == 1 && i == 0 then
          && (pc.Grace? || pc.StoreStopping? <==> st.owner == Worker)
          && (st.owner.Nobody? || st.owner.Held? || st.owner.InPipe? ==> pc.ReadPipe?)
          && st.owner != Held(1, 0)
        else OwnPc(pc) <==> st.owner == Held(t, i))
    && (LatePc(pc) <==> st.owner == Stopping(t, i))
    && (pc.Kill? || pc.Arm? ==> st.sawLive)
    && (pc.LoadPid? ==> !st.sawLive)
    && (pc.WriteWake? ==> st.wake)
  }

  /** The supervising thread's view of the service. */
  predicate MainOk(st: Stop, svc: Svc, pc: Pc) {
    && (MainPc(pc) ==> (Early(pc) <==> !st.wake))
    && (pc.Gate? || pc.StartWorker? || pc == Wait(Serving) ==>
          (svc.process == Running || svc.process == Zombie) && svc.pid)
    && (pc == Wait(AgentOnly) ==> svc.process == Absent && !svc.pid)
    && (Exiting(pc) ==> svc.process == Reaped && svc.pid == pc.ClearPid?)
    && (pc.ReadStopping? ==> st.requested)
    && (pc.Defer? ==> !pc.gate && st.requested && !st.sawLive)
    && (svc.deferred <==> pc == Wait(Deferred))
  }

  /** Apart from the supervising thread and the handlers of SIGINT and the alarm, nothing ends the
      machine before the service is being stopped. */
  predicate CauseOk(st: Stop, t: nat, i: nat, f: Frame) {
    PowerPc(f.pc) && (t, i) != (0, 0) && f.sig != Some(Int) && f.sig != Some(Alrm) ==> st.stopping
  }

  predicate FrameOk(g: Shared, t: nat, i: nat, top: bool, masked: bool, f: Frame) {
    && ShapeOk(t, i, top, masked, f)
    && WinnerOk(g.power, t, top, f.pc)
    && OwnerOk(g.stop, t, i, f.pc)
    && CauseOk(g.stop, t, i, f)
    && (t == 0 && i == 0 ==> MainOk(g.stop, g.svc, f.pc))
  }

  // The shared state alone.

  predicate PowerOk(p: Power) {
    && (p.ending <==> p.winner.Some?)
    && (p.machine.Ended? ==> p.ending)
    && (p.machine == Ended(Restart) ==> p.rebootRequested)
    && p.ends == (if p.machine.Ended? then 1 else 0)
  }

  predicate StopOk(st: Stop) {
    && (st.requested <==> st.owner != Nobody)
    && (st.stopping <==> st.owner.Stopping? || st.owner.Spent?)
    && st.pipe == (if st.owner == InPipe then 1 else 0)
    && st.runs == (if st.stopping then 1 else 0)
    && (st.owner == InPipe || st.owner == Worker ==> st.wake)
    && (st.sawLive ==> st.stopping)
  }

  /** If the service's exit was left to the worker, `stop_service` has seen no service and will see
      none. */
  predicate SvcOk(st: Stop, svc: Svc) {
    svc.deferred ==> !svc.pid && !st.sawLive && st.requested && st.wake
  }

  /** One alarm at a time: the backstop of a deferred exit, or the service's own grace. */
  predicate AlarmOk(g: Shared) {
    && (g.alarm.Some? ==> g.svc.deferred || (g.stop.sawLive && g.stop.owner.Spent?))
    && (g.alarm.Some? && g.svc.deferred ==> g.alarm.value == g.svc.deferredAt + BACKSTOP)
    && (g.stop.owner == Worker ==> g.stop.graceStart <= g.now)
    && (g.svc.deferred ==> g.svc.deferredAt <= g.now)
  }

  predicate SharedOk(g: Shared) {
    PowerOk(g.power) && StopOk(g.stop) && SvcOk(g.stop, g.svc) && AlarmOk(g)
  }

  // The whole.

  predicate Live(s: State, t: nat, i: nat) {
    t < |s.threads| && i < |s.threads[t].frames|
  }

  function FrameAt(s: State, t: nat, i: nat): Frame
    requires Live(s, t, i)
  {
    s.threads[t].frames[i]
  }

  predicate IsTop(s: State, t: nat, i: nat)
    requires Live(s, t, i)
  {
    i == |s.threads[t].frames| - 1
  }

  predicate LocalOk(s: State, t: nat, i: nat)
    requires Live(s, t, i)
  {
    FrameOk(s.g, t, i, IsTop(s, t, i), s.threads[t].masked, FrameAt(s, t, i))
  }

  /** Some frame is on its way to end the machine. */
  ghost predicate Dooming(s: State) {
    exists t: nat, i: nat :: Live(s, t, i) && DoomPc(FrameAt(s, t, i).pc)
  }

  predicate DoomPc(pc: Pc) { pc.Mask? || pc.SwapEnding? }

  /** What names a frame names a live one. */
  predicate NamesLive(s: State) {
    && (s.g.stop.owner.Held? ==> Live(s, s.g.stop.owner.t, s.g.stop.owner.i))
    && (s.g.stop.owner.Stopping? ==> Live(s, s.g.stop.owner.t, s.g.stop.owner.i))
    && (s.g.power.winner.Some? ==> s.g.power.winner.value < |s.threads|)
    && (if s.g.stop.wake then |s.threads| >= 2 else |s.threads| == 1)
  }

  /** Once a stop was requested, something is bound to end the machine. */
  ghost predicate Bound(s: State) {
    s.g.stop.owner.Spent? ==> s.g.alarm.Some? || s.g.power.ending || Dooming(s)
  }

  ghost predicate Inv(s: State) {
    && Stacked(s)
    && SharedOk(s.g)
    && NamesLive(s)
    && (forall t: nat, i: nat | Live(s, t, i) :: LocalOk(s, t, i))
    && Bound(s)
  }

  lemma Local(s: State, t: nat, i: nat)
    requires Inv(s) && Live(s, t, i)
    ensures LocalOk(s, t, i)
  {
  }

  lemma ServiceInit(s: State)
    requires s == State(QUIET, [Thread([Frame(None, Gate)], false)])
    ensures Inv(s)
  {
    assert LocalOk(s, 0, 0);
  }

  lemma AgentInit(s: State)
    requires s == State(AGENT_ONLY, [Thread([Frame(None, Wait(AgentOnly))], false),
                                     Thread([Frame(None, ReadPipe)], false)])
    ensures Inv(s)
  {
    assert LocalOk(s, 0, 0) && LocalOk(s, 1, 0);
  }

  lemma InitInv(s: State)
    requires Init(s)
    ensures Inv(s)
  {
    if s.g == QUIET {
      ServiceInit(s);
    } else {
      AgentInit(s);
    }
  }
}
