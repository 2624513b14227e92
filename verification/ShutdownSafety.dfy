/** What holds in every interleaving of the shutdown protocol. */
module ShutdownSafety {
  import opened Wrappers
  import opened ShutdownModel
  import opened ShutdownInvariant
  import opened ShutdownSteps

  // Runs.

  predicate Plays(s: State, es: seq<Event>)
    decreases |es|
  {
    es == [] || (Stacked(s) && Enabled(s, es[0]) && Plays(Next(s, es[0]), es[1..]))
  }

  function After(s: State, es: seq<Event>): State
    requires Plays(s, es)
    decreases |es|
  {
    if es == [] then s else After(Next(s, es[0]), es[1..])
  }

  ghost predicate Reachable(s: State) {
    exists s0: State, es: seq<Event> :: Init(s0) && Plays(s0, es) && After(s0, es) == s
  }

  lemma {:induction false} InvAlong(s: State, es: seq<Event>)
    requires Inv(s) && Plays(s, es)
    ensures Inv(After(s, es))
    decreases |es|
  {
    if es != [] {
      StepInv(s, es[0]);
      InvAlong(Next(s, es[0]), es[1..]);
    }
  }

  lemma ReachableInv(s: State)
    requires Reachable(s)
    ensures Inv(s)
  {
    var s0: State, es: seq<Event> :| Init(s0) && Plays(s0, es) && After(s0, es) == s;
    InitInv(s0);
    InvAlong(s0, es);
  }

  function MainPcOf(s: State): Pc
    requires Stacked(s)
  {
    s.threads[0].frames[0].pc
  }

  // The handshake over the service's exit.

  /** The supervising thread has left the service's exit to the stop worker, or is about to. */
  predicate LeftToWorker(s: State)
    requires Stacked(s)
  {
    s.g.svc.deferred || MainPcOf(s).Defer?
  }

  /** The two sides never miss each other: an exit left to the worker means `stop_service` has seen no
      service and will see none, and a live service seen means its exit is not left to the worker. */
  lemma HandshakeNeverMisses(s: State)
    requires Reachable(s)
    ensures Stacked(s)
    ensures LeftToWorker(s) ==> !s.g.stop.sawLive && !s.g.svc.pid && s.g.stop.requested
    ensures s.g.stop.sawLive ==> !LeftToWorker(s)
  {
    ReachableInv(s);
    Local(s, 0, 0);
  }

  /** Before the stop worker exists no exit is left to it. */
  lemma NoDeferralWithoutWorker(s: State)
    requires Reachable(s)
    ensures Stacked(s) && (LeftToWorker(s) ==> s.g.stop.wake)
  {
    ReachableInv(s);
    Local(s, 0, 0);
  }

  // The workloads' grace.

  /** The supervising thread while the service's exit is not yet decided, or left to the worker. */
  predicate Supervising(pc: Pc) {
    pc == Wait(Serving) || pc == Wait(Deferred) || (Exiting(pc) && !pc.gate)
  }

  predicate Protected(s: State)
    requires Stacked(s)
  {
    s.g.stop.requested && (s.g.stop.stopping || Supervising(MainPcOf(s)))
  }

  lemma ProtectedMove(g: Shared, t: nat, i: nat, pc: Pc, how: How)
    requires Steps(g, pc, how) && g.stop.requested && (g.stop.stopping || Supervising(pc))
    requires MainOk(g.stop, g.svc, pc)
    ensures var (g', move) := Effect(g, t, i, pc, how);
            g'.stop.requested && (g'.stop.stopping || (move.Goto? && Supervising(move.pc)))
  {
  }

  lemma RequestKept(g: Shared, t: nat, i: nat, pc: Pc, how: How)
    requires Steps(g, pc, how)
    ensures var g' := Effect(g, t, i, pc, how).0;
            && (g.stop.requested ==> g'.stop.requested)
            && (g.stop.stopping ==> g'.stop.stopping)
  {
  }

  lemma ProtectedStep(s: State, e: Event)
    requires Inv(s) && Enabled(s, e) && Protected(s)
    ensures Stacked(Next(s, e)) && Protected(Next(s, e))
  {
    StepInv(s, e);
    match e
    case Run(t, how) =>
      var th := s.threads[t];
      Local(s, 0, 0);
      RequestKept(s.g, t, |th.frames| - 1, Top(th).pc, how);
      if t == 0 && |th.frames| == 1 {
        ProtectedMove(s.g, 0, 0, Top(th).pc, how);
      }
    case Publish =>
      Local(s, 0, 0);
      Local(s, 0, |s.threads[0].frames| - 1);
    case _ =>
  }

  lemma {:induction false} ProtectedAlong(s: State, es: seq<Event>)
    requires Inv(s) && Plays(s, es) && Protected(s)
    ensures Inv(After(s, es)) && Protected(After(s, es))
    decreases |es|
  {
    if es != [] {
      StepInv(s, es[0]);
      ProtectedStep(s, es[0]);
      ProtectedAlong(Next(s, es[0]), es[1..]);
    }
  }

  /** Why an alarm may have gone off: the service is being stopped, or its exit was left to the worker
      at least the backstop ago. */
  predicate AlarmDue(g: Shared) {
    g.stop.stopping || (g.svc.deferred && g.svc.deferredAt + BACKSTOP <= g.now)
  }

  /** No alarm handler runs without such a reason. */
  ghost predicate AlarmsDue(s: State) {
    forall t: nat, i: nat | Live(s, t, i) && FrameAt(s, t, i).sig == Some(Alrm) :: AlarmDue(s.g)
  }

  lemma DueAfterMove(g: Shared, t: nat, i: nat, pc: Pc, how: How)
    requires Steps(g, pc, how) && AlarmDue(g) && (pc.Defer? ==> !g.svc.deferred)
    ensures AlarmDue(Effect(g, t, i, pc, how).0)
  {
  }

  lemma DueKept(s: State, e: Event)
    requires Inv(s) && Enabled(s, e) && AlarmDue(s.g)
    ensures AlarmDue(Next(s, e).g)
  {
    if e.Run? {
      var th := s.threads[e.t];
      Local(s, e.t, |th.frames| - 1);
      DueAfterMove(s.g, e.t, |th.frames| - 1, Top(th).pc, e.how);
    }
  }

  /** Frames keep their signal, and only a delivery adds one. */
  lemma SameSignals(s: State, e: Event, t: nat, i: nat)
    requires Inv(s) && Enabled(s, e) && Live(Next(s, e), t, i)
    ensures || (Live(s, t, i) && FrameAt(Next(s, e), t, i).sig == FrameAt(s, t, i).sig)
            || FrameAt(Next(s, e), t, i).sig == None
            || (e.Deliver? && FrameAt(Next(s, e), t, i).sig == Some(e.sig))
  {
  }

  lemma AlarmsStep(s: State, e: Event)
    requires Inv(s) && Enabled(s, e) && AlarmsDue(s)
    ensures AlarmsDue(Next(s, e))
  {
    var s' := Next(s, e);
    forall t: nat, i: nat | Live(s', t, i) && FrameAt(s', t, i).sig == Some(Alrm)
      ensures AlarmDue(s'.g)
    {
      SameSignals(s, e, t, i);
      if AlarmDue(s.g) {
        DueKept(s, e);
      }
    }
  }

  lemma {:induction false} AlarmsAlong(s: State, es: seq<Event>)
    requires Inv(s) && AlarmsDue(s) && Plays(s, es)
    ensures AlarmsDue(After(s, es))
    decreases |es|
  {
    if es != [] {
      StepInv(s, es[0]);
      AlarmsStep(s, es[0]);
      AlarmsAlong(Next(s, es[0]), es[1..]);
    }
  }

  lemma ReachableAlarms(s: State)
    requires Reachable(s)
    ensures AlarmsDue(s)
  {
    var s0: State, es: seq<Event> :| Init(s0) && Plays(s0, es) && After(s0, es) == s;
    InitInv(s0);
    AlarmsAlong(s0, es);
  }

  /** A SIGINT was delivered. Its handler never returns, so its frame stays. */
  ghost predicate Interrupted(s: State) {
    exists t: nat, i: nat :: Live(s, t, i) && FrameAt(s, t, i).sig == Some(Int)
  }

  /** Before the service is stopped, a machine that is ending without SIGINT and not by the supervising
      thread owes it to the alarm of a service exit left to the worker at least the backstop ago. */
  lemma EndedByBackstop(s: State)
    requires Inv(s) && AlarmsDue(s) && Supervising(MainPcOf(s))
    requires !s.g.stop.stopping && s.g.power.ending && !Interrupted(s)
    ensures s.g.svc.deferred && s.g.svc.deferredAt + BACKSTOP <= s.g.now
  {
    var t := s.g.power.winner.value;
    var i := |s.threads[t].frames| - 1;
    Local(s, t, i);
    assert WinPc(FrameAt(s, t, i).pc);
    assert (t, i) != (0, 0);
    assert FrameAt(s, t, i).sig == Some(Alrm);
  }

  /** Once a stop was requested with the service's exit undecided, in every run and until the service is
      stopped: without SIGINT, the machine is ending only if the exit was left to the worker at least
      fifteen seconds ago. */
  lemma GraceProtected(s: State, es: seq<Event>)
    requires Reachable(s) && Plays(s, es)
    requires Stacked(s) && s.g.stop.requested && Supervising(MainPcOf(s))
    ensures var s' := After(s, es);
            && Stacked(s')
            && (!s'.g.stop.stopping ==>
                  && Supervising(MainPcOf(s'))
                  && (s'.g.power.ending ==>
                        || Interrupted(s')
                        || (s'.g.svc.deferred && s'.g.svc.deferredAt + 15 <= s'.g.now)))
  {
    ReachableInv(s);
    ReachableAlarms(s);
    ProtectedAlong(s, es);
    AlarmsAlong(s, es);
    var s' := After(s, es);
    if !s'.g.stop.stopping && s'.g.power.ending && !Interrupted(s') {
      EndedByBackstop(s');
    }
  }

  /** The machine has ended without SIGINT during the ten seconds of the workloads' grace, which began `delay`
      seconds after the service's exit was left to the worker. */
  ghost predicate CutShort(s: State, delay: int) {
    && s.g.svc.deferred && s.g.stop.owner == Worker
    && s.g.stop.graceStart - s.g.svc.deferredAt == delay
    && s.g.power.machine.Ended? && s.g.now < s.g.stop.graceStart + 10
    && !Interrupted(s)
  }

  /** A grace that begins before the service's exit or up to five seconds after it is never cut short. */
  lemma GraceWhole(s: State, delay: int)
    requires Reachable(s) && CutShort(s, delay)
    ensures delay > 5
  {
    ReachableInv(s);
    ReachableAlarms(s);
    Local(s, 0, 0);
    EndedByBackstop(s);
  }

  // The end.

  /** Once `ENDING` is set and until the machine ends, exactly one frame is the winner: the top frame
      of its thread, with signals masked, never parked, and able to move. */
  lemma WinnerAlone(s: State) returns (t: nat)
    requires Reachable(s) && s.g.power.ending && s.g.power.machine == Up
    ensures Stacked(s) && t < |s.threads|
    ensures WinPc(Top(s.threads[t]).pc) && s.threads[t].masked && Steps(s.g, Top(s.threads[t]).pc, Plain)
    ensures forall t': nat, i': nat | Live(s, t', i') && WinPc(FrameAt(s, t', i').pc) ::
              t' == t && IsTop(s, t', i')
  {
    ReachableInv(s);
    t := s.g.power.winner.value;
    Local(s, t, |s.threads[t].frames| - 1);
    forall t': nat, i': nat | Live(s, t', i') && WinPc(FrameAt(s, t', i').pc)
      ensures t' == t && IsTop(s, t', i')
    {
      Local(s, t', i');
    }
  }

  /** However many requests arrive and calls race, `end_machine` is called at most once and
      `stop_service` runs at most once. */
  lemma OnceOnly(s: State)
    requires Reachable(s)
    ensures s.g.power.ends <= 1 && (s.g.power.ends == 1 <==> s.g.power.machine.Ended?)
    ensures s.g.stop.runs <= 1 && (s.g.stop.runs == 1 ==> s.g.stop.requested)
  {
    ReachableInv(s);
  }

  /** The winner has not yet read what to do. */
  predicate Undecided(s: State)
    requires Stacked(s)
  {
    s.g.power.machine == Up && forall th <- s.threads :: !Top(th).pc.End?
  }

  /** Action `a` answers the requests: `early` is what was stored before the decision was read, `now`
      what is stored at last. */
  predicate Answers(early: Power, now: Power, a: Action) {
    match a
    case PowerOff => early.rebootRequested ==> now.poweroffRequested
    case Restart => now.rebootRequested && !early.poweroffRequested
  }

  predicate DecidesRightly(early: Power, s: State)
    requires Stacked(s)
  {
    && (early.rebootRequested ==> s.g.power.rebootRequested)
    && (early.poweroffRequested ==> s.g.power.poweroffRequested)
    && (s.g.power.machine.Ended? ==> Answers(early, s.g.power, s.g.power.machine.action))
    && forall th <- s.threads :: RightTop(early, s.g.power, Top(th).pc)
  }

  predicate RightTop(early: Power, now: Power, pc: Pc) {
    && (pc.End? ==> Answers(early, now, pc.action))
    && (pc.LoadPoweroff? ==> now.rebootRequested)
  }

  lemma DecisionMove(early: Power, g: Shared, t: nat, i: nat, pc: Pc, how: How)
    requires Steps(g, pc, how) && RightTop(early, g.power, pc)
    requires early.rebootRequested ==> g.power.rebootRequested
    requires early.poweroffRequested ==> g.power.poweroffRequested
    requires g.power.machine.Ended? ==> Answers(early, g.power, g.power.machine.action)
    ensures var (g', move) := Effect(g, t, i, pc, how);
            && (g.power.rebootRequested ==> g'.power.rebootRequested)
            && (g.power.poweroffRequested ==> g'.power.poweroffRequested)
            && (g'.power.machine.Ended? ==> Answers(early, g'.power, g'.power.machine.action))
            && (move.Goto? ==> RightTop(early, g'.power, move.pc))
  {
  }

  /** Only the top frame can have read anything. */
  lemma TopDecides(s: State, t: nat, i: nat)
    requires Inv(s) && Live(s, t, i) && !IsTop(s, t, i)
    ensures !WinPc(FrameAt(s, t, i).pc)
  {
    Local(s, t, i);
  }

  lemma DecisionTop(early: Power, s: State, e: Event, k: nat)
    requires Inv(s) && Enabled(s, e) && DecidesRightly(early, s)
    requires Inv(Next(s, e)) && k < |Next(s, e).threads|
    ensures RightTop(early, Next(s, e).g.power, Top(Next(s, e).threads[k]).pc)
  {
    var s' := Next(s, e);
    if e.Run? {
      DecisionRun(early, s, e.t, e.how, k);
    } else if k < |s.threads| {
      assert RightTop(early, s.g.power, Top(s.threads[k]).pc);
    }
  }

  lemma DecisionRun(early: Power, s: State, t: nat, how: How, k: nat)
    requires Inv(s) && Enabled(s, Run(t, how)) && DecidesRightly(early, s)
    requires Stacked(Next(s, Run(t, how))) && k < |s.threads|
    ensures RightTop(early, Next(s, Run(t, how)).g.power, Top(Next(s, Run(t, how)).threads[k]).pc)
  {
    var th := s.threads[t];
    var n := |th.frames| - 1;
    assert RightTop(early, s.g.power, Top(s.threads[k]).pc);
    DecisionMove(early, s.g, t, n, Top(th).pc, how);
    if k == t && Effect(s.g, t, n, Top(th).pc, how).1.Return? {
      assert n > 0;
      TopDecides(s, t, n - 1);
    }
  }

  lemma DecisionStep(early: Power, s: State, e: Event)
    requires Inv(s) && Enabled(s, e) && DecidesRightly(early, s)
    ensures Stacked(Next(s, e)) && DecidesRightly(early, Next(s, e))
  {
    StepInv(s, e);
    var s' := Next(s, e);
    if e.Run? {
      var th := s.threads[e.t];
      DecisionMove(early, s.g, e.t, |th.frames| - 1, Top(th).pc, e.how);
    }
    forall k | 0 <= k < |s'.threads|
      ensures RightTop(early, s'.g.power, Top(s'.threads[k]).pc)
    {
      DecisionTop(early, s, e, k);
    }
  }

  lemma {:induction false} DecisionAlong(early: Power, s: State, es: seq<Event>)
    requires Inv(s) && Plays(s, es) && DecidesRightly(early, s)
    ensures Stacked(After(s, es)) && DecidesRightly(early, After(s, es))
    decreases |es|
  {
    if es != [] {
      StepInv(s, es[0]);
      DecisionStep(early, s, es[0]);
      DecisionAlong(early, Next(s, es[0]), es[1..]);
    }
  }

  /** A power-off request stored before the decision is read rules out a restart, in whatever order
      the requests came; a reboot request stored before it is overridden only by a power-off request;
      and the machine restarts only if a reboot was requested. */
  lemma RequestsAnswered(s: State, es: seq<Event>)
    requires Reachable(s) && Plays(s, es)
    requires Stacked(s) && Undecided(s)
    ensures var (early, last) := (s.g.power, After(s, es).g.power);
            && (last.machine == Ended(Restart) ==> last.rebootRequested && !early.poweroffRequested)
            && (last.machine == Ended(PowerOff) && early.rebootRequested ==> last.poweroffRequested)
  {
    ReachableInv(s);
    forall k | 0 <= k < |s.threads|
      ensures RightTop(s.g.power, s.g.power, Top(s.threads[k]).pc)
    {
      Local(s, k, |s.threads[k].frames| - 1);
      assert !Top(s.threads[k]).pc.End?;
    }
    DecisionAlong(s.g.power, s, es);
  }
}
