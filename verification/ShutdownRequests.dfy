/** Which signal asks for what: from the deliveries of a run to how the machine may end. */
module ShutdownRequests {
  import opened Wrappers
  import opened ShutdownModel
  import opened ShutdownInvariant
  import opened ShutdownSteps
  import opened ShutdownSafety

  /** SIGTERM or the reboot request was delivered. */
  ghost predicate RebootAsked(es: seq<Event>) {
    exists t: nat :: Deliver(t, Term) in es || Deliver(t, Again) in es
  }

  /** The power-off request was delivered. */
  ghost predicate PoweroffAsked(es: seq<Event>) {
    exists t: nat :: Deliver(t, Off) in es
  }

  predicate AsksReboot(f: Frame) {
    f.sig == Some(Term) || f.sig == Some(Again)
  }

  predicate AsksPoweroff(f: Frame) {
    f.sig == Some(Off)
  }

  // Frame by frame.

  /** A handler stores what its signal asks for, first of all. */
  predicate StoresOwn(p: Power, f: Frame) {
    && (f.pc.StoreReboot? ==> AsksReboot(f))
    && (f.pc.StorePoweroff? ==> AsksPoweroff(f))
    && (AsksReboot(f) && !f.pc.StoreReboot? ==> p.rebootRequested)
    && (AsksPoweroff(f) && !f.pc.StorePoweroff? ==> p.poweroffRequested)
  }

  /** What is stored was asked for. */
  predicate OnlyAsked(p: Power, reboot: bool, poweroff: bool) {
    (p.rebootRequested ==> reboot) && (p.poweroffRequested ==> poweroff)
  }

  predicate FrameAsked(f: Frame, reboot: bool, poweroff: bool) {
    (AsksReboot(f) ==> reboot) && (AsksPoweroff(f) ==> poweroff)
  }

  predicate Truly(p: Power, f: Frame, reboot: bool, poweroff: bool) {
    StoresOwn(p, f) && FrameAsked(f, reboot, poweroff)
  }

  ghost predicate Storing(s: State, pc: Pc) {
    exists t: nat, i: nat :: Live(s, t, i) && FrameAt(s, t, i).pc == pc
  }

  /** With `reboot` and `poweroff` delivered so far. */
  ghost predicate Tells(s: State, reboot: bool, poweroff: bool) {
    && OnlyAsked(s.g.power, reboot, poweroff)
    && (forall t: nat, i: nat | Live(s, t, i) :: Truly(s.g.power, FrameAt(s, t, i), reboot, poweroff))
    && (reboot ==> s.g.power.rebootRequested || Storing(s, StoreReboot))
    && (poweroff ==> s.g.power.poweroffRequested || Storing(s, StorePoweroff))
  }

  lemma MoveTells(g: Shared, t: nat, i: nat, f: Frame, how: How, reboot: bool, poweroff: bool)
    requires Steps(g, f.pc, how) && StoresOwn(g.power, f) && FrameAsked(f, reboot, poweroff)
    requires OnlyAsked(g.power, reboot, poweroff)
    ensures var (g', move) := Effect(g, t, i, f.pc, how);
            && OnlyAsked(g'.power, reboot, poweroff)
            && (g.power.rebootRequested || f.pc.StoreReboot? ==> g'.power.rebootRequested)
            && (g.power.poweroffRequested || f.pc.StorePoweroff? ==> g'.power.poweroffRequested)
            && (move.Goto? ==> StoresOwn(g'.power, f.(pc := move.pc)))
  {
  }

  // Step by step.

  /** After a step of thread `u`, a frame is the one it was, or the one that moved. */
  lemma FrameRun(s: State, u: nat, how: How, t: nat, i: nat)
    requires Stacked(s) && Enabled(s, Run(u, how)) && Live(Next(s, Run(u, how)), t, i)
    ensures Live(s, t, i)
    ensures var (f, f') := (FrameAt(s, t, i), FrameAt(Next(s, Run(u, how)), t, i));
            f' == f || (t == u && IsTop(s, t, i) && Steps(s.g, f.pc, how)
                        && Effect(s.g, t, i, f.pc, how).1 == Goto(f'.pc) && f' == f.(pc := f'.pc))
  {
  }

  /** Otherwise a frame is the one it was, one just delivered, or no handler. */
  lemma FrameElse(s: State, e: Event, t: nat, i: nat)
    requires Stacked(s) && Enabled(s, e) && !e.Run? && Live(Next(s, e), t, i)
    ensures var f := FrameAt(Next(s, e), t, i);
            || (Live(s, t, i) && f == FrameAt(s, t, i))
            || (e.Deliver? && f == Frame(Some(e.sig), Entry(e.sig)))
            || (Live(s, t, i) && FrameAt(s, t, i).pc.StartWorker? && f == FrameAt(s, t, i).(pc := Wait(Serving)))
            || (f.sig.None? && !HandlerPc(f.pc))
  {
  }

  /** A frame about to store is still there, or has just stored. */
  lemma StoringStays(s: State, e: Event, t: nat, i: nat)
    requires Stacked(s) && Enabled(s, e) && Live(s, t, i)
    requires FrameAt(s, t, i).pc.StoreReboot? || FrameAt(s, t, i).pc.StorePoweroff?
    ensures || (Live(Next(s, e), t, i) && FrameAt(Next(s, e), t, i) == FrameAt(s, t, i))
            || (e.Run? && e.t == t && IsTop(s, t, i))
  {
  }

  function Sets(e: Event, reboot: bool): bool {
    reboot || (e.Deliver? && (e.sig == Term || e.sig == Again))
  }

  function SetsOff(e: Event, poweroff: bool): bool {
    poweroff || (e.Deliver? && e.sig == Off)
  }

  /** The stored flags only grow. */
  lemma FlagsKept(s: State, e: Event, reboot: bool, poweroff: bool)
    requires Stacked(s) && Enabled(s, e) && Tells(s, reboot, poweroff)
    ensures var p := Next(s, e).g.power;
            && OnlyAsked(p, reboot, poweroff)
            && (s.g.power.rebootRequested ==> p.rebootRequested)
            && (s.g.power.poweroffRequested ==> p.poweroffRequested)
            && (e.Run? && Top(s.threads[e.t]).pc.StoreReboot? ==> p.rebootRequested)
            && (e.Run? && Top(s.threads[e.t]).pc.StorePoweroff? ==> p.poweroffRequested)
  {
    if e.Run? {
      var (t, n) := (e.t, |s.threads[e.t].frames| - 1);
      assert Live(s, t, n) && FrameAt(s, t, n) == Top(s.threads[t]);
      MoveTells(s.g, t, n, Top(s.threads[t]), e.how, reboot, poweroff);
    }
  }

  lemma TrulyKept(p: Power, p': Power, f: Frame, e: Event, reboot: bool, poweroff: bool)
    requires Truly(p, f, reboot, poweroff)
    requires (p.rebootRequested ==> p'.rebootRequested) && (p.poweroffRequested ==> p'.poweroffRequested)
    ensures Truly(p', f, Sets(e, reboot), SetsOff(e, poweroff))
  {
  }

  lemma TrulyNow(s: State, reboot: bool, poweroff: bool, t: nat, i: nat)
    requires Tells(s, reboot, poweroff) && Live(s, t, i)
    ensures Truly(s.g.power, FrameAt(s, t, i), reboot, poweroff) && OnlyAsked(s.g.power, reboot, poweroff)
  {
  }

  /** The frame that moved. */
  lemma MovedTells(g: Shared, t: nat, i: nat, f: Frame, f': Frame, how: How, reboot: bool, poweroff: bool)
    requires Steps(g, f.pc, how) && Truly(g.power, f, reboot, poweroff) && OnlyAsked(g.power, reboot, poweroff)
    requires Effect(g, t, i, f.pc, how).1 == Goto(f'.pc) && f' == f.(pc := f'.pc)
    ensures Truly(Effect(g, t, i, f.pc, how).0.power, f', reboot, poweroff)
  {
    MoveTells(g, t, i, f, how, reboot, poweroff);
  }

  lemma RunTells(s: State, u: nat, how: How, reboot: bool, poweroff: bool, t: nat, i: nat, s': State)
    requires Stacked(s) && Enabled(s, Run(u, how)) && Tells(s, reboot, poweroff) && s' == Next(s, Run(u, how))
    requires Live(s', t, i)
    ensures Truly(s'.g.power, FrameAt(s', t, i), reboot, poweroff)
  {
    FrameRun(s, u, how, t, i);
    TrulyNow(s, reboot, poweroff, t, i);
    if FrameAt(s', t, i) == FrameAt(s, t, i) {
      FlagsKept(s, Run(u, how), reboot, poweroff);
      TrulyKept(s.g.power, s'.g.power, FrameAt(s, t, i), Run(u, how), reboot, poweroff);
    } else {
      MovedTells(s.g, t, i, FrameAt(s, t, i), FrameAt(s', t, i), how, reboot, poweroff);
    }
  }

  lemma SamePower(s: State, e: Event)
    requires Stacked(s) && Enabled(s, e) && !e.Run?
    ensures Next(s, e).g.power == s.g.power
  {
  }

  lemma ElseTells(s: State, e: Event, reboot: bool, poweroff: bool, t: nat, i: nat, s': State)
    requires Stacked(s) && Enabled(s, e) && !e.Run? && Tells(s, reboot, poweroff) && s' == Next(s, e)
    requires Live(s', t, i)
    ensures Truly(s'.g.power, FrameAt(s', t, i), Sets(e, reboot), SetsOff(e, poweroff))
  {
    FrameElse(s, e, t, i);
    SamePower(s, e);
    if Live(s, t, i) {
      TrulyNow(s, reboot, poweroff, t, i);
      TrulyKept(s.g.power, s.g.power, FrameAt(s, t, i), e, reboot, poweroff);
    }
  }

  lemma FrameTells(s: State, e: Event, reboot: bool, poweroff: bool, t: nat, i: nat)
    requires Stacked(s) && Enabled(s, e) && Tells(s, reboot, poweroff) && Live(Next(s, e), t, i)
    ensures Truly(Next(s, e).g.power, FrameAt(Next(s, e), t, i), Sets(e, reboot), SetsOff(e, poweroff))
  {
    if e.Run? {
      RunTells(s, e.t, e.how, reboot, poweroff, t, i, Next(s, e));
    } else {
      ElseTells(s, e, reboot, poweroff, t, i, Next(s, e));
    }
  }

  lemma StillStoring(s: State, e: Event, pc: Pc)
    requires Stacked(s) && Enabled(s, e) && Storing(s, pc) && (pc.StoreReboot? || pc.StorePoweroff?)
    ensures Storing(Next(s, e), pc) || (e.Run? && Top(s.threads[e.t]).pc == pc)
  {
    var t: nat, i: nat :| Live(s, t, i) && FrameAt(s, t, i).pc == pc;
    StoringStays(s, e, t, i);
  }

  lemma DeliveredStores(s: State, t: nat, sig: Signal)
    requires Stacked(s) && Enabled(s, Deliver(t, sig))
    ensures Storing(Next(s, Deliver(t, sig)), Entry(sig))
  {
    var (s', n) := (Next(s, Deliver(t, sig)), |s.threads[t].frames|);
    assert Live(s', t, n) && FrameAt(s', t, n).pc == Entry(sig);
  }

  lemma TellsStep(s: State, e: Event, reboot: bool, poweroff: bool)
    requires Stacked(s) && Enabled(s, e) && Tells(s, reboot, poweroff)
    ensures Tells(Next(s, e), Sets(e, reboot), SetsOff(e, poweroff))
  {
    FlagsKept(s, e, reboot, poweroff);
    forall t: nat, i: nat | Live(Next(s, e), t, i)
      ensures Truly(Next(s, e).g.power, FrameAt(Next(s, e), t, i), Sets(e, reboot), SetsOff(e, poweroff))
    {
      FrameTells(s, e, reboot, poweroff, t, i);
    }
    if Storing(s, StoreReboot) {
      StillStoring(s, e, StoreReboot);
    }
    if Storing(s, StorePoweroff) {
      StillStoring(s, e, StorePoweroff);
    }
    if e.Deliver? {
      DeliveredStores(s, e.t, e.sig);
    }
  }

  // Over whole runs.

  lemma AskedMore(e: Event, es: seq<Event>)
    ensures RebootAsked([e] + es) <==> Sets(e, false) || RebootAsked(es)
    ensures PoweroffAsked([e] + es) <==> SetsOff(e, false) || PoweroffAsked(es)
  {
    assert forall x :: x in [e] + es <==> x == e || x in es;
    if e.Deliver? {
      assert e == Deliver(e.t, e.sig) && e in [e] + es;
    }
  }

  lemma {:induction false} TellsAlong(s: State, es: seq<Event>, reboot: bool, poweroff: bool)
    requires Inv(s) && Plays(s, es) && Tells(s, reboot, poweroff)
    ensures Tells(After(s, es), reboot || RebootAsked(es), poweroff || PoweroffAsked(es))
    decreases |es|
  {
    if es != [] {
      var e := es[0];
      StepInv(s, e);
      TellsStep(s, e, reboot, poweroff);
      TellsAlong(Next(s, e), es[1..], Sets(e, reboot), SetsOff(e, poweroff));
      AskedMore(e, es[1..]);
      assert [e] + es[1..] == es;
    }
  }

  lemma InitFrame(s: State, t: nat, i: nat)
    requires Init(s) && Live(s, t, i)
    ensures FrameAt(s, t, i).sig.None? && !HandlerPc(FrameAt(s, t, i).pc)
  {
  }

  lemma InitTells(s: State)
    requires Init(s)
    ensures Tells(s, false, false)
  {
    forall t: nat, i: nat | Live(s, t, i)
      ensures Truly(s.g.power, FrameAt(s, t, i), false, false)
    {
      InitFrame(s, t, i);
    }
  }

  /** No handler is about to store its request. */
  ghost predicate AllStored(s: State) {
    !Storing(s, StoreReboot) && !Storing(s, StorePoweroff)
  }

  /** In every run: a reboot is on record only if SIGTERM or a reboot request was delivered, a power-off only
      if a power-off request was, and both for certain once the handlers have taken their first step. */
  lemma FlagsAreDeliveries(s0: State, es: seq<Event>)
    requires Init(s0) && Plays(s0, es)
    ensures var s := After(s0, es);
            && (s.g.power.rebootRequested ==> RebootAsked(es))
            && (s.g.power.poweroffRequested ==> PoweroffAsked(es))
            && (AllStored(s) ==>
                  && (s.g.power.rebootRequested <==> RebootAsked(es))
                  && (s.g.power.poweroffRequested <==> PoweroffAsked(es)))
  {
    InitInv(s0);
    InitTells(s0);
    TellsAlong(s0, es, false, false);
  }

  lemma {:induction false} PlaysPlus(s: State, a: seq<Event>, b: seq<Event>)
    requires Plays(s, a) && Plays(After(s, a), b)
    ensures Plays(s, a + b) && After(s, a + b) == After(After(s, a), b)
    decreases |a|
  {
    if a == [] {
      assert a + b == b;
    } else {
      assert (a + b)[0] == a[0] && (a + b)[1..] == a[1..] + b;
      PlaysPlus(Next(s, a[0]), a[1..], b);
    }
  }

  /** How the machine may end, by what was delivered. If all that `es` delivered is on record before the
      decision is read: after a power-off request the machine never restarts; after SIGTERM or a reboot
      request it powers off only if a power-off request is delivered too; and it restarts only if SIGTERM
      or a reboot request was delivered. */
  lemma EndsAsAsked(s0: State, es: seq<Event>, more: seq<Event>)
    requires Init(s0) && Plays(s0, es) && Plays(After(s0, es), more)
    requires Stacked(After(s0, es)) && Undecided(After(s0, es)) && AllStored(After(s0, es))
    ensures var machine := After(After(s0, es), more).g.power.machine;
            && (PoweroffAsked(es) ==> machine != Ended(Restart))
            && (RebootAsked(es) && !PoweroffAsked(es + more) ==> machine != Ended(PowerOff))
            && (!RebootAsked(es + more) ==> machine != Ended(Restart))
  {
    var s := After(s0, es);
    FlagsAreDeliveries(s0, es);
    assert Reachable(s);
    RequestsAnswered(s, more);
    PlaysPlus(s0, es, more);
    FlagsAreDeliveries(s0, es + more);
  }
}
