/** Every step keeps the invariant. */
module ShutdownSteps {
  import opened Wrappers
  import opened ShutdownModel
  import opened ShutdownInvariant

  /** While no stop worker exists, a stop request is served on the only thread, above the supervising
      frame: by the time that frame moves again, the service is being stopped. */
  predicate EarlyServed(st: Stop, pc: Pc) {
    pc == ReadStopping(true) ==> st.stopping
  }

  function GAfter(g: Shared, t: nat, i: nat, pc: Pc, how: How): Shared
    requires Steps(g, pc, how)
  {
    Effect(g, t, i, pc, how).0
  }

  function MoveOf(g: Shared, t: nat, i: nat, pc: Pc, how: How): Move
    requires Steps(g, pc, how)
  {
    Effect(g, t, i, pc, how).1
  }

  // The frame that moves.

  lemma MoverShape(g: Shared, t: nat, i: nat, masked: bool, f: Frame, how: How)
    requires ShapeOk(t, i, true, masked, f) && Steps(g, f.pc, how)
    ensures match MoveOf(g, t, i, f.pc, how)
            case Goto(pc) => ShapeOk(t, i, true, masked || f.pc == Mask, f.(pc := pc))
            case Return => i > 0 && !masked
  {
  }

  lemma MoverWinner(g: Shared, t: nat, i: nat, pc: Pc, how: How)
    requires PowerOk(g.power) && WinnerOk(g.power, t, true, pc) && Steps(g, pc, how)
    ensures var p := GAfter(g, t, i, pc, how).power;
            match MoveOf(g, t, i, pc, how)
            case Goto(pc') => WinnerOk(p, t, true, pc')
            case Return => p.winner != Some(t)
  {
  }

  /** The steps that touch the stop request or what `stop_service` saw. */
  predicate TouchesStop(pc: Pc) {
    pc.ReadPipe? || pc.SwapStop? || pc.WriteWake? || pc.StoreStopping? || pc.LoadPid? || pc.Arm?
  }

  lemma OwnerQuiet(g: Shared, t: nat, i: nat, masked: bool, f: Frame, how: How)
    requires ShapeOk(t, i, true, masked, f) && OwnerOk(g.stop, t, i, f.pc)
    requires Steps(g, f.pc, how) && !TouchesStop(f.pc)
    ensures GAfter(g, t, i, f.pc, how).stop == g.stop
    ensures match MoveOf(g, t, i, f.pc, how)
            case Goto(pc') => OwnerOk(g.stop, t, i, pc')
            case Return => true
  {
  }

  lemma OwnerTouched(g: Shared, t: nat, i: nat, masked: bool, f: Frame)
    requires StopOk(g.stop) && ShapeOk(t, i, true, masked, f) && OwnerOk(g.stop, t, i, f.pc)
    requires Steps(g, f.pc, Plain) && TouchesStop(f.pc)
    ensures match MoveOf(g, t, i, f.pc, Plain)
            case Goto(pc') => OwnerOk(GAfter(g, t, i, f.pc, Plain).stop, t, i, pc')
            case Return => true
  {
  }

  lemma MoverOwner(g: Shared, t: nat, i: nat, masked: bool, f: Frame, how: How)
    requires StopOk(g.stop) && ShapeOk(t, i, true, masked, f) && OwnerOk(g.stop, t, i, f.pc)
    requires Steps(g, f.pc, how)
    ensures match MoveOf(g, t, i, f.pc, how)
            case Goto(pc') => OwnerOk(GAfter(g, t, i, f.pc, how).stop, t, i, pc')
            case Return => true
  {
    if TouchesStop(f.pc) {
      OwnerTouched(g, t, i, masked, f);
    } else {
      OwnerQuiet(g, t, i, masked, f, how);
    }
  }

  lemma MoverCause(g: Shared, t: nat, i: nat, f: Frame, how: How)
    requires StopOk(g.stop) && OwnerOk(g.stop, t, i, f.pc) && CauseOk(g.stop, t, i, f)
    requires Steps(g, f.pc, how) && (MainPc(f.pc) ==> (t, i) == (0, 0))
    ensures match MoveOf(g, t, i, f.pc, how)
            case Goto(pc') => CauseOk(GAfter(g, t, i, f.pc, how).stop, t, i, f.(pc := pc'))
            case Return => true
  {
  }

  lemma OtherCause(g: Shared, t: nat, i: nat, pc: Pc, how: How, t': nat, i': nat, f': Frame)
    requires CauseOk(g.stop, t', i', f') && Steps(g, pc, how)
    ensures CauseOk(GAfter(g, t, i, pc, how).stop, t', i', f')
  {
  }

  /** Once it ends the machine, the supervising thread does nothing else. */
  lemma EndingStays(g: Shared, pc: Pc, how: How)
    requires PowerPc(pc) && Steps(g, pc, how)
    ensures GAfter(g, 0, 0, pc, how).stop == g.stop && GAfter(g, 0, 0, pc, how).svc == g.svc
    ensures MoveOf(g, 0, 0, pc, how).Goto? && PowerPc(MoveOf(g, 0, 0, pc, how).pc)
  {
  }

  lemma EndingMain(st: Stop, svc: Svc, pc: Pc)
    requires PowerPc(pc)
    ensures MainOk(st, svc, pc) <==> !svc.deferred
  {
  }

  lemma MainSupervises(g: Shared, pc: Pc, how: How)
    requires StopOk(g.stop) && SvcOk(g.stop, g.svc) && MainOk(g.stop, g.svc, pc) && MainPc(pc)
    requires Steps(g, pc, how) && EarlyServed(g.stop, pc)
    ensures var g' := GAfter(g, 0, 0, pc, how);
            match MoveOf(g, 0, 0, pc, how)
            case Goto(pc') => MainOk(g'.stop, g'.svc, pc')
            case Return => true
  {
  }

  lemma MoverMain(g: Shared, pc: Pc, how: How)
    requires StopOk(g.stop) && SvcOk(g.stop, g.svc)
    requires MainOk(g.stop, g.svc, pc) && (MainPc(pc) || PowerPc(pc))
    requires Steps(g, pc, how) && EarlyServed(g.stop, pc)
    ensures var g' := GAfter(g, 0, 0, pc, how);
            match MoveOf(g, 0, 0, pc, how)
            case Goto(pc') => MainOk(g'.stop, g'.svc, pc')
            case Return => true
  {
    if PowerPc(pc) {
      EndingStays(g, pc, how);
      EndingMain(g.stop, g.svc, pc);
      EndingMain(g.stop, g.svc, MoveOf(g, 0, 0, pc, how).pc);
    } else {
      MainSupervises(g, pc, how);
    }
  }

  lemma MoverPower(g: Shared, t: nat, i: nat, pc: Pc, how: How)
    requires PowerOk(g.power) && WinnerOk(g.power, t, true, pc) && Steps(g, pc, how)
    ensures PowerOk(GAfter(g, t, i, pc, how).power)
  {
  }

  lemma MoverStop(g: Shared, t: nat, i: nat, masked: bool, f: Frame, how: How)
    requires StopOk(g.stop) && ShapeOk(t, i, true, masked, f) && OwnerOk(g.stop, t, i, f.pc)
    requires Steps(g, f.pc, how)
    ensures StopOk(GAfter(g, t, i, f.pc, how).stop)
  {
  }

  lemma MoverSvc(g: Shared, t: nat, i: nat, masked: bool, f: Frame, how: How)
    requires SharedOk(g) && FrameOk(g, t, i, true, masked, f)
    requires Steps(g, f.pc, how) && EarlyServed(g.stop, f.pc)
    ensures SvcOk(GAfter(g, t, i, f.pc, how).stop, GAfter(g, t, i, f.pc, how).svc)
  {
  }

  lemma MoverAlarm(g: Shared, t: nat, i: nat, masked: bool, f: Frame, how: How)
    requires SharedOk(g) && FrameOk(g, t, i, true, masked, f)
    requires Steps(g, f.pc, how) && EarlyServed(g.stop, f.pc)
    ensures AlarmOk(GAfter(g, t, i, f.pc, how))
  {
  }

  lemma MoverShared(g: Shared, t: nat, i: nat, masked: bool, f: Frame, how: How)
    requires SharedOk(g) && FrameOk(g, t, i, true, masked, f)
    requires Steps(g, f.pc, how) && EarlyServed(g.stop, f.pc)
    ensures SharedOk(GAfter(g, t, i, f.pc, how))
  {
    MoverPower(g, t, i, f.pc, how);
    MoverStop(g, t, i, masked, f, how);
    MoverSvc(g, t, i, masked, f, how);
    MoverAlarm(g, t, i, masked, f, how);
  }

  // Any other frame.

  lemma OtherWinner(g: Shared, t: nat, i: nat, pc: Pc, how: How, t': nat, top': bool, pc': Pc)
    requires PowerOk(g.power) && WinnerOk(g.power, t, true, pc) && Steps(g, pc, how)
    requires WinnerOk(g.power, t', top', pc')
    requires t' == t ==> !top' && !MaskedPc(pc')
    ensures WinnerOk(GAfter(g, t, i, pc, how).power, t', top', pc')
  {
  }

  lemma OtherOwner(g: Shared, t: nat, i: nat, masked: bool, f: Frame, how: How,
                   t': nat, i': nat, pc': Pc)
    requires StopOk(g.stop) && ShapeOk(t, i, true, masked, f) && OwnerOk(g.stop, t, i, f.pc)
    requires Steps(g, f.pc, how) && OwnerOk(g.stop, t', i', pc')
    requires (t', i') != (t, i)
    ensures OwnerOk(GAfter(g, t, i, f.pc, how).stop, t', i', pc')
  {
  }

  lemma OtherMain(g: Shared, t: nat, i: nat, masked: bool, f: Frame, how: How, pc': Pc)
    requires StopOk(g.stop) && ShapeOk(t, i, true, masked, f)
    requires Steps(g, f.pc, how) && MainOk(g.stop, g.svc, pc')
    requires (t, i) != (0, 0)
    ensures MainOk(GAfter(g, t, i, f.pc, how).stop, GAfter(g, t, i, f.pc, how).svc, pc')
  {
  }

  /** The frame under a handler that returns. */
  lemma UncoveredOk(g: Shared, t: nat, i: nat, masked: bool, f: Frame)
    requires FrameOk(g, t, i, false, masked, f) && !masked && g.power.winner != Some(t)
    ensures FrameOk(g, t, i, true, masked, f)
  {
  }

  // A whole step of one thread.

  lemma EarlyIsServed(s: State)
    requires Inv(s) && Top(s.threads[0]).pc == ReadStopping(true)
    ensures s.g.stop.stopping
  {
    var n := |s.threads[0].frames| - 1;
    Local(s, 0, n);
    Local(s, 0, 0);
    assert n == 0;
    assert |s.threads| == 1;
    var owner := s.g.stop.owner;
    if owner.Held? || owner.Stopping? {
      Local(s, owner.t, owner.i);
    }
  }

  lemma OtherKept(s: State, t: nat, how: How, t': nat, i': nat)
    requires Inv(s) && Enabled(s, Run(t, how)) && Live(s, t', i')
    requires (t', i') != (t, |s.threads[t].frames| - 1)
    ensures var th := s.threads[t];
            FrameOk(GAfter(s.g, t, |th.frames| - 1, Top(th).pc, how), t', i',
                    IsTop(s, t', i'), s.threads[t'].masked, FrameAt(s, t', i'))
  {
    var th := s.threads[t];
    var i, f, f' := |th.frames| - 1, Top(th), FrameAt(s, t', i');
    Local(s, t, i);
    Local(s, t', i');
    OtherWinner(s.g, t, i, f.pc, how, t', IsTop(s, t', i'), f'.pc);
    OtherOwner(s.g, t, i, th.masked, f, how, t', i', f'.pc);
    OtherCause(s.g, t, i, f.pc, how, t', i', f');
    if t' == 0 && i' == 0 {
      OtherMain(s.g, t, i, th.masked, f, how, f'.pc);
    }
  }

  /** The frame that moves, and the shared state it leaves. */
  predicate MovedOk(g: Shared, t: nat, i: nat, masked: bool, f: Frame, how: How)
    requires Steps(g, f.pc, how)
  {
    var g' := GAfter(g, t, i, f.pc, how);
    && SharedOk(g')
    && match MoveOf(g, t, i, f.pc, how)
       case Goto(pc) => FrameOk(g', t, i, true, masked || f.pc == Mask, f.(pc := pc))
       case Return => i > 0 && !masked && g'.power.winner != Some(t)
  }

  lemma MoverOk(g: Shared, t: nat, i: nat, masked: bool, f: Frame, how: How)
    requires SharedOk(g) && FrameOk(g, t, i, true, masked, f)
    requires Steps(g, f.pc, how) && EarlyServed(g.stop, f.pc)
    ensures MovedOk(g, t, i, masked, f, how)
  {
    MoverShape(g, t, i, masked, f, how);
    MoverWinner(g, t, i, f.pc, how);
    MoverOwner(g, t, i, masked, f, how);
    MoverCause(g, t, i, f, how);
    if t == 0 && i == 0 {
      MoverMain(g, f.pc, how);
    }
    MoverShared(g, t, i, masked, f, how);
  }

  lemma MoverKept(s: State, t: nat, how: How)
    requires Inv(s) && Enabled(s, Run(t, how))
    ensures var th := s.threads[t]; MovedOk(s.g, t, |th.frames| - 1, th.masked, Top(th), how)
  {
    var th := s.threads[t];
    Local(s, t, |th.frames| - 1);
    if Top(th).pc == ReadStopping(true) {
      assert t == 0;
      EarlyIsServed(s);
    }
    MoverOk(s.g, t, |th.frames| - 1, th.masked, Top(th), how);
  }

  lemma RunLocal(s: State, t: nat, how: How, t': nat, i': nat)
    requires Inv(s) && Enabled(s, Run(t, how)) && Live(Next(s, Run(t, how)), t', i')
    ensures LocalOk(Next(s, Run(t, how)), t', i')
  {
    var th := s.threads[t];
    var n := |th.frames| - 1;
    var s' := Next(s, Run(t, how));
    MoverKept(s, t, how);
    if t' == t && i' == n {
      assert FrameAt(s', t, n) == Top(th).(pc := MoveOf(s.g, t, n, Top(th).pc, how).pc);
    } else {
      OtherKept(s, t, how, t', i');
      if t' == t && IsTop(s', t', i') {
        UncoveredOk(s'.g, t, i', th.masked, FrameAt(s, t, i'));
      }
    }
  }

  /** Which frames the shared state may name after a step of frame (`t`, `i`): those it named, or the
      one that moved, if that is still there. */
  predicate NamesFrom(g: Shared, g': Shared, t: nat, i: nat, returned: bool) {
    var owner' := g'.stop.owner;
    && g'.stop.wake == g.stop.wake
    && (g'.power.winner == g.power.winner || g'.power.winner == Some(t))
    && (owner'.Held? || owner'.Stopping? ==>
          owner' == g.stop.owner || (owner'.t == t && owner'.i == i))
    && (returned ==> owner' != Held(t, i) && owner' != Stopping(t, i))
  }

  lemma NamesAfter(g: Shared, t: nat, i: nat, masked: bool, f: Frame, how: How)
    requires ShapeOk(t, i, true, masked, f) && OwnerOk(g.stop, t, i, f.pc) && Steps(g, f.pc, how)
    ensures NamesFrom(g, GAfter(g, t, i, f.pc, how), t, i, MoveOf(g, t, i, f.pc, how).Return?)
  {
  }

  lemma NamesKept(s: State, s': State, t: nat, i: nat, returned: bool)
    requires NamesLive(s) && Live(s, t, i) && IsTop(s, t, i)
    requires |s'.threads| == |s.threads|
    requires forall k | 0 <= k < |s.threads| ::
               |s'.threads[k].frames| == |s.threads[k].frames| - (if k == t && returned then 1 else 0)
    requires NamesFrom(s.g, s'.g, t, i, returned)
    ensures NamesLive(s')
  {
  }

  lemma RunNames(s: State, t: nat, how: How)
    requires Inv(s) && Enabled(s, Run(t, how))
    ensures NamesLive(Next(s, Run(t, how)))
  {
    var th := s.threads[t];
    var i := |th.frames| - 1;
    Local(s, t, i);
    NamesAfter(s.g, t, i, th.masked, Top(th), how);
    NamesKept(s, Next(s, Run(t, how)), t, i, MoveOf(s.g, t, i, Top(th).pc, how).Return?);
  }

  lemma RunStacked(s: State, t: nat, how: How)
    requires Inv(s) && Enabled(s, Run(t, how))
    ensures Stacked(Next(s, Run(t, how)))
  {
    MoverKept(s, t, how);
    var s' := Next(s, Run(t, how));
    forall k | 0 <= k < |s'.threads|
      ensures s'.threads[k].frames != []
    {
      assert k != t ==> s'.threads[k] == s.threads[k];
    }
  }

  /** How a step keeps the machine bound to end. */
  lemma BoundAfter(g: Shared, t: nat, i: nat, pc: Pc, how: How)
    requires Steps(g, pc, how)
    ensures var (g', move) := Effect(g, t, i, pc, how);
            && (g.power.ending ==> g'.power.ending)
            && (g.alarm.Some? ==> g'.alarm.Some?)
            && (g'.stop.owner.Spent? && !g.stop.owner.Spent? ==> g'.alarm.Some? || move == Goto(Mask))
            && (DoomPc(pc) ==> move == Goto(SwapEnding) || g'.power.ending)
            && (DoomPc(pc) ==> move.Goto?)
            && (g.stop.owner.Spent? && !OwnPc(pc) && !pc.SwapStop? && !pc.ReadPipe? ==>
                  g'.stop.owner.Spent?)
  {
  }

  lemma RunBound(s: State, t: nat, how: How)
    requires Inv(s) && Enabled(s, Run(t, how))
    ensures Bound(Next(s, Run(t, how)))
  {
    var th := s.threads[t];
    var n := |th.frames| - 1;
    var s' := Next(s, Run(t, how));
    BoundAfter(s.g, t, n, Top(th).pc, how);
    if s'.g.stop.owner.Spent? && !s.g.stop.owner.Spent? {
      if !s'.g.alarm.Some? {
        assert Live(s', t, n) && DoomPc(FrameAt(s', t, n).pc);
      }
    } else if s.g.stop.owner.Spent? && Dooming(s) {
      var t': nat, i': nat :| Live(s, t', i') && DoomPc(FrameAt(s, t', i').pc);
      DoomKept(s, t, how, t', i');
    }
  }

  lemma DoomKept(s: State, t: nat, how: How, t': nat, i': nat)
    requires Inv(s) && Enabled(s, Run(t, how)) && Live(s, t', i') && DoomPc(FrameAt(s, t', i').pc)
    ensures var s' := Next(s, Run(t, how)); s'.g.power.ending || Dooming(s')
  {
    var th := s.threads[t];
    var n := |th.frames| - 1;
    var s' := Next(s, Run(t, how));
    BoundAfter(s.g, t, n, Top(th).pc, how);
    if !s'.g.power.ending {
      assert Live(s', t', i') && DoomPc(FrameAt(s', t', i').pc);
    }
  }

  lemma RunInv(s: State, t: nat, how: How)
    requires Inv(s) && Enabled(s, Run(t, how))
    ensures Inv(Next(s, Run(t, how)))
  {
    MoverKept(s, t, how);
    RunNames(s, t, how);
    RunStacked(s, t, how);
    RunBound(s, t, how);
    forall t': nat, i': nat | Live(Next(s, Run(t, how)), t', i')
      ensures LocalOk(Next(s, Run(t, how)), t', i')
    {
      RunLocal(s, t, how, t', i');
    }
  }

  // The other events.

  lemma EnteredOk(g: Shared, t: nat, i: nat, sig: Signal)
    requires i > 0 && PowerOk(g.power) && g.power.winner != Some(t)
    requires g.stop.owner != Held(t, i) && g.stop.owner != Stopping(t, i)
    ensures FrameOk(g, t, i, true, false, Frame(Some(sig), Entry(sig)))
  {
  }

  lemma CoveredOk(g: Shared, t: nat, i: nat, f: Frame)
    requires FrameOk(g, t, i, true, false, f) && !f.pc.Done?
    ensures FrameOk(g, t, i, false, false, f)
  {
  }

  lemma DeliveredOk(s: State, t: nat, sig: Signal)
    requires Inv(s) && Enabled(s, Deliver(t, sig))
    ensures FrameOk(Next(s, Deliver(t, sig)).g, t, |s.threads[t].frames|, true, false,
                    Frame(Some(sig), Entry(sig)))
  {
    var n := |s.threads[t].frames|;
    Local(s, t, n - 1);
    Unnamed(s, t, n);
    EnteredOk(Next(s, Deliver(t, sig)).g, t, n, sig);
  }

  lemma InterruptedOk(s: State, t: nat, sig: Signal, t': nat, i': nat)
    requires Inv(s) && Enabled(s, Deliver(t, sig)) && Live(s, t', i')
    ensures FrameOk(Next(s, Deliver(t, sig)).g, t', i', IsTop(s, t', i') && t' != t,
                    s.threads[t'].masked, FrameAt(s, t', i'))
  {
    Local(s, t', i');
    if t' == t && IsTop(s, t, i') {
      CoveredOk(Next(s, Deliver(t, sig)).g, t, i', FrameAt(s, t', i'));
    }
  }

  lemma DeliverLocal(s: State, t: nat, sig: Signal, t': nat, i': nat)
    requires Inv(s) && Enabled(s, Deliver(t, sig)) && Live(Next(s, Deliver(t, sig)), t', i')
    ensures LocalOk(Next(s, Deliver(t, sig)), t', i')
  {
    if (t', i') == (t, |s.threads[t].frames|) {
      DeliveredOk(s, t, sig);
    } else {
      InterruptedOk(s, t, sig, t', i');
    }
  }

  lemma Unnamed(s: State, t: nat, i: nat)
    requires Inv(s) && !Live(s, t, i)
    ensures s.g.stop.owner != Held(t, i) && s.g.stop.owner != Stopping(t, i)
  {
  }

  lemma DeliverInv(s: State, t: nat, sig: Signal)
    requires Inv(s) && Enabled(s, Deliver(t, sig))
    ensures Inv(Next(s, Deliver(t, sig)))
  {
    var s' := Next(s, Deliver(t, sig));
    forall t': nat, i': nat | Live(s', t', i')
      ensures LocalOk(s', t', i')
    {
      DeliverLocal(s, t, sig, t', i');
    }
    if sig == Alrm {
      assert Live(s', t, |s.threads[t].frames|) && DoomPc(FrameAt(s', t, |s.threads[t].frames|).pc);
    }
    DoomGrows(s, s');
  }

  /** Frames that stay keep the machine bound to end. */
  lemma DoomGrows(s: State, s': State)
    requires forall t: nat, i: nat | Live(s, t, i) ::
               Live(s', t, i) && (DoomPc(FrameAt(s, t, i).pc) ==> FrameAt(s', t, i) == FrameAt(s, t, i))
    ensures Dooming(s) ==> Dooming(s')
  {
    if Dooming(s) {
      var t: nat, i: nat :| Live(s, t, i) && DoomPc(FrameAt(s, t, i).pc);
      assert Live(s', t, i) && DoomPc(FrameAt(s', t, i).pc);
    }
  }

  lemma PublisherOk(g: Shared, masked: bool, f: Frame)
    requires FrameOk(g, 0, 0, true, masked, f) && f.pc == StartWorker
    ensures FrameOk(g.(stop := g.stop.(wake := true)), 0, 0, true, masked, f.(pc := Wait(Serving)))
  {
  }

  lemma WorkerOk(g: Shared)
    requires SharedOk(g) && !g.stop.wake && g.power.winner != Some(1)
    requires g.stop.owner != Held(1, 0) && g.stop.owner != Stopping(1, 0)
    ensures FrameOk(g.(stop := g.stop.(wake := true)), 1, 0, true, false, Frame(None, ReadPipe))
  {
  }

  lemma PublishLocal(s: State, t': nat, i': nat)
    requires Inv(s) && Enabled(s, Publish) && Live(Next(s, Publish), t', i')
    ensures LocalOk(Next(s, Publish), t', i')
  {
    var n := |s.threads[0].frames| - 1;
    Local(s, 0, n);
    assert n == 0 && |s.threads| == 1;
    Unnamed(s, 1, 0);
    if t' == 0 {
      PublisherOk(s.g, s.threads[0].masked, Top(s.threads[0]));
    } else {
      WorkerOk(s.g);
    }
  }

  lemma PublishInv(s: State)
    requires Inv(s) && Enabled(s, Publish)
    ensures Inv(Next(s, Publish))
  {
    var s' := Next(s, Publish);
    forall t': nat, i': nat | Live(s', t', i')
      ensures LocalOk(s', t', i')
    {
      PublishLocal(s, t', i');
    }
    DoomGrows(s, s');
  }

  lemma ExitsInv(s: State)
    requires Inv(s) && Enabled(s, ServiceExits)
    ensures Inv(Next(s, ServiceExits))
  {
    var s' := Next(s, ServiceExits);
    forall t: nat, i: nat | Live(s', t, i)
      ensures LocalOk(s', t, i)
    {
      Local(s, t, i);
    }
    DoomGrows(s, s');
  }

  lemma TickInv(s: State)
    requires Inv(s)
    ensures Inv(Next(s, Tick))
  {
    var s' := Next(s, Tick);
    forall t: nat, i: nat | Live(s', t, i)
      ensures LocalOk(s', t, i)
    {
      Local(s, t, i);
    }
    DoomGrows(s, s');
  }

  lemma SpawnInv(s: State)
    requires Inv(s) && Enabled(s, Spawn)
    ensures Inv(Next(s, Spawn))
  {
    var s' := Next(s, Spawn);
    forall t: nat, i: nat | Live(s', t, i)
      ensures LocalOk(s', t, i)
    {
      if t < |s.threads| {
        Local(s, t, i);
      } else {
        Unnamed(s, t, i);
      }
    }
    DoomGrows(s, s');
  }

  /** Whatever happens next, the invariant holds again. */
  lemma StepInv(s: State, e: Event)
    requires Inv(s) && Enabled(s, e)
    ensures Inv(Next(s, e))
  {
    match e
    case Run(t, how) => RunInv(s, t, how);
    case Publish => PublishInv(s);
    case Deliver(t, sig) => DeliverInv(s, t, sig);
    case ServiceExits => ExitsInv(s);
    case Tick => TickInv(s);
    case Spawn => SpawnInv(s);
  }
}
