/** What an SSH connection answers and starts, from the requests and what the guest makes of them alone. */
module SshAnswers {
  import opened Wrappers
  import opened SshHandler
  import opened SshSession

  /** A request by which nothing runs on the channel any more, or something does. */
  predicate Uses(r: Request, id: Id) {
    r.id == id && (r.ShellRequest? || r.ExecRequest? || r.Subsystem? || r.Close?)
  }

  // Open channels.

  /** The channel was opened, and no shell, exec, subsystem or close request for it came since. */
  predicate IsOpen(rs: seq<Request>, id: Id) {
    exists i: nat | i < |rs| :: rs[i] == OpenSession(id) && forall j: nat | i < j < |rs| :: !Uses(rs[j], id)
  }

  lemma OpenMore(rs: seq<Request>, r: Request, id: Id)
    ensures IsOpen(rs + [r], id) <==> r == OpenSession(id) || (IsOpen(rs, id) && !Uses(r, id))
  {
    var more := rs + [r];
    if i: nat :| i < |more| && more[i] == OpenSession(id) && forall j: nat | i < j < |more| :: !Uses(more[j], id) {
      if i < |rs| {
        assert rs[i] == OpenSession(id);
        assert more[|rs|] == r;
        forall j: nat | i < j < |rs|
          ensures !Uses(rs[j], id)
        {
          assert more[j] == rs[j];
        }
      }
    }
    if r == OpenSession(id) {
      assert more[|rs|] == r;
    } else if IsOpen(rs, id) && !Uses(r, id) {
      var i: nat :| i < |rs| && rs[i] == OpenSession(id) && forall j: nat | i < j < |rs| :: !Uses(rs[j], id);
      assert more[i] == rs[i];
      forall j: nat | i < j < |more|
        ensures !Uses(more[j], id)
      {
      }
    }
  }

  lemma ChannelsStep(s: State, running: set<Id>, r: Request, id: Id)
    ensures id in Handled(s, running, r).state.channels
            <==> r == OpenSession(id) || (id in s.channels && !Uses(r, id))
  {
  }

  /** A channel is kept exactly while it is open. */
  lemma {:induction false} ChannelsAre(rs: seq<Request>, id: Id)
    ensures id in After(rs).state.channels <==> IsOpen(rs, id)
  {
    if rs != [] {
      var (init, r) := (rs[..|rs| - 1], rs[|rs| - 1]);
      ChannelsAre(init, id);
      OpenMore(init, r, id);
      assert init + [r] == rs;
      ChannelsStep(After(init).state, After(init).running, r, id);
    }
  }

  // Pending ptys.

  /** Request `i` granted the channel a pty that nothing has used since. */
  predicate Grants(history: seq<(Request, seq<Reply>)>, i: nat, id: Id) {
    && i < |history| && history[i].0.Pty? && history[i].0.id == id && history[i].1 == [Success(id)]
    && forall j: nat | i < j < |history| :: !Uses(history[j].0, id)
  }

  ghost predicate HasPty(history: seq<(Request, seq<Reply>)>, id: Id) {
    exists i: nat :: Grants(history, i, id)
  }

  lemma GrantsMore(history: seq<(Request, seq<Reply>)>, step: (Request, seq<Reply>), i: nat, id: Id)
    ensures Grants(history + [step], i, id)
            <==> if i == |history| then step.0.Pty? && step.0.id == id && step.1 == [Success(id)]
                 else Grants(history, i, id) && !Uses(step.0, id)
  {
    var more := history + [step];
    if i < |history| {
      assert more[i] == history[i];
      if Grants(more, i, id) {
        assert more[|history|] == step;
        forall j: nat | i < j < |history|
          ensures !Uses(history[j].0, id)
        {
          assert more[j] == history[j];
        }
      }
    }
  }

  /** What the pty is: the terminal the client named, if it named one. */
  predicate Named(pty: PtyReq, r: Request)
    requires r.Pty?
  {
    pty.term == if r.term == "" then None else Some(r.term)
  }

  ghost predicate PtysFit(s: State, history: seq<(Request, seq<Reply>)>, id: Id) {
    && (id in s.ptys <==> HasPty(history, id))
    && forall i: nat | Grants(history, i, id) :: id in s.ptys && Named(s.ptys[id], history[i].0)
  }

  lemma PtyStep(s: State, running: set<Id>, r: Request, id: Id)
    ensures var o := Handled(s, running, r);
            && (r.Pty? && r.id == id && o.replies == [Success(id)] ==>
                  id !in s.ptys && id in o.state.ptys && Named(o.state.ptys[id], r))
            && (!(r.Pty? && r.id == id && o.replies == [Success(id)]) ==>
                  && (id in o.state.ptys <==> id in s.ptys && !(Uses(r, id) && (r.Close? || id in s.channels)))
                  && (id in o.state.ptys ==> o.state.ptys[id].term == s.ptys[id].term))
  {
  }

  lemma PtysNext(s: Session, r: Request, id: Id)
    requires PtysFit(s.state, s.history, id) && (id in s.state.ptys ==> id in s.state.channels)
    ensures PtysFit(Next(s, r).state, Next(s, r).history, id)
  {
    var o := Handled(s.state, s.running, r);
    var (h, step) := (s.history, (r, o.replies));
    PtyStep(s.state, s.running, r, id);
    forall i: nat
      ensures Grants(h + [step], i, id)
              <==> if i == |h| then r.Pty? && r.id == id && o.replies == [Success(id)]
                   else Grants(h, i, id) && !Uses(r, id)
    {
      GrantsMore(h, step, i, id);
    }
    if r.Pty? && r.id == id && o.replies == [Success(id)] {
      assert Grants(h + [step], |h|, id);
      forall i: nat | Grants(h + [step], i, id)
        ensures i == |h|
      {
      }
    } else if id in o.state.ptys {
      var i: nat :| Grants(h, i, id);
      assert Grants(h + [step], i, id);
    }
  }

  lemma {:induction false} PtysTidyAlways(rs: seq<Request>)
    ensures PtysTidy(After(rs).state)
  {
    if rs != [] {
      var (init, r) := (rs[..|rs| - 1], rs[|rs| - 1]);
      PtysTidyAlways(init);
      PtysKept(After(init).state, After(init).running, r);
    }
  }

  /** A pty is pending exactly while a granted one has not been used, with the terminal that was named. */
  lemma {:induction false} PtysAre(rs: seq<Request>, id: Id)
    ensures PtysFit(After(rs).state, After(rs).history, id)
  {
    if rs != [] {
      var (init, r) := (rs[..|rs| - 1], rs[|rs| - 1]);
      PtysAre(init, id);
      PtysTidyAlways(init);
      PtysNext(After(init), r, id);
    }
  }

  // Running programs.

  /** Request `i` started a program with a bridge on the channel, which has neither ended nor been closed
      since. */
  predicate Runs(history: seq<(Request, seq<Reply>)>, i: nat, id: Id) {
    && i < |history| && (history[i].0.ShellRequest? || history[i].0.ExecRequest?)
    && history[i].0.id == id && history[i].1 == [Success(id)]
    && forall j: nat | i < j < |history| :: history[j].0 != Close(id) && history[j].0 != BridgeEnds(id)
  }

  ghost predicate IsRunning(history: seq<(Request, seq<Reply>)>, id: Id) {
    exists i: nat :: Runs(history, i, id)
  }

  predicate StartsOn(step: (Request, seq<Reply>), id: Id) {
    (step.0.ShellRequest? || step.0.ExecRequest?) && step.0.id == id && step.1 == [Success(id)]
  }

  predicate Stops(r: Request, id: Id) {
    r == Close(id) || r == BridgeEnds(id)
  }

  lemma RunsMore(history: seq<(Request, seq<Reply>)>, step: (Request, seq<Reply>), i: nat, id: Id)
    ensures Runs(history + [step], i, id)
            <==> if i == |history| then StartsOn(step, id) else Runs(history, i, id) && !Stops(step.0, id)
  {
    var more := history + [step];
    if i < |history| {
      assert more[i] == history[i];
      if Runs(more, i, id) {
        assert more[|history|] == step;
        forall j: nat | i < j < |history|
          ensures history[j].0 != Close(id) && history[j].0 != BridgeEnds(id)
        {
          assert more[j] == history[j];
        }
      }
    }
  }

  lemma RunningMore(history: seq<(Request, seq<Reply>)>, step: (Request, seq<Reply>), id: Id)
    ensures IsRunning(history + [step], id) <==> StartsOn(step, id) || (IsRunning(history, id) && !Stops(step.0, id))
  {
    if i: nat :| Runs(history + [step], i, id) {
      RunsMore(history, step, i, id);
    }
    if StartsOn(step, id) {
      RunsMore(history, step, |history|, id);
    }
    if i: nat :| Runs(history, i, id) && !Stops(step.0, id) {
      RunsMore(history, step, i, id);
      assert i < |history|;
    }
  }

  lemma RoutedStep(s: Session, r: Request, id: Id)
    ensures var (o, s') := (Handled(s.state, s.running, r), Next(s, r));
            id in s'.state.signals && id in s'.running
            <==> StartsOn((r, o.replies), id)
                 || (id in s.state.signals && id in s.running && !Stops(r, id))
  {
    var o := Handled(s.state, s.running, r);
    if o.starts != [] {
      assert o.starts[0] in o.starts;
    }
  }

  /** Signals are routed to a bridge that runs exactly while a started program runs. */
  lemma {:induction false} RoutesAre(rs: seq<Request>, id: Id)
    ensures id in After(rs).state.signals && id in After(rs).running <==> IsRunning(After(rs).history, id)
  {
    if rs != [] {
      var (init, r) := (rs[..|rs| - 1], rs[|rs| - 1]);
      var s := After(init);
      RoutesAre(init, id);
      RoutedStep(s, r, id);
      RunningMore(s.history, (r, Handled(s.state, s.running, r).replies), id);
    }
  }

  // The answers.

  /** The reply to a request. */
  function Answer(success: bool, id: Id): seq<Reply> {
    [if success then Success(id) else Failure(id)]
  }

  /** A shell or a command is started if and only if the channel is open and the program spawns, on the
      channel's pty just when it has one. */
  lemma ProgramsAnswered(rs: seq<Request>, r: Request)
    requires r.ShellRequest? || r.ExecRequest?
    ensures var (o, success) := (Handled(After(rs).state, After(rs).running, r), IsOpen(rs, r.id) && r.spawns);
            && o.replies == Answer(success, r.id)
            && |o.starts| == (if success then 1 else 0)
            && forall start <- o.starts ::
                 && start.id == r.id && start.program == (if r.ShellRequest? then Shell else Command)
                 && (start.pty.Some? <==> HasPty(After(rs).history, r.id))
                 && forall i: nat | Grants(After(rs).history, i, r.id) ::
                      Named(start.pty.value, After(rs).history[i].0)
  {
    ChannelsAre(rs, r.id);
    PtysAre(rs, r.id);
  }

  /** The sftp subsystem is started if and only if the channel is open and the user resolves; no other
      subsystem ever is. */
  lemma SubsystemAnswered(rs: seq<Request>, r: Request)
    requires r.Subsystem?
    ensures var o := Handled(After(rs).state, After(rs).running, r);
            var success := IsOpen(rs, r.id) && r.name == "sftp" && r.resolves;
            && o.replies == Answer(success, r.id)
            && o.starts == if success then [Start(r.id, Sftp, None)] else []
  {
    ChannelsAre(rs, r.id);
  }

  /** A pty is granted if and only if the channel is open and has none, fewer than ten are pending, and one
      opens. */
  lemma PtyAnswered(rs: seq<Request>, r: Request, pending: set<Id>)
    requires r.Pty? && forall id: Id :: id in pending <==> HasPty(After(rs).history, id)
    ensures var o := Handled(After(rs).state, After(rs).running, r);
            && o.replies == Answer(IsOpen(rs, r.id) && r.id !in pending && |pending| < 10 && r.opens, r.id)
            && o.starts == []
  {
    ChannelsAre(rs, r.id);
    forall id: Id
      ensures id in After(rs).state.ptys.Keys <==> id in pending
    {
      PtysAre(rs, id);
    }
    assert After(rs).state.ptys.Keys == pending;
    assert |After(rs).state.ptys.Keys| == |After(rs).state.ptys|;
  }

  /** A signal is passed on if and only if it is known, a program started on the channel still runs, and its
      bridge has room; every other request is answered by silence. */
  lemma SignalAnswered(rs: seq<Request>, r: Request)
    requires r.Signal? || r.OpenSession? || r.WindowChange? || r.Close? || r.BridgeEnds?
    ensures var o := Handled(After(rs).state, After(rs).running, r);
            && o.starts == []
            && o.replies == if r.Signal? then Answer(r.known && r.room && IsRunning(After(rs).history, r.id), r.id)
                            else []
  {
    RoutesAre(rs, r.id);
  }

  // The size a running program is told.

  /** Request `i` started a program on the channel's pty that still runs. */
  ghost predicate RunsOnPty(history: seq<(Request, seq<Reply>)>, i: nat, id: Id) {
    Runs(history, i, id) && HasPty(history[..i], id)
  }

  ghost predicate OnPty(history: seq<(Request, seq<Reply>)>, id: Id) {
    exists i: nat :: RunsOnPty(history, i, id)
  }

  lemma OnPtyMore(history: seq<(Request, seq<Reply>)>, step: (Request, seq<Reply>), id: Id)
    ensures OnPty(history + [step], id)
            <==> (StartsOn(step, id) && HasPty(history, id)) || (OnPty(history, id) && !Stops(step.0, id))
  {
    var more := history + [step];
    assert more[..|history|] == history;
    if i: nat :| RunsOnPty(more, i, id) {
      RunsMore(history, step, i, id);
      if i < |history| {
        assert more[..i] == history[..i];
        assert RunsOnPty(history, i, id);
      }
    }
    if StartsOn(step, id) && HasPty(history, id) {
      RunsMore(history, step, |history|, id);
      assert RunsOnPty(more, |history|, id);
    }
    if i: nat :| RunsOnPty(history, i, id) && !Stops(step.0, id) {
      RunsMore(history, step, i, id);
      assert more[..i] == history[..i];
      assert RunsOnPty(more, i, id);
    }
  }

  lemma ToldStep(s: Session, r: Request, id: Id)
    requires id in s.state.channels ==> id !in s.state.resizes
    ensures var (o, s') := (Handled(s.state, s.running, r), Next(s, r));
            id in s'.state.resizes && id in s'.running
            <==> (StartsOn((r, o.replies), id) && id in s.state.ptys)
                 || (id in s.state.resizes && id in s.running && !Stops(r, id))
  {
    var o := Handled(s.state, s.running, r);
    if o.starts != [] {
      assert o.starts[0] in o.starts;
    }
  }

  lemma {:induction false} ToldAre(rs: seq<Request>, id: Id)
    requires FreshIds(rs)
    ensures id in After(rs).state.resizes && id in After(rs).running <==> OnPty(After(rs).history, id)
  {
    if rs != [] {
      var (init, r) := (rs[..|rs| - 1], rs[|rs| - 1]);
      var s := After(init);
      FreshPrefix(rs);
      ToldAre(init, id);
      SessionsTidy(init);
      PtysAre(init, id);
      ToldStep(s, r, id);
      OnPtyMore(s.history, (r, Handled(s.state, s.running, r).replies), id);
    }
  }

  /** Over every sequence of requests with fresh channel ids: a bridge is told a size exactly while a program
      started on a pty runs, and that size is the client's last. */
  lemma ToldTheLast(rs: seq<Request>, id: Id)
    requires FreshIds(rs)
    ensures id in After(rs).state.resizes && id in After(rs).running <==> OnPty(After(rs).history, id)
    ensures OnPty(After(rs).history, id) ==>
              id in After(rs).state.resizes
              && LastSize(After(rs).history, id) == Some(After(rs).state.resizes[id])
  {
    ToldAre(rs, id);
    SizesAreLast(rs, id);
  }
}
