/** What holds over every sequence of requests of an SSH connection. */
module SshSession {
  import opened Wrappers
  import opened SshHandler

  /** A connection after some requests: the handler, the bridges still running, each request with its
      replies, and the programs started. */
  datatype Session = Session(state: State, running: set<Id>, history: seq<(Request, seq<Reply>)>,
                             starts: seq<Start>)

  function Bridged(running: set<Id>, r: Request, starts: seq<Start>): set<Id> {
    if r.BridgeEnds? then running - {r.id}
    else running + set start <- starts | start.program != Sftp :: start.id
  }

  function Next(s: Session, r: Request): Session {
    var o := Handled(s.state, s.running, r);
    Session(o.state, Bridged(s.running, r, o.starts), s.history + [(r, o.replies)], s.starts + o.starts)
  }

  function After(rs: seq<Request>): Session {
    if rs == [] then Session(FRESH, {}, [], []) else Next(After(rs[..|rs| - 1]), rs[|rs| - 1])
  }

  /** Channel ids are not reused within the connection. */
  predicate FreshIds(rs: seq<Request>) {
    forall i: nat, j: nat | i < j < |rs| && rs[i].OpenSession? && rs[j].OpenSession? ::
      rs[i].id != rs[j].id
  }

  predicate Opened(rs: seq<Request>, id: Id) {
    OpenSession(id) in rs
  }

  // Replies.

  predicate WantsReply(r: Request) {
    r.Pty? || r.Signal? || r.ShellRequest? || r.ExecRequest? || r.Subsystem?
  }

  predicate Answered(step: (Request, seq<Reply>)) {
    if WantsReply(step.0) then |step.1| == 1 && step.1[0].id == step.0.id else step.1 == []
  }

  lemma OneReply(s: State, running: set<Id>, r: Request)
    ensures Answered((r, Handled(s, running, r).replies))
  {
  }

  /** The history answers the requests one for one. */
  predicate AnswersAll(history: seq<(Request, seq<Reply>)>, rs: seq<Request>) {
    |history| == |rs| && forall i: nat | i < |rs| :: history[i].0 == rs[i] && Answered(history[i])
  }

  lemma AnswersMore(history: seq<(Request, seq<Reply>)>, rs: seq<Request>, r: Request, replies: seq<Reply>)
    requires AnswersAll(history, rs) && Answered((r, replies))
    ensures AnswersAll(history + [(r, replies)], rs + [r])
  {
  }

  /** Each pty, signal, shell, exec and subsystem request gets exactly one reply, on its own channel,
      and no other request gets any. */
  lemma {:induction false} OneReplyEach(rs: seq<Request>)
    ensures AnswersAll(After(rs).history, rs)
  {
    if rs != [] {
      var (init, r) := (rs[..|rs| - 1], rs[|rs| - 1]);
      var s := After(init);
      OneReplyEach(init);
      OneReply(s.state, s.running, r);
      AnswersMore(s.history, init, r, Handled(s.state, s.running, r).replies);
      assert init + [r] == rs;
    }
  }

  /** The replies tell the truth: a shell, exec or subsystem request succeeds if and only if it started
      a program on its channel, a pty request if and only if the channel now has a pty it had not, and a
      signal only on a channel whose bridge still runs. */
  lemma RepliesTellTruth(s: State, running: set<Id>, r: Request)
    ensures var o := Handled(s, running, r);
            && (r.ShellRequest? || r.ExecRequest? || r.Subsystem? ==>
                  (o.replies == [Success(r.id)] <==> o.starts != []))
            && (r.Pty? ==> (o.replies == [Success(r.id)] <==> r.id !in s.ptys && r.id in o.state.ptys))
            && (r.Signal? && o.replies == [Success(r.id)] ==> r.id in s.signals && r.id in running)
            && (forall start <- o.starts :: start.id == r.id)
            && (!r.ShellRequest? && !r.ExecRequest? && !r.Subsystem? ==> o.starts == [])
  {
  }

  /** The channels on which shell, exec and subsystem requests succeeded, in order. */
  function Succeeded(history: seq<(Request, seq<Reply>)>): seq<Id> {
    if history == [] then []
    else
      var (r, replies) := history[|history| - 1];
      var rest := Succeeded(history[..|history| - 1]);
      if (r.ShellRequest? || r.ExecRequest? || r.Subsystem?) && replies == [Success(r.id)] then rest + [r.id]
      else rest
  }

  function Ids(starts: seq<Start>): seq<Id> {
    if starts == [] then [] else Ids(starts[..|starts| - 1]) + [starts[|starts| - 1].id]
  }

  lemma IdsMore(starts: seq<Start>, start: Start)
    ensures Ids(starts + [start]) == Ids(starts) + [start.id]
  {
    assert (starts + [start])[..|starts|] == starts;
  }

  lemma SucceededMore(history: seq<(Request, seq<Reply>)>, r: Request, replies: seq<Reply>)
    ensures Succeeded(history + [(r, replies)])
            == Succeeded(history)
               + if (r.ShellRequest? || r.ExecRequest? || r.Subsystem?) && replies == [Success(r.id)]
                 then [r.id] else []
  {
    assert (history + [(r, replies)])[..|history|] == history;
  }

  lemma StartsMore(starts: seq<Start>, more: seq<Start>, id: Id)
    requires |more| <= 1 && forall start <- more :: start.id == id
    ensures Ids(starts + more) == Ids(starts) + if more == [] then [] else [id]
  {
    if more == [] {
      assert starts + more == starts;
    } else {
      assert more == [more[0]];
      IdsMore(starts, more[0]);
    }
  }

  lemma SuccessNext(s: Session, r: Request)
    requires Ids(s.starts) == Succeeded(s.history)
    ensures Ids(Next(s, r).starts) == Succeeded(Next(s, r).history)
  {
    var o := Handled(s.state, s.running, r);
    RepliesTellTruth(s.state, s.running, r);
    StartsFromChannels(s.state, s.running, r);
    SucceededMore(s.history, r, o.replies);
    StartsMore(s.starts, o.starts, r.id);
  }

  /** Over every sequence of requests, the replies tell the truth about what runs: the programs started
      are those of the successful shell, exec and subsystem requests, channel by channel and in order. */
  lemma {:induction false} StartsAreSuccesses(rs: seq<Request>)
    ensures Ids(After(rs).starts) == Succeeded(After(rs).history)
  {
    if rs != [] {
      StartsAreSuccesses(rs[..|rs| - 1]);
      SuccessNext(After(rs[..|rs| - 1]), rs[|rs| - 1]);
    }
  }

  // Programs.

  predicate StartedOn(starts: seq<Start>, id: Id) {
    exists start <- starts :: start.id == id
  }

  predicate OncePerChannel(starts: seq<Start>) {
    forall i: nat, j: nat | i < j < |starts| :: starts[i].id != starts[j].id
  }

  predicate PtysTidy(s: State) {
    s.ptys.Keys <= s.channels && |s.ptys| <= 10
  }

  predicate ProgramsTidy(channels: set<Id>, starts: seq<Start>) {
    OncePerChannel(starts) && forall id <- channels :: !StartedOn(starts, id)
  }

  predicate RoutesTidy(s: State, starts: seq<Start>) {
    forall id <- s.resizes.Keys + s.signals :: StartedOn(starts, id)
  }

  predicate Tidy(s: State, starts: seq<Start>) {
    PtysTidy(s) && ProgramsTidy(s.channels, starts) && RoutesTidy(s, starts)
  }

  lemma {:induction false} ChannelsOpened(rs: seq<Request>, id: Id)
    ensures id in After(rs).state.channels || StartedOn(After(rs).starts, id) ==> Opened(rs, id)
  {
    if rs != [] {
      var (init, r) := (rs[..|rs| - 1], rs[|rs| - 1]);
      ChannelsOpened(init, id);
      RepliesTellTruth(After(init).state, After(init).running, r);
      StartsFromChannels(After(init).state, After(init).running, r);
    }
  }

  lemma StartsFromChannels(s: State, running: set<Id>, r: Request)
    ensures var o := Handled(s, running, r);
            && |o.starts| <= 1
            && (o.starts != [] ==> r.id in s.channels && r.id !in o.state.channels)
            && o.state.channels <= s.channels + (if r.OpenSession? then {r.id} else {})
            && (forall id <- o.state.resizes.Keys + o.state.signals ::
                  id in s.resizes.Keys + s.signals || (o.starts != [] && id == r.id))
  {
  }

  lemma OnePtyLess(ptys: map<Id, PtyReq>, id: Id)
    ensures |ptys - {id}| <= |ptys|
  {
    var without := ptys - {id};
    assert without.Keys == ptys.Keys - {id};
    assert |without.Keys| == |without| && |ptys.Keys| == |ptys|;
  }

  lemma OnePtySet(ptys: map<Id, PtyReq>, id: Id, p: PtyReq)
    ensures |ptys[id := p]| == if id in ptys then |ptys| else |ptys| + 1
  {
    assert ptys[id := p].Keys == ptys.Keys + {id};
    assert |ptys[id := p].Keys| == |ptys[id := p]|;
  }

  lemma PtysKept(s: State, running: set<Id>, r: Request)
    requires PtysTidy(s)
    ensures PtysTidy(Handled(s, running, r).state)
  {
    OnePtyLess(s.ptys, r.id);
    var s' := Handled(s, running, r).state;
    if (r.Pty? || r.WindowChange?) && r.id in s'.ptys {
      OnePtySet(s.ptys, r.id, s'.ptys[r.id]);
    }
  }

  lemma StartedMore(starts: seq<Start>, more: seq<Start>, id: Id)
    ensures StartedOn(starts + more, id) <==> StartedOn(starts, id) || StartedOn(more, id)
  {
  }

  /** One more program, on a channel that had none, or only fewer channels. */
  lemma ProgramsStep(channels: set<Id>, channels': set<Id>, starts: seq<Start>, more: seq<Start>, id: Id)
    requires ProgramsTidy(channels, starts) && |more| <= 1
    requires more != [] ==> more[0].id == id && id in channels && id !in channels'
    requires forall c <- channels' :: c in channels || !StartedOn(starts, c)
    ensures ProgramsTidy(channels', starts + more)
  {
    forall c <- channels'
      ensures !StartedOn(starts + more, c)
    {
      StartedMore(starts, more, c);
    }
    if more != [] {
      assert !StartedOn(starts, id);
    }
  }

  lemma RoutesStep(s: State, s': State, starts: seq<Start>, more: seq<Start>, id: Id)
    requires RoutesTidy(s, starts)
    requires forall c <- s'.resizes.Keys + s'.signals ::
               c in s.resizes.Keys + s.signals || (more != [] && c == id)
    requires more != [] ==> more[0].id == id
    ensures RoutesTidy(s', starts + more)
  {
    forall c <- s'.resizes.Keys + s'.signals
      ensures StartedOn(starts + more, c)
    {
      StartedMore(starts, more, c);
      if more != [] {
        assert more[0] in more;
      }
    }
  }

  lemma TidyStep(s: State, starts: seq<Start>, running: set<Id>, r: Request)
    requires Tidy(s, starts) && (r.OpenSession? ==> !StartedOn(starts, r.id))
    ensures var o := Handled(s, running, r); Tidy(o.state, starts + o.starts)
  {
    var o := Handled(s, running, r);
    PtysKept(s, running, r);
    RepliesTellTruth(s, running, r);
    StartsFromChannels(s, running, r);
    ProgramsStep(s.channels, o.state.channels, starts, o.starts, r.id);
    RoutesStep(s, o.state, starts, o.starts, r.id);
  }

  lemma FreshPrefix(rs: seq<Request>)
    requires rs != [] && FreshIds(rs)
    ensures FreshIds(rs[..|rs| - 1])
    ensures rs[|rs| - 1].OpenSession? ==> !Opened(rs[..|rs| - 1], rs[|rs| - 1].id)
  {
    var n := |rs| - 1;
    forall i: nat, j: nat | i < j < n && rs[..n][i].OpenSession? && rs[..n][j].OpenSession?
      ensures rs[..n][i].id != rs[..n][j].id
    {
      assert rs[i].id != rs[j].id;
    }
  }

  /** Over every sequence of requests with fresh channel ids: pending ptys belong only to channels that
      nothing has run on, at most ten at a time, and each channel starts at most one program. */
  lemma {:induction false} SessionsTidy(rs: seq<Request>)
    requires FreshIds(rs)
    ensures Tidy(After(rs).state, After(rs).starts)
  {
    if rs != [] {
      var (init, r) := (rs[..|rs| - 1], rs[|rs| - 1]);
      FreshPrefix(rs);
      SessionsTidy(init);
      if r.OpenSession? {
        ChannelsOpened(init, r.id);
      }
      TidyStep(After(init).state, After(init).starts, After(init).running, r);
    }
  }

  // Closed channels and ended bridges.

  predicate Forgotten(s: State, id: Id) {
    id !in s.channels && id !in s.ptys && id !in s.resizes && id !in s.signals
  }

  lemma ForgottenStep(s: State, running: set<Id>, r: Request, id: Id)
    requires Forgotten(s, id) && r != OpenSession(id)
    ensures var o := Handled(s, running, r); Forgotten(o.state, id) && !StartedOn(o.starts, id)
  {
  }

  lemma AfterMore(rs: seq<Request>, r: Request)
    ensures After(rs + [r]) == Next(After(rs), r)
  {
    assert (rs + [r])[..|rs|] == rs;
  }

  /** Once a channel is closed nothing is kept for it and nothing starts on it, whatever else the client
      asks. */
  lemma {:induction false} ClosedIsForgotten(rs: seq<Request>, id: Id, more: seq<Request>)
    requires OpenSession(id) !in more
    ensures Forgotten(After(rs + [Close(id)] + more).state, id)
    ensures StartedOn(After(rs + [Close(id)] + more).starts, id) ==> StartedOn(After(rs).starts, id)
    decreases |more|
  {
    var closed := rs + [Close(id)];
    if more == [] {
      assert closed + more == closed;
      AfterMore(rs, Close(id));
      assert After(rs).starts + [] == After(rs).starts;
    } else {
      var (init, r) := (more[..|more| - 1], more[|more| - 1]);
      assert closed + more == closed + init + [r];
      AfterMore(closed + init, r);
      ClosedIsForgotten(rs, id, init);
      var before := After(closed + init);
      ForgottenStep(before.state, before.running, r, id);
      StartedMore(before.starts, Handled(before.state, before.running, r).starts, id);
    }
  }

  /** The bridges that ended since the last shell or exec request that succeeded. */
  function EndedSince(history: seq<(Request, seq<Reply>)>): set<Id> {
    if history == [] then {}
    else
      var (r, replies) := history[|history| - 1];
      var before := EndedSince(history[..|history| - 1]);
      if (r.ShellRequest? || r.ExecRequest?) && replies == [Success(r.id)] then {}
      else if r.BridgeEnds? then before + {r.id}
      else before
  }

  lemma EndedMore(history: seq<(Request, seq<Reply>)>, r: Request, replies: seq<Reply>)
    ensures EndedSince(history + [(r, replies)])
            == if (r.ShellRequest? || r.ExecRequest?) && replies == [Success(r.id)] then {}
               else if r.BridgeEnds? then EndedSince(history) + {r.id}
               else EndedSince(history)
  {
    assert (history + [(r, replies)])[..|history|] == history;
  }

  lemma RoutesNext(s: Session, r: Request)
    requires s.state.signals <= s.running + EndedSince(s.history)
    ensures Next(s, r).state.signals <= Next(s, r).running + EndedSince(Next(s, r).history)
  {
    var o := Handled(s.state, s.running, r);
    EndedMore(s.history, r, o.replies);
    RepliesTellTruth(s.state, s.running, r);
    if o.starts != [] {
      assert o.starts[0] in o.starts;
    }
  }

  /** Over every sequence of requests, signal routes to ended bridges do not pile up: every route is to a
      running bridge or to one that ended since a program was last started. */
  lemma {:induction false} RoutesBounded(rs: seq<Request>)
    ensures After(rs).state.signals <= After(rs).running + EndedSince(After(rs).history)
  {
    if rs != [] {
      RoutesBounded(rs[..|rs| - 1]);
      RoutesNext(After(rs[..|rs| - 1]), rs[|rs| - 1]);
    }
  }

  // Sizes.

  /** A size as it was asked for, each side held to 16 bits. */
  function Asked(rows: nat, cols: nat): Size {
    Size(if rows <= 65535 then rows else 65535, if cols <= 65535 then cols else 65535)
  }

  /** The client's last word on a channel's size: its last window change or granted pty request. */
  function LastSize(history: seq<(Request, seq<Reply>)>, id: Id): Option<Size> {
    if history == [] then None
    else
      var (r, replies) := history[|history| - 1];
      if r.WindowChange? && r.id == id then Some(Asked(r.rows, r.cols))
      else if r.Pty? && r.id == id && replies == [Success(id)] then Some(Asked(r.rows, r.cols))
      else LastSize(history[..|history| - 1], id)
  }

  predicate SizeIs(s: State, id: Id, last: Option<Size>) {
    && (id in s.ptys ==> last == Some(s.ptys[id].size))
    && (id in s.resizes ==> last == Some(s.resizes[id]))
  }

  /** What request `r` says of the size of channel `id`, if anything. */
  function Says(r: Request, replies: seq<Reply>, id: Id): Option<Size> {
    if r.id != id then None
    else if r.WindowChange? || (r.Pty? && replies == [Success(id)]) then Some(Asked(r.rows, r.cols))
    else None
  }

  lemma LastSizeMore(history: seq<(Request, seq<Reply>)>, r: Request, replies: seq<Reply>, id: Id)
    ensures LastSize(history + [(r, replies)], id)
            == if Says(r, replies, id).Some? then Says(r, replies, id) else LastSize(history, id)
  {
    assert (history + [(r, replies)])[..|history|] == history;
  }

  lemma SizeStep(s: State, running: set<Id>, r: Request, id: Id, last: Option<Size>)
    requires SizeIs(s, id, last) && !(id in s.ptys && id in s.resizes)
    requires id in s.channels ==> id !in s.resizes
    requires id in s.ptys ==> id in s.channels
    ensures var o := Handled(s, running, r);
            SizeIs(o.state, id, if Says(r, o.replies, id).Some? then Says(r, o.replies, id) else last)
  {
  }

  /** Over every sequence of requests with fresh channel ids, the size a waiting pty has and the size a
      running one is told to take are the client's last, clamped to 16 bits. */
  lemma {:induction false} SizesAreLast(rs: seq<Request>, id: Id)
    requires FreshIds(rs)
    ensures SizeIs(After(rs).state, id, LastSize(After(rs).history, id))
  {
    if rs != [] {
      var (init, r) := (rs[..|rs| - 1], rs[|rs| - 1]);
      FreshPrefix(rs);
      SizesAreLast(init, id);
      SessionsTidy(init);
      var before := After(init);
      SizeStep(before.state, before.running, r, id, LastSize(before.history, id));
      LastSizeMore(before.history, r, Handled(before.state, before.running, r).replies, id);
    }
  }

  /** A program is given its terminal in the client's last size when it starts, and from then on its
      bridge is told every change while it runs. */
  lemma StartedAtLastSize(rs: seq<Request>, r: Request, start: Start)
    requires FreshIds(rs + [r]) && start in Handled(After(rs).state, After(rs).running, r).starts
    ensures start.pty.Some? ==> LastSize(After(rs).history, r.id) == Some(start.pty.value.size)
    ensures start.pty.Some? ==> r.id in After(rs + [r]).state.resizes && r.id in After(rs + [r]).running
  {
    FreshPrefix(rs + [r]);
    assert (rs + [r])[..|rs|] == rs;
    SizesAreLast(rs, r.id);
    RepliesTellTruth(After(rs).state, After(rs).running, r);
  }
}
