/** One client connection of the SSH server: what it keeps for each channel, request by request. */
module SshHandler {
  import opened Wrappers

  type Id = nat

  const MAX_PENDING_PTYS: nat := 10
  const U16_MAX: nat := 65535

  datatype Size = Size(rows: nat, cols: nat)

  /** A granted pty that nothing runs on yet. */
  datatype PtyReq = PtyReq(term: Option<string>, size: Size)

  datatype Program = Shell | Command | Sftp

  /** A program started on a channel, with the terminal it was given. */
  datatype Start = Start(id: Id, program: Program, pty: Option<PtyReq>)

  datatype Reply = Success(id: Id) | Failure(id: Id)

  /** What a client asks, with what the guest makes of it: whether a pty opens, a program spawns, the
      user resolves, a signal is known and its bridge has room; and the end of a program's bridge. */
  datatype Request =
    | OpenSession(id: Id)
    | Pty(id: Id, term: string, cols: nat, rows: nat, opens: bool)
    | WindowChange(id: Id, cols: nat, rows: nat)
    | Signal(id: Id, known: bool, room: bool)
    | ShellRequest(id: Id, spawns: bool)
    | ExecRequest(id: Id, spawns: bool)
    | Subsystem(id: Id, name: string, resolves: bool)
    | Close(id: Id)
    | BridgeEnds(id: Id)

  /** The handler's four maps: channels nothing has run on, their granted ptys, and for the bridges of
      running programs the size last sent and whether signals are routed. */
  datatype State = State(channels: set<Id>, ptys: map<Id, PtyReq>, resizes: map<Id, Size>,
                         signals: set<Id>)

  const FRESH := State({}, map[], map[], {})

  datatype Outcome = Outcome(state: State, replies: seq<Reply>, starts: seq<Start>)

  function Clamped(rows: nat, cols: nat): Size {
    Size(if rows < U16_MAX then rows else U16_MAX, if cols < U16_MAX then cols else U16_MAX)
  }

  /** A program with a bridge: `running` are the channels whose bridges have not ended. */
  function Started(s: State, running: set<Id>, id: Id, program: Program): Outcome {
    var pty := if id in s.ptys then Some(s.ptys[id]) else None;
    var signals := (set c <- s.signals | c in running) + {id};
    Outcome(State(s.channels - {id}, s.ptys - {id},
                  if pty.Some? then s.resizes[id := pty.value.size] else s.resizes, signals),
            [Success(id)], [Start(id, program, pty)])
  }

  function Refused(s: State, id: Id): Outcome {
    Outcome(s, [Failure(id)], [])
  }

  /** A channel that ran nothing after all: it cannot be asked again. */
  function Spent(s: State, id: Id): Outcome {
    Refused(s.(channels := s.channels - {id}, ptys := s.ptys - {id}), id)
  }

  function Handled(s: State, running: set<Id>, r: Request): Outcome {
    match r
    case OpenSession(id) => Outcome(s.(channels := s.channels + {id}), [], [])
    case Pty(id, term, cols, rows, opens) =>
      if id !in s.channels || id in s.ptys || |s.ptys| >= MAX_PENDING_PTYS || !opens then Refused(s, id)
      else
        var pty := PtyReq(if term == "" then None else Some(term), Clamped(rows, cols));
        Outcome(s.(ptys := s.ptys[id := pty]), [Success(id)], [])
    case WindowChange(id, cols, rows) =>
      var size := Clamped(rows, cols);
      if id in s.ptys then Outcome(s.(ptys := s.ptys[id := s.ptys[id].(size := size)]), [], [])
      else if id !in s.resizes then Outcome(s, [], [])
      else Outcome(s.(resizes := if id in running then s.resizes[id := size] else s.resizes - {id}), [], [])
    case Signal(id, known, room) =>
      if !known || id !in s.signals then Refused(s, id)
      else if id !in running then Refused(s.(signals := s.signals - {id}), id)
      else Outcome(s, [if room then Success(id) else Failure(id)], [])
    case ShellRequest(id, spawns) =>
      if id !in s.channels then Refused(s, id)
      else if spawns then Started(s, running, id, Shell)
      else Spent(s, id)
    case ExecRequest(id, spawns) =>
      if id !in s.channels then Refused(s, id)
      else if spawns then Started(s, running, id, Command)
      else Spent(s, id)
    case Subsystem(id, name, resolves) =>
      if id !in s.channels then Refused(s, id)
      else if name == "sftp" && resolves then
        Outcome(s.(channels := s.channels - {id}, ptys := s.ptys - {id}), [Success(id)],
                [Start(id, Sftp, None)])
      else Spent(s, id)
    case Close(id) =>
      Outcome(State(s.channels - {id}, s.ptys - {id}, s.resizes - {id}, s.signals - {id}), [], [])
    case BridgeEnds(_) => Outcome(s, [], [])
  }

  class ServerHandler {
    var channels: set<Id>
    var ptys: map<Id, PtyReq>
    var resizes: map<Id, Size>
    var signals: set<Id>
    var replies: seq<Reply>
    var starts: seq<Start>

    function Abstract(): State
      reads this
    {
      State(channels, ptys, resizes, signals)
    }

    /** What a request did to the handler and sent to the client. */
    twostate predicate Did(outcome: Outcome)
      reads this
    {
      && Abstract() == outcome.state
      && replies == old(replies) + outcome.replies
      && starts == old(starts) + outcome.starts
    }

    constructor ()
      ensures Abstract() == FRESH && replies == [] && starts == []
    {
      channels, ptys, resizes, signals, replies, starts := {}, map[], map[], {}, [], [];
    }

    method SignalsFor(running: set<Id>, id: Id)
      modifies `signals
      ensures signals == (set c <- old(signals) | c in running) + {id}
    {
      signals := set c <- signals | c in running;
      signals := signals + {id};
    }

    method ChannelOpenSession(id: Id)
      modifies this
      ensures Did(Handled(old(Abstract()), {}, OpenSession(id)))
    {
      channels := channels + {id};
    }

    method PtyRequest(id: Id, term: string, cols: nat, rows: nat, opens: bool)
      modifies this
      ensures Did(Handled(old(Abstract()), {}, Pty(id, term, cols, rows, opens)))
    {
      if id !in channels || id in ptys || |ptys| >= MAX_PENDING_PTYS {
        replies := replies + [Failure(id)];
        return;
      }
      if opens {
        ptys := ptys[id := PtyReq(if term == "" then None else Some(term), Clamped(rows, cols))];
        replies := replies + [Success(id)];
      } else {
        replies := replies + [Failure(id)];
      }
    }

    method WindowChangeRequest(running: set<Id>, id: Id, cols: nat, rows: nat)
      modifies this
      ensures Did(Handled(old(Abstract()), running, WindowChange(id, cols, rows)))
    {
      var size := Clamped(rows, cols);
      if id in ptys {
        ptys := ptys[id := ptys[id].(size := size)];
        return;
      }
      if id in resizes {
        if id in running {
          resizes := resizes[id := size];
        } else {
          resizes := resizes - {id};
        }
      }
    }

    method SignalRequest(running: set<Id>, id: Id, known: bool, room: bool)
      modifies this
      ensures Did(Handled(old(Abstract()), running, Signal(id, known, room)))
    {
      if !known || id !in signals {
        replies := replies + [Failure(id)];
        return;
      }
      if id !in running {
        signals := signals - {id};
        replies := replies + [Failure(id)];
      } else if room {
        replies := replies + [Success(id)];
      } else {
        replies := replies + [Failure(id)];
      }
    }

    /** The login shell, or a command through it: on the channel's pty if it has one. */
    method Run(running: set<Id>, id: Id, program: Program, spawns: bool)
      requires program != Sftp
      modifies this
      ensures Did(Handled(old(Abstract()), running,
                          if program == Shell then ShellRequest(id, spawns) else ExecRequest(id, spawns)))
    {
      if id !in channels {
        replies := replies + [Failure(id)];
        return;
      }
      channels := channels - {id};
      var pty := None;
      if id in ptys {
        pty := Some(ptys[id]);
        ptys := ptys - {id};
      }
      if spawns {
        if pty.Some? {
          resizes := resizes[id := pty.value.size];
        }
        SignalsFor(running, id);
        replies := replies + [Success(id)];
        starts := starts + [Start(id, program, pty)];
      } else {
        replies := replies + [Failure(id)];
      }
    }

    method SubsystemRequest(id: Id, name: string, resolves: bool)
      modifies this
      ensures Did(Handled(old(Abstract()), {}, Subsystem(id, name, resolves)))
    {
      if id !in channels {
        replies := replies + [Failure(id)];
        return;
      }
      channels := channels - {id};
      ptys := ptys - {id};
      if name != "sftp" || !resolves {
        replies := replies + [Failure(id)];
      } else {
        replies := replies + [Success(id)];
        starts := starts + [Start(id, Sftp, None)];
      }
    }

    method ChannelClose(id: Id)
      modifies this
      ensures Did(Handled(old(Abstract()), {}, Close(id)))
    {
      channels := channels - {id};
      ptys := ptys - {id};
      resizes := resizes - {id};
      signals := signals - {id};
    }
  }
}
