/** PID 1's shutdown protocol as interleaved steps.

    Signal handlers, the stop worker and the supervising thread share the atomics below, a wake pipe
    and an alarm. A thread is a stack of frames: its own code at the bottom, signal handlers on top.
    Only the top frame of a thread moves, and each move is one access to shared state. */
module ShutdownModel {
  import opened Wrappers

  datatype Action = PowerOff | Restart

  datatype Machine = Up | Ended(action: Action)

  /** SIGINT, SIGALRM, SIGTERM, and the power-off and reboot requests. */
  datatype Signal = Int | Alrm | Term | Off | Again

  datatype Service = Absent | Running | Zombie | Reaped

  /** What the supervising thread is waiting for: its service; the stop worker, once that service
      has exited and the worker owns the ending; or the exec server of a boot without a service. */
  datatype Waiting = Serving | Deferred | AgentOnly

  /** Where a frame is. */
  datatype Pc =
    // the supervising thread; `gate` is true while ports are awaited and no stop worker exists
    | Gate
    | StartWorker
    | Wait(what: Waiting)
    | ClearPid(gate: bool)
    | ReadStop(gate: bool)
    | ReadStopping(gate: bool)
    | Defer(gate: bool)
    // the stop worker
    | ReadPipe
    | Grace
    | Done
    // any other thread
    | Idle
    // request handlers
    | StorePoweroff
    | StoreReboot
    | SwapStop
    | LoadWake
    | WriteWake
    // stop_service
    | StoreStopping
    | LoadPid
    | Kill
    | Arm
    // poweroff
    | Mask
    | SwapEnding
    | Parked
    | Flush
    | LoadReboot
    | LoadPoweroff
    | End(action: Action)
    | Gone

  /** Who has taken on the first stop request: the handler frame that won it, the pipe, the worker,
      the frame running `stop_service`, or nobody any more. */
  datatype Owner = Nobody | Held(t: nat, i: nat) | InPipe | Worker | Stopping(t: nat, i: nat) | Spent

  /** `REBOOT_REQUESTED`, `POWEROFF_REQUESTED` and `ENDING`, with the machine they end. For the
      proofs: the thread that won `ENDING`, and how often `end_machine` was called. */
  datatype Power = Power(rebootRequested: bool, poweroffRequested: bool, ending: bool,
                         machine: Machine, winner: Option<nat>, ends: nat)

  /** `STOP_REQUESTED`, `SERVICE_STOPPING`, `STOP_WAKE` (whether it holds a descriptor) and the bytes
      in the pipe. For the proofs: who has the request, whether `stop_service` saw a live service, how
      often it ran, and when the workloads' grace began. */
  datatype Stop = Stop(requested: bool, stopping: bool, wake: bool, pipe: nat,
                       owner: Owner, sawLive: bool, runs: nat, graceStart: nat)

  /** `SERVICE_PID` (whether it holds one) and the service process. For the proofs: whether its exit
      was left to the stop worker, and when; and whether it was sent SIGTERM. */
  datatype Svc = Svc(pid: bool, process: Service, deferred: bool, deferredAt: nat, told: bool)

  datatype Shared = Shared(power: Power, stop: Stop, svc: Svc, alarm: Option<nat>, now: nat)

  datatype Frame = Frame(sig: Option<Signal>, pc: Pc)

  datatype Thread = Thread(frames: seq<Frame>, masked: bool)

  datatype State = State(g: Shared, threads: seq<Thread>)

  const TERM_GRACE: nat := 10
  const BACKSTOP: nat := 15
  const SERVICE_STOP_GRACE: nat := 20

  function Entry(sig: Signal): Pc {
    match sig
    case Int => Mask
    case Alrm => Mask
    case Term => StoreReboot
    case Off => StorePoweroff
    case Again => StoreReboot
  }

  /** What a frame's step depends on besides shared state: the service being reaped, the ports being
      open, no child being left (or the exec server's exit), the end of the grace. */
  datatype How = Plain | Reap | Open | Quit | Leave

  datatype Move = Goto(pc: Pc) | Return

  predicate Steps(g: Shared, pc: Pc, how: How) {
    match how
    case Reap => (pc == Gate || pc == Wait(Serving)) && g.svc.process == Zombie
    case Open => pc == Gate
    case Quit => pc == Wait(AgentOnly) || (pc == Wait(Serving) && g.svc.process == Reaped)
    case Leave => pc == Grace
    case Plain =>
      match pc
      case Gate | StartWorker | Wait(_) | Grace | Done | Idle | Parked | Gone => false
      case ReadPipe => g.stop.pipe > 0
      case _ => true
  }

  /** One step of frame `i` of thread `t`, at `pc`. */
  function Effect(g: Shared, t: nat, i: nat, pc: Pc, how: How): (Shared, Move)
    requires Steps(g, pc, how)
  {
    var (power, stop, svc) := (g.power, g.stop, g.svc);
    match pc
    case Gate =>
      if how == Reap then (g.(svc := svc.(process := Reaped)), Goto(ClearPid(true)))
      else (g, Goto(StartWorker))
    case Wait(_) =>
      if how == Reap then (g.(svc := svc.(process := Reaped)), Goto(ClearPid(false)))
      else (g, Goto(Mask))
    case ClearPid(gate) => (g.(svc := svc.(pid := false)), Goto(ReadStop(gate)))
    case ReadStop(gate) => (g, Goto(if stop.requested then ReadStopping(gate) else Mask))
    case ReadStopping(gate) => (g, Goto(if stop.stopping then Mask else Defer(gate)))
    case Defer(gate) =>
      (g.(alarm := Some(g.now + BACKSTOP), svc := svc.(deferred := !gate, deferredAt := g.now)),
       Goto(if gate then Gate else Wait(Deferred)))
    case ReadPipe =>
      (g.(stop := stop.(pipe := stop.pipe - 1, owner := Worker, graceStart := g.now)), Goto(Grace))
    case Grace => (g, Goto(StoreStopping))
    case StorePoweroff => (g.(power := power.(poweroffRequested := true)), Goto(SwapStop))
    case StoreReboot => (g.(power := power.(rebootRequested := true)), Goto(SwapStop))
    case SwapStop =>
      if stop.requested then (g, Return)
      else (g.(stop := stop.(requested := true, owner := Held(t, i))), Goto(LoadWake))
    case LoadWake => (g, Goto(if stop.wake then WriteWake else StoreStopping))
    case WriteWake => (g.(stop := stop.(pipe := stop.pipe + 1, owner := InPipe)), Return)
    case StoreStopping =>
      (g.(stop := stop.(stopping := true, owner := Stopping(t, i), runs := stop.runs + 1)),
       Goto(LoadPid))
    case LoadPid =>
      if svc.pid then (g.(stop := stop.(sawLive := true)), Goto(Kill))
      else (g.(stop := stop.(owner := Spent)), Goto(Mask))
    case Kill => (g.(svc := svc.(told := true)), Goto(Arm))
    case Arm =>
      (g.(alarm := Some(g.now + SERVICE_STOP_GRACE), stop := stop.(owner := Spent)),
       if i == 0 then Goto(Done) else Return)
    case Mask => (g, Goto(SwapEnding))
    case SwapEnding =>
      if power.ending then (g, Goto(Parked))
      else (g.(power := power.(ending := true, winner := Some(t))), Goto(Flush))
    case Flush => (g, Goto(LoadReboot))
    case LoadReboot => (g, Goto(if power.rebootRequested then LoadPoweroff else End(PowerOff)))
    case LoadPoweroff => (g, Goto(End(if power.poweroffRequested then PowerOff else Restart)))
    case End(action) =>
      (g.(power := power.(machine := Ended(action), ends := power.ends + 1)), Goto(Gone))
  }

  datatype Event =
    | Run(t: nat, how: How)
    | Publish
    | Deliver(t: nat, sig: Signal)
    | ServiceExits
    | Tick
    | Spawn

  function Top(th: Thread): Frame
    requires th.frames != []
  {
    th.frames[|th.frames| - 1]
  }

  predicate Stacked(s: State) {
    s.threads != [] && forall th <- s.threads :: th.frames != []
  }

  /** Whether `sig` can interrupt thread `th`: not while the thread blocks it, its own handler runs,
      or the thread has ended. */
  predicate Interruptible(th: Thread, sig: Signal)
    requires th.frames != []
  {
    !th.masked && Top(th).pc != Done && forall f <- th.frames :: f.sig != Some(sig)
  }

  predicate Enabled(s: State, e: Event)
    requires Stacked(s)
  {
    match e
    case Run(t, how) => t < |s.threads| && Steps(s.g, Top(s.threads[t]).pc, how)
    case Publish => Top(s.threads[0]).pc == StartWorker
    case Deliver(t, sig) =>
      && t < |s.threads| && Interruptible(s.threads[t], sig)
      && (sig == Alrm ==> s.g.alarm.Some? && s.g.alarm.value <= s.g.now)
    case ServiceExits => s.g.svc.process == Running
    case Tick => true
    case Spawn => s.g.stop.wake
  }

  function SetTop(th: Thread, pc: Pc): Thread
    requires th.frames != []
  {
    var n := |th.frames| - 1;
    Thread(th.frames[n := th.frames[n].(pc := pc)], th.masked || th.frames[n].pc == Mask)
  }

  function Moved(th: Thread, move: Move): Thread
    requires th.frames != []
  {
    match move
    case Goto(pc) => SetTop(th, pc)
    case Return => Thread(th.frames[..|th.frames| - 1], th.masked)
  }

  function Next(s: State, e: Event): State
    requires Stacked(s) && Enabled(s, e)
  {
    match e
    case Run(t, how) =>
      var th := s.threads[t];
      var (g, move) := Effect(s.g, t, |th.frames| - 1, Top(th).pc, how);
      State(g, s.threads[t := Moved(th, move)])
    case Publish =>
      State(s.g.(stop := s.g.stop.(wake := true)),
            s.threads[0 := SetTop(s.threads[0], Wait(Serving))]
            + [Thread([Frame(None, ReadPipe)], false)])
    case Deliver(t, sig) =>
      var th := s.threads[t];
      State(if sig == Alrm then s.g.(alarm := None) else s.g,
            s.threads[t := th.(frames := th.frames + [Frame(Some(sig), Entry(sig))])])
    case ServiceExits => s.(g := s.g.(svc := s.g.svc.(process := Zombie)))
    case Tick => s.(g := s.g.(now := s.g.now + 1))
    case Spawn => s.(threads := s.threads + [Thread([Frame(None, Idle)], false)])
  }

  const QUIET := Shared(
    Power(false, false, false, Up, None, 0),
    Stop(false, false, false, 0, Nobody, false, 0, 0),
    Svc(true, Running, false, 0, false), None, 0)

  const AGENT_ONLY := Shared(
    Power(false, false, false, Up, None, 0),
    Stop(false, false, true, 0, Nobody, false, 0, 0),
    Svc(false, Absent, false, 0, false), None, 0)

  /** A service boot once the handlers are installed: the service runs, its ports are awaited and no
      stop worker exists. A boot without a service has the worker from the start. */
  predicate Init(s: State) {
    || s == State(QUIET, [Thread([Frame(None, Gate)], false)])
    || s == State(AGENT_ONLY, [Thread([Frame(None, Wait(AgentOnly))], false),
                               Thread([Frame(None, ReadPipe)], false)])
  }
}
