/** Constants and data of the supervision wrapper: the module-level variables
    of server.js, the pending timers, the events the environment delivers and
    the effects the wrapper asks of the operating system. */
module SupervisorTypes {

  /** Timing constants, in milliseconds. */
  const HOURLY_RESTART_MS: nat := 60 * 60 * 1000
  const RESTART_DELAY_MS: nat := 5000
  const MAX_BACKOFF_MS: nat := 60 * 1000
  /** Delay of the forced kill that follows an hourly SIGTERM. */
  const GRACE_KILL_MS: nat := 8000
  /** Delay of the exit armed by a forwarded termination signal. */
  const SIGNAL_EXIT_MS: nat := 3000
  /** Delay of the exit armed by an uncaught exception. */
  const FAULT_EXIT_MS: nat := 2000

  datatype Option<T> = None | Some(value: T)

  function Min(a: nat, b: nat): nat
  {
    if a <= b then a else b
  }

  /** Signals the wrapper sends to its child. */
  datatype Signal = SIGINT | SIGTERM | SIGHUP | SIGKILL

  /** The three signals the wrapper subscribes to for itself. */
  datatype Termination = Interrupt | Terminate | HangUp {
    function AsSignal(): Signal
    {
      match this
      case Interrupt => SIGINT
      case Terminate => SIGTERM
      case HangUp => SIGHUP
    }
  }

  /** What became of one `bot.kill(sig)` call: the signal reached the child
      (Node then sets `killed`), it did not (the child was gone), or `kill`
      threw. */
  datatype KillOutcome = Delivered | NotDelivered | Threw

  /** Result of the startup existence check of the application file; the
      check itself may throw. */
  datatype FileCheck = Present | Absent | CheckThrew

  /** One spawned child: whether a signal was delivered to it and whether its
      `close` event has been observed. */
  datatype Child = Child(killed: bool, closed: bool)

  /** The one-shot timers the wrapper arms. */
  datatype TimerKind = RestartTimer | GraceTimer | ExitTimer(code: int)
  datatype Timer = Timer(kind: TimerKind, ms: nat)

  /** Loading: the script has not run `start` yet. Exited: `process.exit`
      was called; nothing happens afterwards. */
  datatype Phase = Loading | Running | Exited(code: int)

  /** The wrapper's state. `children` lists every child ever spawned, in
      spawn order; `bot` is the index of the child the module variable `bot`
      refers to; `hourly` says whether `hourlyTimer` holds an interval;
      `timers` holds the pending one-shot timers. */
  datatype State = State(
    phase: Phase,
    children: seq<Child>,
    bot: Option<nat>,
    hourly: bool,
    backoff: nat,
    timers: multiset<Timer>)

  /** The environment's choices: which callback runs next, and with what
      outcome for the kills it performs. A timer event names the timer
      that fires. */
  datatype Event =
    | Start(check: FileCheck)
    | ChildClose(child: nat)
    | ChildError(child: nat)
    | RestartFire(delay: nat)
    | HourlyTick(outcome: KillOutcome)
    | GraceFire(delay: nat, outcome: KillOutcome)
    | SignalReceived(sig: Termination, outcome: KillOutcome)
    | UncaughtException(outcome: KillOutcome)
    | UnhandledRejection
    | ExitFire(code: int, delay: nat)

  /** Effects on the operating system, in the order they are issued. */
  datatype Action =
    | Spawn(child: nat)
    | Kill(child: nat, sig: Signal)
    | Arm(timer: Timer)
    | ArmInterval(ms: nat)
    | ClearInterval
    | Subscribe
    | Exit(code: int)

  datatype Transition = Transition(next: State, actions: seq<Action>)

  /** The module-level variables as the script declares them. */
  const Initial: State := State(Loading, [], None, false, RESTART_DELAY_MS, multiset{})

  /** The `bot` reference always denotes a spawned child. */
  predicate WellFormed(s: State)
  {
    s.bot.Some? ==> s.bot.value < |s.children|
  }
}
