/** The callbacks of server.js as pure transitions over the wrapper's state.
    Each handler returns the next state and the effects it issued; `Step`
    dispatches one event to the handler Node would run for it. */
module Supervisor {
  import opened SupervisorTypes

  /** `spawnBot`: start a fresh child, make it the current one, and reset
      the backoff, whatever its value was. */
  function SpawnBot(s: State): (t: Transition)
    ensures t.next.backoff == RESTART_DELAY_MS
    ensures t.actions == [Spawn(|s.children|)]
    ensures t.next.children == s.children + [Child(false, false)]
    ensures t.next.bot == Some(|s.children|)
    ensures t.next.timers == s.timers && t.next.hourly == s.hourly && t.next.phase == s.phase
  {
    var id := |s.children|;
    Transition(
      s.(children := s.children + [Child(false, false)], bot := Some(id), backoff := RESTART_DELAY_MS),
      [Spawn(id)])
  }

  /** `scheduleRestart`: arm one restart timer whose delay is the backoff
      clamped to the ceiling. */
  function ScheduleRestart(s: State): (t: Transition)
    ensures exists d: nat :: d <= MAX_BACKOFF_MS && d <= s.backoff
                            && (d == s.backoff || d == MAX_BACKOFF_MS)
                            && t.actions == [Arm(Timer(RestartTimer, d))]
                            && t.next == s.(timers := s.timers + multiset{Timer(RestartTimer, d)})
  {
    var delay := Min(s.backoff, MAX_BACKOFF_MS);
    var timer := Timer(RestartTimer, delay);
    Transition(s.(timers := s.timers + multiset{timer}), [Arm(timer)])
  }

  /** `startHourlyRestart`: clear the interval held in `hourlyTimer`, if
      any, then arm a new one. */
  function StartHourlyRestart(s: State): (t: Transition)
    ensures t.next == s.(hourly := true)
    ensures s.hourly ==> t.actions == [ClearInterval, ArmInterval(HOURLY_RESTART_MS)]
    ensures !s.hourly ==> t.actions == [ArmInterval(HOURLY_RESTART_MS)]
    ensures ClearInterval in t.actions <==> s.hourly
  {
    var clear := if s.hourly then [ClearInterval] else [];
    Transition(s.(hourly := true), clear + [ArmInterval(HOURLY_RESTART_MS)])
  }

  /** `if (bot) bot.kill(sig)`: signal the current child, if there is one.
      A delivered signal marks the child as killed. A throwing `kill` is
      caught by every caller, so it changes nothing here. */
  function KillCurrent(s: State, sig: Signal, outcome: KillOutcome): (t: Transition)
    requires WellFormed(s)
    // The first two ensures follow from the last one and the `None` case;
    // they are kept as shorthand for callers.
    ensures WellFormed(t.next)
    ensures t.next.bot == s.bot && t.next.timers == s.timers && |t.next.children| == |s.children|
    ensures forall i | 0 <= i < |s.children| :: t.next.children[i].closed == s.children[i].closed
    ensures s.bot.None? ==> t == Transition(s, [])
    ensures s.bot.Some? ==> t.actions == [Kill(s.bot.value, sig)]
    ensures s.bot.Some? ==> t.next.children[s.bot.value].killed
                              == (s.children[s.bot.value].killed || outcome == Delivered)
    ensures s.bot.Some? ==> t.next == s.(children := s.children[s.bot.value := t.next.children[s.bot.value]])
  {
    match s.bot
    case None => Transition(s, [])
    case Some(i) =>
      var c := s.children[i];
      var c' := if outcome == Delivered then c.(killed := true) else c;
      Transition(s.(children := s.children[i := c']), [Kill(i, sig)])
  }

  /** Appends one armed one-shot timer to a transition. */
  function ThenArm(t: Transition, timer: Timer): (r: Transition)
    ensures r.next.timers == t.next.timers + multiset{timer}
    ensures r.actions == t.actions + [Arm(timer)]
  {
    Transition(t.next.(timers := t.next.timers + multiset{timer}), t.actions + [Arm(timer)])
  }

  /** The `close` listener of child `id`: it marks the child closed and
      schedules a restart. It leaves `bot` as it is. */
  function OnClose(s: State, id: nat): (t: Transition)
    requires id < |s.children|
    ensures t.next.children == s.children[id := Child(s.children[id].killed, true)]
    ensures t.next.bot == s.bot && t.next.backoff == s.backoff
    ensures t.next.phase == s.phase && t.next.hourly == s.hourly
    ensures |t.actions| == 1 && t.actions[0].Arm? && t.actions[0].timer.kind == RestartTimer
    ensures t.next.timers == s.timers + multiset{t.actions[0].timer}
    ensures t.actions[0].timer.ms <= MAX_BACKOFF_MS
    ensures s.backoff <= MAX_BACKOFF_MS ==> t.actions[0].timer.ms == s.backoff
    ensures s.backoff > MAX_BACKOFF_MS ==> t.actions[0].timer.ms == MAX_BACKOFF_MS
  {
    ScheduleRestart(s.(children := s.children[id := s.children[id].(closed := true)]))
  }

  /** The restart timer's callback: consume the timer, double the backoff
      up to the ceiling, then spawn (which resets the backoff). */
  function OnRestartTimer(s: State, delay: nat): (t: Transition)
    ensures t.actions == [Spawn(|s.children|)]
    ensures t.next.backoff == RESTART_DELAY_MS
    ensures t.next.children == s.children + [Child(false, false)] && t.next.bot == Some(|s.children|)
    ensures t.next.timers == s.timers - multiset{Timer(RestartTimer, delay)}
    ensures t.next.phase == s.phase && t.next.hourly == s.hourly
  {
    var doubled := Min(s.backoff * 2, MAX_BACKOFF_MS);
    SpawnBot(s.(timers := s.timers - multiset{Timer(RestartTimer, delay)}, backoff := doubled))
  }

  /** The hourly interval's callback: SIGTERM the current child and arm the
      grace timer. If `kill` throws, the grace timer is not armed. */
  function OnHourlyTick(s: State, outcome: KillOutcome): (t: Transition)
    requires WellFormed(s)
    ensures s.bot.None? ==> t == Transition(s, [])
    ensures s.bot.Some? ==> 1 <= |t.actions| <= 2 && t.actions[0] == Kill(s.bot.value, SIGTERM)
    ensures s.bot.Some? ==> (Arm(Timer(GraceTimer, GRACE_KILL_MS)) in t.actions <==> outcome != Threw)
    ensures |t.next.children| == |s.children|
    ensures s.bot.Some? ==> t.next.children[s.bot.value].killed
                              == (s.children[s.bot.value].killed || outcome == Delivered)
    ensures t.next.bot == s.bot && t.next.backoff == s.backoff
    ensures t.next.phase == s.phase && t.next.hourly == s.hourly
    ensures s.bot.Some? ==> t.actions == [Kill(s.bot.value, SIGTERM)]
                                         + (if outcome == Threw then [] else [Arm(Timer(GraceTimer, GRACE_KILL_MS))])
    ensures s.bot.Some? ==>
              var c := s.children[s.bot.value];
              t.next == s.(children := s.children[s.bot.value := c.(killed := c.killed || outcome == Delivered)],
                           timers := s.timers + (if outcome == Threw then multiset{} else multiset{Timer(GraceTimer, GRACE_KILL_MS)}))
  {
    match s.bot
    case None => Transition(s, [])
    case Some(_) =>
      var k := KillCurrent(s, SIGTERM, outcome);
      if outcome == Threw then k else ThenArm(k, Timer(GraceTimer, GRACE_KILL_MS))
  }

  /** The grace timer's callback: SIGKILL whichever child is current when
      it fires, unless that child is already marked killed. */
  function OnGraceTimer(s: State, delay: nat, outcome: KillOutcome): (t: Transition)
    requires WellFormed(s)
    ensures t.actions != [] <==> s.bot.Some? && !s.children[s.bot.value].killed
    ensures s.bot.Some? && t.actions != [] ==> t.actions == [Kill(s.bot.value, SIGKILL)]
    ensures t.next.timers == s.timers - multiset{Timer(GraceTimer, delay)}
    ensures t.next.children == (if t.actions == [] then s.children
                                else s.children[s.bot.value := s.children[s.bot.value].(killed := outcome == Delivered)])
    ensures t.next.bot == s.bot && t.next.backoff == s.backoff
    ensures t.next.phase == s.phase && t.next.hourly == s.hourly
  {
    var s' := s.(timers := s.timers - multiset{Timer(GraceTimer, delay)});
    if s'.bot.Some? && !s'.children[s'.bot.value].killed then KillCurrent(s', SIGKILL, outcome)
    else Transition(s', [])
  }

  /** The SIGINT/SIGTERM/SIGHUP handler: forward the same signal, then arm
      an exit with status 0. Pending restarts are left alone. */
  function OnSignal(s: State, sig: Termination, outcome: KillOutcome): (t: Transition)
    requires WellFormed(s)
    ensures s.bot.None? ==> t.actions == [Arm(Timer(ExitTimer(0), SIGNAL_EXIT_MS))]
    ensures s.bot.Some? ==> t.actions == [Kill(s.bot.value, sig.AsSignal()), Arm(Timer(ExitTimer(0), SIGNAL_EXIT_MS))]
    ensures t.next.timers == s.timers + multiset{Timer(ExitTimer(0), SIGNAL_EXIT_MS)}
    ensures t.next.children == (if s.bot.None? then s.children
                                else var c := s.children[s.bot.value];
                                     s.children[s.bot.value := c.(killed := c.killed || outcome == Delivered)])
    ensures t.next.phase == s.phase && t.next.bot == s.bot
    ensures t.next.backoff == s.backoff && t.next.hourly == s.hourly
  {
    ThenArm(KillCurrent(s, sig.AsSignal(), outcome), Timer(ExitTimer(0), SIGNAL_EXIT_MS))
  }

  /** The `uncaughtException` handler: SIGTERM the child, then arm an exit
      with status 1. */
  function OnUncaught(s: State, outcome: KillOutcome): (t: Transition)
    requires WellFormed(s)
    ensures s.bot.None? ==> t.actions == [Arm(Timer(ExitTimer(1), FAULT_EXIT_MS))]
    ensures s.bot.Some? ==> t.actions == [Kill(s.bot.value, SIGTERM), Arm(Timer(ExitTimer(1), FAULT_EXIT_MS))]
    ensures t.next.timers == s.timers + multiset{Timer(ExitTimer(1), FAULT_EXIT_MS)}
    ensures t.next.children == (if s.bot.None? then s.children
                                else var c := s.children[s.bot.value];
                                     s.children[s.bot.value := c.(killed := c.killed || outcome == Delivered)])
    ensures t.next.phase == s.phase && t.next.bot == s.bot
    ensures t.next.backoff == s.backoff && t.next.hourly == s.hourly
  {
    ThenArm(KillCurrent(s, SIGTERM, outcome), Timer(ExitTimer(1), FAULT_EXIT_MS))
  }

  /** An exit timer's callback: `process.exit(code)`. */
  function OnExitTimer(s: State, code: int, delay: nat): (t: Transition)
    ensures t.actions == [Exit(code)] && t.next.phase == Exited(code)
    ensures forall e :: !Enabled(t.next, e)
    ensures t.next.children == s.children && t.next.bot == s.bot
  {
    Transition(
      s.(phase := Exited(code), timers := s.timers - multiset{Timer(ExitTimer(code), delay)}),
      [Exit(code)])
  }

  /** `start`: exit with status 1 when the application file is absent;
      otherwise (also when the check throws) subscribe the handlers, spawn
      the first child and start the hourly interval. */
  function OnStart(s: State, check: FileCheck): (t: Transition)
    ensures check == Absent ==> t == Transition(s.(phase := Exited(1)), [Exit(1)])
    ensures check != Absent ==> t.actions == [Subscribe, Spawn(|s.children|)]
                                             + (if s.hourly then [ClearInterval] else [])
                                             + [ArmInterval(HOURLY_RESTART_MS)]
    ensures check != Absent ==> t.next.phase == Running && t.next.hourly
                                && t.next.bot == Some(|s.children|) && t.next.backoff == RESTART_DELAY_MS
                                && t.next.timers == s.timers
                                && t.next.children == s.children + [Child(false, false)]
  {
    if check == Absent then Transition(s.(phase := Exited(1)), [Exit(1)])
    else
      var spawned := SpawnBot(s.(phase := Running));
      var hourly := StartHourlyRestart(spawned.next);
      Transition(hourly.next, [Subscribe] + spawned.actions + hourly.actions)
  }

  /** Whether the environment can deliver `e` in state `s`: `start` runs
      once, on load; a child closes once; a timer fires only while it is
      pending; the interval ticks only while it is armed; after
      `process.exit` nothing runs. */
  predicate Enabled(s: State, e: Event)
  {
    match s.phase
    case Exited(_) => false
    case Loading => e.Start?
    case Running =>
      match e
      case Start(_) => false
      case ChildClose(id) => id < |s.children| && !s.children[id].closed
      case ChildError(id) => id < |s.children|
      case RestartFire(d) => Timer(RestartTimer, d) in s.timers
      case HourlyTick(_) => s.hourly
      case GraceFire(d, _) => Timer(GraceTimer, d) in s.timers
      case SignalReceived(_, _) => true
      case UncaughtException(_) => true
      case UnhandledRejection => true
      case ExitFire(code, d) => Timer(ExitTimer(code), d) in s.timers
  }

  /** One event. An event that cannot be delivered in `s` changes nothing,
      and only `start` touches the hourly interval. */
  function Step(s: State, e: Event): (t: Transition)
    requires WellFormed(s)
    ensures WellFormed(t.next)
    ensures !Enabled(s, e) ==> t == Transition(s, [])
    ensures |s.children| <= |t.next.children| <= |s.children| + 1
    ensures !e.Start? ==> t.next.hourly == s.hourly
    ensures !e.Start? ==> forall i | 0 <= i < |t.actions| :: !t.actions[i].ArmInterval? && !t.actions[i].ClearInterval?
  {
    if !Enabled(s, e) then Transition(s, [])
    else
      match e
      case Start(check) => OnStart(s, check)
      case ChildClose(id) => OnClose(s, id)
      case ChildError(_) => Transition(s, [])
      case RestartFire(d) => OnRestartTimer(s, d)
      case HourlyTick(o) => OnHourlyTick(s, o)
      case GraceFire(d, o) => OnGraceTimer(s, d, o)
      case SignalReceived(sig, o) => OnSignal(s, sig, o)
      case UncaughtException(o) => OnUncaught(s, o)
      case UnhandledRejection => Transition(s, [])
      case ExitFire(code, d) => OnExitTimer(s, code, d)
  }

  /** A sequence of events, one after the other, with all effects in order:
      the run of all but the last event, followed by the last event's step. */
  function Run(s: State, events: seq<Event>): (t: Transition)
    requires WellFormed(s)
    ensures WellFormed(t.next)
    ensures |s.children| <= |t.next.children| <= |s.children| + |events|
    decreases |events|
  {
    if |events| == 0 then Transition(s, [])
    else
      var before := Run(s, events[..|events| - 1]);
      var last := Step(before.next, events[|events| - 1]);
      Transition(last.next, before.actions + last.actions)
  }
}
