/** What holds in every state the wrapper can reach from its initial
    module-level variables, and what each callback does in such a state. */
module SupervisorInvariants {
  import opened SupervisorTypes
  import opened Supervisor

  /** The restart timer as the close listener arms it in every reachable
      state: the backoff there is always the initial delay. */
  const RestartToken: Timer := Timer(RestartTimer, RESTART_DELAY_MS)

  /** Every pending timer carries the delay of the call that armed it. */
  predicate TimerShape(t: Timer)
  {
    match t.kind
    case RestartTimer => t.ms == RESTART_DELAY_MS
    case GraceTimer => t.ms == GRACE_KILL_MS
    case ExitTimer(code) => (code == 0 && t.ms == SIGNAL_EXIT_MS) || (code == 1 && t.ms == FAULT_EXIT_MS)
  }

  /** The current (newest) child has closed. */
  predicate LastClosed(s: State)
  {
    |s.children| > 0 && s.children[|s.children| - 1].closed
  }

  /** The reachable-state invariant:
      - the backoff is always the initial delay;
      - `bot` always refers to the newest child (it is never cleared);
      - every older child has closed;
      - exactly one restart is pending when the current child has closed,
        and none otherwise. */
  predicate Inv(s: State)
  {
    && WellFormed(s)
    && s.backoff == RESTART_DELAY_MS
    && (forall t | t in s.timers :: TimerShape(t))
    && s.bot == (if |s.children| == 0 then None else Some(|s.children| - 1))
    && (forall i | 0 <= i < |s.children| - 1 :: s.children[i].closed)
    && s.timers[RestartToken] == (if LastClosed(s) then 1 else 0)
    && (s.phase.Loading? ==> s.children == [] && s.timers == multiset{} && !s.hourly)
    && (s.phase.Running? ==> |s.children| > 0 && s.hourly)
  }

  lemma InitialInv()
    ensures Inv(Initial)
  {
  }

  /** `start` with the file present (or the check throwing) subscribes,
      spawns child 0 and arms the interval; with the file absent it exits
      with status 1 and does nothing else. */
  lemma StartStep(s: State, check: FileCheck)
    requires Inv(s) && s.phase.Loading?
    ensures var t := Step(s, Start(check));
            && Inv(t.next)
            && (check == Absent ==> t.actions == [Exit(1)] && t.next == s.(phase := Exited(1)))
            && (check != Absent ==> t.actions == [Subscribe, Spawn(0), ArmInterval(HOURLY_RESTART_MS)]
                                    && t.next.phase == Running && t.next.bot == Some(0))
  {
  }

  /** Only the current child can close; its close arms exactly one restart
      timer, with the initial delay, and nothing else. */
  lemma CloseStep(s: State, id: nat)
    requires Inv(s) && Enabled(s, ChildClose(id))
    ensures var t := Step(s, ChildClose(id));
            && Inv(t.next)
            && id == |s.children| - 1
            && !LastClosed(s) && s.timers[RestartToken] == 0
            && t.actions == [Arm(RestartToken)]
            && t.next.timers == s.timers + multiset{RestartToken}
            && t.next.bot == s.bot
  {
    var t := Step(s, ChildClose(id));
    assert t.next.children == s.children[id := s.children[id].(closed := true)];
    assert LastClosed(t.next);
  }

  /** A restart timer fires only after the current child closed; it performs
      exactly one spawn, and the backoff it doubled is reset to the initial
      delay by that spawn. */
  lemma RestartStep(s: State, d: nat)
    requires Inv(s) && Enabled(s, RestartFire(d))
    ensures var t := Step(s, RestartFire(d));
            && Inv(t.next)
            && d == RESTART_DELAY_MS && LastClosed(s)
            && t.actions == [Spawn(|s.children|)]
            && t.next.backoff == RESTART_DELAY_MS
            && t.next.timers == s.timers - multiset{RestartToken}
            && t.next.timers[RestartToken] == 0
  {
    assert TimerShape(Timer(RestartTimer, d));
  }

  /** An hourly tick SIGTERMs the current child and, unless `kill` threw,
      arms one grace timer of 8000 ms. */
  lemma HourlyStep(s: State, o: KillOutcome)
    requires Inv(s) && Enabled(s, HourlyTick(o))
    ensures var t := Step(s, HourlyTick(o));
            var cur := |s.children| - 1;
            && Inv(t.next)
            && t.actions == [Kill(cur, SIGTERM)] + (if o == Threw then [] else [Arm(Timer(GraceTimer, GRACE_KILL_MS))])
            && t.next.timers == s.timers + (if o == Threw then multiset{} else multiset{Timer(GraceTimer, GRACE_KILL_MS)})
            && t.next.children[cur].killed == (s.children[cur].killed || o == Delivered)
  {
  }

  /** The grace timer SIGKILLs the child current when it fires exactly when
      that child is not marked killed. */
  lemma GraceStep(s: State, d: nat, o: KillOutcome)
    requires Inv(s) && Enabled(s, GraceFire(d, o))
    ensures var t := Step(s, GraceFire(d, o));
            var cur := |s.children| - 1;
            && Inv(t.next)
            && d == GRACE_KILL_MS
            && (Kill(cur, SIGKILL) in t.actions <==> !s.children[cur].killed)
            && t.actions == (if s.children[cur].killed then [] else [Kill(cur, SIGKILL)])
            && t.next.timers == s.timers - multiset{Timer(GraceTimer, GRACE_KILL_MS)}
  {
    assert TimerShape(Timer(GraceTimer, d));
  }

  /** SIGINT, SIGTERM and SIGHUP are forwarded to the current child as the
      same signal and arm an exit with status 0 after 3000 ms; a pending
      restart stays pending. */
  lemma SignalStep(s: State, sig: Termination, o: KillOutcome)
    requires Inv(s) && s.phase.Running?
    ensures var t := Step(s, SignalReceived(sig, o));
            && Inv(t.next)
            && t.actions == [Kill(|s.children| - 1, sig.AsSignal()), Arm(Timer(ExitTimer(0), SIGNAL_EXIT_MS))]
            && t.next.timers == s.timers + multiset{Timer(ExitTimer(0), SIGNAL_EXIT_MS)}
            && t.next.timers[RestartToken] == s.timers[RestartToken]
            && t.next.phase == Running
  {
  }

  /** An uncaught exception SIGTERMs the current child and arms an exit with
      status 1 after 2000 ms. */
  lemma UncaughtStep(s: State, o: KillOutcome)
    requires Inv(s) && s.phase.Running?
    ensures var t := Step(s, UncaughtException(o));
            && Inv(t.next)
            && t.actions == [Kill(|s.children| - 1, SIGTERM), Arm(Timer(ExitTimer(1), FAULT_EXIT_MS))]
            && t.next.timers == s.timers + multiset{Timer(ExitTimer(1), FAULT_EXIT_MS)}
            && t.next.phase == Running
  {
  }

  /** An exit timer ends the process with its status: 0 after a forwarded
      signal, 1 after an uncaught exception. */
  lemma ExitStep(s: State, code: int, d: nat)
    requires Inv(s) && Enabled(s, ExitFire(code, d))
    ensures var t := Step(s, ExitFire(code, d));
            && Inv(t.next)
            && t.actions == [Exit(code)] && t.next.phase == Exited(code)
            && ((code == 0 && d == SIGNAL_EXIT_MS) || (code == 1 && d == FAULT_EXIT_MS))
  {
    assert TimerShape(Timer(ExitTimer(code), d));
  }

  /** In any state, an event whose effects include a spawn leaves the
      backoff at exactly the initial delay, whatever it was before. */
  lemma SpawnResetsBackoff(s: State, e: Event, k: nat)
    requires WellFormed(s)
    requires Spawn(k) in Step(s, e).actions
    ensures Step(s, e).next.backoff == RESTART_DELAY_MS
    ensures Step(s, e).next.bot == Some(k) && k == |s.children|
  {
    if Enabled(s, e) && e.Start? && e.check != Absent {
      var spawned := SpawnBot(s.(phase := Running));
      var hourly := StartHourlyRestart(spawned.next);
      assert Step(s, e).actions == [Subscribe] + spawned.actions + hourly.actions;
      assert Spawn(k) !in hourly.actions;
    }
  }

  /** In the reference table a spawn comes only from `start` with the file
      present (child 0) or from a pending restart (the next child). */
  lemma SpawnInEffects(s: State, e: Event, k: nat)
    requires Inv(s) && Spawn(k) in Effects(s, e)
    ensures Enabled(s, e)
    ensures || (e.Start? && e.check != Absent && k == 0
                && Effects(s, e) == [Subscribe, Spawn(0), ArmInterval(HOURLY_RESTART_MS)])
            || (e.RestartFire? && k == |s.children| && Effects(s, e) == [Spawn(k)])
  {
  }

  /** A spawn happens only at startup or after the current child's close
      has been observed; it is the only spawn of its step. */
  lemma SpawnOnlyAfterClose(s: State, e: Event, k: nat)
    requires Inv(s)
    requires Spawn(k) in Step(s, e).actions
    ensures k == |s.children|
    ensures (s.phase.Loading? && k == 0) || (s.phase.Running? && LastClosed(s))
    ensures forall i | 0 <= i < |s.children| :: s.children[i].closed
    ensures Step(s, e).actions == [Spawn(k)] || Step(s, e).actions == [Subscribe, Spawn(0), ArmInterval(HOURLY_RESTART_MS)]
  {
    StepMatchesReference(s, e);
    SpawnInEffects(s, e, k);
    if e.RestartFire? {
      RestartStep(s, e.delay);
    }
  }

  /** At most one child is alive, and while running exactly one of "the
      current child is alive" and "a restart is pending" holds; no second
      restart timer is ever pending. */
  lemma AtMostOneLiveChild(s: State)
    requires Inv(s)
    ensures forall i, j | 0 <= i < j < |s.children| :: s.children[i].closed || s.children[j].closed
    ensures forall d: nat :: s.timers[Timer(RestartTimer, d)] <= 1
    ensures forall t | t in s.timers && t.kind == RestartTimer :: t == RestartToken
    ensures s.phase.Running? ==> (s.timers[RestartToken] == 1 <==> s.children[|s.children| - 1].closed)
  {
    forall d: nat
      ensures s.timers[Timer(RestartTimer, d)] <= 1
    {
      if Timer(RestartTimer, d) in s.timers {
        assert TimerShape(Timer(RestartTimer, d));
      }
    }
    forall t | t in s.timers && t.kind == RestartTimer
      ensures t == RestartToken
    {
      assert TimerShape(t);
    }
  }

  /** A child's `close` listener runs once: a second close of the same
      child does nothing. */
  lemma CloseIsOnce(s: State, id: nat)
    requires WellFormed(s) && id < |s.children| && s.children[id].closed
    ensures Step(s, ChildClose(id)) == Transition(s, [])
  {
  }

  /** A child's `error` event is only logged. */
  lemma ChildErrorIsLogOnly(s: State, id: nat)
    requires WellFormed(s)
    ensures Step(s, ChildError(id)) == Transition(s, [])
  {
  }

  /** An unhandled rejection is only logged. */
  lemma RejectionIsLogOnly(s: State)
    requires WellFormed(s)
    ensures Step(s, UnhandledRejection) == Transition(s, [])
  {
  }

  /** Every timer a step arms has the shape `TimerShape` describes. */
  lemma StepArmsShaped(s: State, e: Event)
    requires Inv(s)
    ensures forall a | a in Step(s, e).actions && a.Arm? :: TimerShape(a.timer)
  {
    StepMatchesReference(s, e);
    EffectsArmShaped(s, e);
  }

  /** Every timer the reference table arms has its call site's delay. */
  lemma EffectsArmShaped(s: State, e: Event)
    ensures forall a | a in Effects(s, e) && a.Arm? :: TimerShape(a.timer)
  {
  }

  /** The effects of one event in a state satisfying `Inv`, written down
      directly, with `cur` the newest child. */
  function Effects(s: State, e: Event): seq<Action>
  {
    var cur := if |s.children| == 0 then 0 else |s.children| - 1;
    if !Enabled(s, e) then []
    else
      match e
      case Start(check) =>
        if check == Absent then [Exit(1)] else [Subscribe, Spawn(0), ArmInterval(HOURLY_RESTART_MS)]
      case ChildClose(_) => [Arm(RestartToken)]
      case ChildError(_) => []
      case RestartFire(_) => [Spawn(|s.children|)]
      case HourlyTick(o) =>
        [Kill(cur, SIGTERM)] + (if o == Threw then [] else [Arm(Timer(GraceTimer, GRACE_KILL_MS))])
      case GraceFire(_, _) =>
        if |s.children| > 0 && s.children[cur].killed then [] else [Kill(cur, SIGKILL)]
      case SignalReceived(sig, _) => [Kill(cur, sig.AsSignal()), Arm(Timer(ExitTimer(0), SIGNAL_EXIT_MS))]
      case UncaughtException(_) => [Kill(cur, SIGTERM), Arm(Timer(ExitTimer(1), FAULT_EXIT_MS))]
      case UnhandledRejection => []
      case ExitFire(code, _) => [Exit(code)]
  }

  /** In every state satisfying `Inv`, each callback issues exactly the
      effects `Effects` lists, and it keeps `Inv`. */
  lemma StepMatchesReference(s: State, e: Event)
    requires Inv(s)
    ensures Step(s, e).actions == Effects(s, e)
    ensures Inv(Step(s, e).next)
  {
    if Enabled(s, e) {
      match e
      case Start(check) => StartStep(s, check);
      case ChildClose(id) => CloseStep(s, id);
      case ChildError(_) =>
      case RestartFire(d) => RestartStep(s, d);
      case HourlyTick(o) => HourlyStep(s, o);
      case GraceFire(d, o) => GraceStep(s, d, o);
      case SignalReceived(sig, o) => SignalStep(s, sig, o);
      case UncaughtException(o) => UncaughtStep(s, o);
      case UnhandledRejection =>
      case ExitFire(code, d) => ExitStep(s, code, d);
    }
  }

  lemma StepPreservesInv(s: State, e: Event)
    requires Inv(s)
    ensures Inv(Step(s, e).next)
  {
    StepMatchesReference(s, e);
  }

  lemma {:induction false} RunPreservesInv(s: State, events: seq<Event>)
    requires Inv(s)
    ensures Inv(Run(s, events).next)
    decreases |events|
  {
    if |events| > 0 {
      var prefix := events[..|events| - 1];
      RunPreservesInv(s, prefix);
      StepPreservesInv(Run(s, prefix).next, events[|events| - 1]);
    }
  }

  /** Every state reached from the initial one by any events keeps `Inv`. */
  lemma ReachableInv(events: seq<Event>)
    ensures Inv(Run(Initial, events).next)
  {
    InitialInv();
    RunPreservesInv(Initial, events);
  }
}
