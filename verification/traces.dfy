/** Properties of whole runs: every sequence of events delivered to the
    wrapper from its initial state. */
module SupervisorTraces {
  import opened SupervisorTypes
  import opened Supervisor
  import opened SupervisorInvariants

  /** A run extended by one event is the run followed by that event's step. */
  lemma RunSnoc(s: State, events: seq<Event>, e: Event)
    requires WellFormed(s)
    ensures var r := Run(s, events);
            var t := Step(r.next, e);
            Run(s, events + [e]) == Transition(t.next, r.actions + t.actions)
  {
    assert (events + [e])[..|events|] == events;
  }

  /** Every timer armed along a run from an invariant state has the delay of
      its arming site; in particular every restart is scheduled after the
      initial delay. */
  lemma {:induction false} RunArmsShaped(s: State, events: seq<Event>)
    requires Inv(s)
    ensures forall a | a in Run(s, events).actions && a.Arm? :: TimerShape(a.timer)
    decreases |events|
  {
    if |events| > 0 {
      var prefix := events[..|events| - 1];
      var before := Run(s, prefix);
      RunArmsShaped(s, prefix);
      RunPreservesInv(s, prefix);
      StepArmsShaped(before.next, events[|events| - 1]);
    }
  }

  /** The backoff never escalates as far as anyone can observe: every
      restart timer the wrapper ever arms waits exactly the initial delay,
      after any history of crashes. */
  lemma RestartDelaysNeverEscalate(events: seq<Event>)
    ensures forall a | a in Run(Initial, events).actions && a.Arm? && a.timer.kind == RestartTimer ::
              a.timer.ms == RESTART_DELAY_MS
    ensures forall a | a in Run(Initial, events).actions && a.Arm? && a.timer.kind == RestartTimer ::
              a.timer.ms <= MAX_BACKOFF_MS
  {
    InitialInv();
    RunArmsShaped(Initial, events);
  }

  /** The backoff stays within [initial delay, ceiling]; it is in fact
      always the initial delay between events. */
  lemma BackoffStaysInRange(events: seq<Event>)
    ensures RESTART_DELAY_MS <= Run(Initial, events).next.backoff <= MAX_BACKOFF_MS
    ensures Run(Initial, events).next.backoff == RESTART_DELAY_MS
  {
    ReachableInv(events);
  }

  /** Number of intervals a sequence of effects leaves active: one per
      `setInterval`, minus one per `clearInterval`. */
  function ActiveIntervals(acts: seq<Action>): int
  {
    if |acts| == 0 then 0
    else
      var here := match acts[0]
                  case ArmInterval(_) => 1
                  case ClearInterval => -1
                  case _ => 0;
      here + ActiveIntervals(acts[1..])
  }

  lemma {:induction false} ActiveIntervalsAppend(a: seq<Action>, b: seq<Action>)
    ensures ActiveIntervals(a + b) == ActiveIntervals(a) + ActiveIntervals(b)
    decreases |a|
  {
    if |a| == 0 {
      assert a + b == b;
    } else {
      assert (a + b)[1..] == a[1..] + b;
      ActiveIntervalsAppend(a[1..], b);
    }
  }

  function Flag(b: bool): int
  {
    if b then 1 else 0
  }

  /** Effects that neither arm nor clear an interval. */
  predicate NoIntervalEffects(acts: seq<Action>)
  {
    forall i | 0 <= i < |acts| :: !acts[i].ArmInterval? && !acts[i].ClearInterval?
  }

  lemma {:induction false} NoIntervalEffectsCountZero(acts: seq<Action>)
    requires NoIntervalEffects(acts)
    ensures ActiveIntervals(acts) == 0
    decreases |acts|
  {
    if |acts| > 0 {
      NoIntervalEffectsCountZero(acts[1..]);
    }
  }

  /** What `startHourlyRestart` issues: a clear when an interval was held,
      then one arm. Net, the active count moves from `Flag(held)` to one. */
  lemma HourlyEffectsCount(held: bool)
    ensures var acts := if held then [ClearInterval, ArmInterval(HOURLY_RESTART_MS)] else [ArmInterval(HOURLY_RESTART_MS)];
            Flag(held) + ActiveIntervals(acts) == 1
  {
    var arm := [ArmInterval(HOURLY_RESTART_MS)];
    assert arm[1..] == [];
    assert ActiveIntervals(arm) == 1;
    if held {
      assert [ClearInterval, ArmInterval(HOURLY_RESTART_MS)][1..] == arm;
    }
  }

  /** `start` clears the interval `hourlyTimer` holds, if any, so after it
      exactly one interval is active whatever was active before. */
  lemma OnStartIntervals(s: State, check: FileCheck)
    requires check != Absent
    ensures Flag(s.hourly) + ActiveIntervals(OnStart(s, check).actions) == 1
    ensures OnStart(s, check).next.hourly
  {
    var pre := [Subscribe, Spawn(|s.children|)];
    var hourly := if s.hourly then [ClearInterval, ArmInterval(HOURLY_RESTART_MS)] else [ArmInterval(HOURLY_RESTART_MS)];
    assert OnStart(s, check).actions == pre + hourly;
    ActiveIntervalsAppend(pre, hourly);
    assert NoIntervalEffects(pre);
    NoIntervalEffectsCountZero(pre);
    HourlyEffectsCount(s.hourly);
  }

  /** The same for `start` as a step of the wrapper. */
  lemma StartIntervals(s: State, check: FileCheck)
    requires WellFormed(s) && s.phase.Loading? && check != Absent
    ensures Flag(s.hourly) + ActiveIntervals(Step(s, Start(check)).actions) == Flag(Step(s, Start(check)).next.hourly)
  {
    OnStartIntervals(s, check);
    assert Step(s, Start(check)) == OnStart(s, check);
  }

  /** A step changes the number of active intervals exactly as it changes
      whether `hourlyTimer` holds one. */
  lemma StepIntervals(s: State, e: Event)
    requires WellFormed(s)
    ensures Flag(s.hourly) + ActiveIntervals(Step(s, e).actions) == Flag(Step(s, e).next.hourly)
  {
    if Enabled(s, e) && e.Start? && e.check != Absent {
      StartIntervals(s, e.check);
    } else {
      NoIntervalEffectsCountZero(Step(s, e).actions);
    }
  }

  lemma {:induction false} RunIntervals(s: State, events: seq<Event>)
    requires WellFormed(s)
    ensures Flag(s.hourly) + ActiveIntervals(Run(s, events).actions) == Flag(Run(s, events).next.hourly)
    decreases |events|
  {
    if |events| > 0 {
      var prefix := events[..|events| - 1];
      var before := Run(s, prefix);
      var last := Step(before.next, events[|events| - 1]);
      RunIntervals(s, prefix);
      StepIntervals(before.next, events[|events| - 1]);
      ActiveIntervalsAppend(before.actions, last.actions);
    }
  }

  /** Along any run at most one hourly interval is active, and exactly one
      once the wrapper has started. */
  lemma AtMostOneInterval(events: seq<Event>)
    ensures 0 <= ActiveIntervals(Run(Initial, events).actions) <= 1
    ensures Run(Initial, events).next.phase.Running? ==> ActiveIntervals(Run(Initial, events).actions) == 1
  {
    RunIntervals(Initial, events);
    ReachableInv(events);
  }

  /** After `process.exit` nothing further happens, whatever events come. */
  lemma {:induction false} ExitedIsTerminal(s: State, events: seq<Event>)
    requires WellFormed(s) && s.phase.Exited?
    ensures Run(s, events) == Transition(s, [])
    decreases |events|
  {
    if |events| > 0 {
      ExitedIsTerminal(s, events[..|events| - 1]);
    }
  }

  /** When the application file is absent the wrapper exits with status 1
      and never subscribes, spawns or arms a timer, whatever follows. */
  lemma {:induction false} StartupWithoutFile(events: seq<Event>)
    ensures Run(Initial, [Start(Absent)] + events) == Transition(Initial.(phase := Exited(1)), [Exit(1)])
    decreases |events|
  {
    var all := [Start(Absent)] + events;
    if |events| == 0 {
      assert all == [] + [Start(Absent)];
      RunSnoc(Initial, [], Start(Absent));
    } else {
      var prefix := events[..|events| - 1];
      StartupWithoutFile(prefix);
      assert all == ([Start(Absent)] + prefix) + [events[|events| - 1]];
      RunSnoc(Initial, [Start(Absent)] + prefix, events[|events| - 1]);
    }
  }
}
