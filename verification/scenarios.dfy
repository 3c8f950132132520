/** Concrete behaviour that shows what server.js actually does where a
    reader of its header comment might expect otherwise. Each sequence of
    callbacks is one the real timers allow; the comments give the timing
    that produces it. The general lemmas start from any state satisfying
    `Inv`, so from any reachable state. */
module SupervisorScenarios {
  import opened SupervisorTypes
  import opened Supervisor
  import opened SupervisorInvariants
  import opened SupervisorTraces

  /** A running wrapper whose current child is alive. */
  predicate Alive(s: State)
  {
    Inv(s) && s.phase == Running && !LastClosed(s)
  }

  /** Startup with the file present leaves child 0 alive. */
  lemma Started()
    ensures Alive(Step(Initial, Start(Present)).next)
    ensures |Step(Initial, Start(Present)).next.children| == 1
    ensures Step(Initial, Start(Present)).actions == [Subscribe, Spawn(0), ArmInterval(HOURLY_RESTART_MS)]
  {
    InitialInv();
    StartStep(Initial, Present);
  }

  /** A crash loop does not slow down. From any reachable state whose
      current child is alive, that child's close arms one restart of the
      initial delay, the restart spawns the next child, and the state after
      the round again has a live current child. So every further round of an
      immediately crashing child also waits 5000 ms: the n-th restart does
      not wait `min(5000 * 2^(n-1), 60000)` ms. */
  lemma CrashRound(s: State, cur: nat)
    requires Alive(s) && cur == |s.children| - 1
    ensures var t1 := Step(s, ChildClose(cur));
            var t2 := Step(t1.next, RestartFire(RESTART_DELAY_MS));
            && t1.actions == [Arm(Timer(RestartTimer, RESTART_DELAY_MS))]
            && t2.actions == [Spawn(cur + 1)]
            && Alive(t2.next) && |t2.next.children| == |s.children| + 1
            && t2.next.backoff == s.backoff
  {
    CloseStep(s, cur);
    RestartStep(Step(s, ChildClose(cur)).next, RESTART_DELAY_MS);
  }

  /** An hourly SIGTERM that the current child obeys by closing: the tick
      arms the grace timer, the close arms a restart, and both are pending
      afterwards. */
  lemma TermThenClose(s: State)
    requires Alive(s)
    ensures var cur := |s.children| - 1;
            var t1 := Step(s, HourlyTick(Delivered));
            var t2 := Step(t1.next, ChildClose(cur));
            && t1.actions == [Kill(cur, SIGTERM), Arm(Timer(GraceTimer, GRACE_KILL_MS))]
            && t2.actions == [Arm(Timer(RestartTimer, RESTART_DELAY_MS))]
            && Inv(t2.next) && t2.next.phase == Running && LastClosed(t2.next)
            && |t2.next.children| == |s.children|
            && Timer(GraceTimer, GRACE_KILL_MS) in t2.next.timers
  {
    var cur := |s.children| - 1;
    HourlyStep(s, Delivered);
    CloseStep(Step(s, HourlyTick(Delivered)).next, cur);
  }

  /** A pending restart that fires before a pending grace timer: the grace
      timer finds the freshly spawned child, not marked killed, and SIGKILLs
      it. */
  lemma RestartThenGrace(s: State)
    requires Inv(s) && s.phase == Running && LastClosed(s)
    requires Timer(GraceTimer, GRACE_KILL_MS) in s.timers
    ensures var t3 := Step(s, RestartFire(RESTART_DELAY_MS));
            var t4 := Step(t3.next, GraceFire(GRACE_KILL_MS, Delivered));
            && t3.actions == [Spawn(|s.children|)]
            && t4.actions == [Kill(|s.children|, SIGKILL)]
  {
    RestartStep(s, RESTART_DELAY_MS);
    var u := Step(s, RestartFire(RESTART_DELAY_MS)).next;
    assert u.children[|s.children|] == Child(false, false);
    assert Timer(GraceTimer, GRACE_KILL_MS) in u.timers;
    GraceStep(u, GRACE_KILL_MS, Delivered);
  }

  /** The grace timer kills a child that did nothing wrong. The hourly tick
      SIGTERMs the current child and arms the 8000 ms grace timer; the child
      obeys and closes within 3000 ms, so its 5000 ms restart fires first and
      spawns a new child; the grace timer then reads `bot`, finds the new
      child (not marked killed) and sends it SIGKILL. */
  lemma GraceKillsFreshChild(s: State)
    requires Alive(s)
    ensures var cur := |s.children| - 1;
            var t1 := Step(s, HourlyTick(Delivered));
            var t2 := Step(t1.next, ChildClose(cur));
            var t3 := Step(t2.next, RestartFire(RESTART_DELAY_MS));
            var t4 := Step(t3.next, GraceFire(GRACE_KILL_MS, Delivered));
            && t1.actions + t2.actions + t3.actions + t4.actions
               == [Kill(cur, SIGTERM), Arm(Timer(GraceTimer, GRACE_KILL_MS)),
                   Arm(Timer(RestartTimer, RESTART_DELAY_MS)),
                   Spawn(cur + 1), Kill(cur + 1, SIGKILL)]
  {
    var cur := |s.children| - 1;
    TermThenClose(s);
    RestartThenGrace(Step(Step(s, HourlyTick(Delivered)).next, ChildClose(cur)).next);
  }

  /** A child that ignores a delivered hourly SIGTERM and is still `bot`
      when the grace timer fires is not sent SIGKILL. Node marks a child
      killed once a signal is delivered to it, not once it exits, so the
      8000 ms grace timer finds it marked killed: the timer has no effect
      and the child stays alive. */
  lemma DeliveredTermDisarmsGrace(s: State, o: KillOutcome)
    requires Alive(s)
    ensures var t1 := Step(s, HourlyTick(Delivered));
            var t2 := Step(t1.next, GraceFire(GRACE_KILL_MS, o));
            && t1.actions == [Kill(|s.children| - 1, SIGTERM), Arm(Timer(GraceTimer, GRACE_KILL_MS))]
            && t2.actions == []
            && Alive(t2.next) && t2.next.children == t1.next.children
  {
    HourlyStep(s, Delivered);
    var u := Step(s, HourlyTick(Delivered)).next;
    assert Timer(GraceTimer, GRACE_KILL_MS) in u.timers;
    GraceStep(u, GRACE_KILL_MS, o);
  }

  /** The current child crashes, then SIGINT arrives: the close arms the
      restart, the signal is forwarded and arms the exit, and the restart
      is still pending while the wrapper keeps running. */
  lemma CrashThenSignal(s: State)
    requires Alive(s)
    ensures var cur := |s.children| - 1;
            var t1 := Step(s, ChildClose(cur));
            var t2 := Step(t1.next, SignalReceived(Interrupt, NotDelivered));
            && t1.actions == [Arm(Timer(RestartTimer, RESTART_DELAY_MS))]
            && t2.actions == [Kill(cur, SIGINT), Arm(Timer(ExitTimer(0), SIGNAL_EXIT_MS))]
            && Inv(t2.next) && t2.next.phase == Running && LastClosed(t2.next)
            && |t2.next.children| == |s.children|
  {
    var cur := |s.children| - 1;
    CloseStep(s, cur);
    SignalStep(Step(s, ChildClose(cur)).next, Interrupt, NotDelivered);
  }

  /** A termination signal does not stop a respawn that is already pending.
      The current child crashes; more than 2000 ms later SIGINT arrives and
      arms the 3000 ms exit; the 5000 ms restart fires before that exit and
      spawns a new child, which the wrapper then abandons when it exits. */
  lemma SignalDoesNotStopRespawn(s: State)
    requires Alive(s)
    ensures var cur := |s.children| - 1;
            var t1 := Step(s, ChildClose(cur));
            var t2 := Step(t1.next, SignalReceived(Interrupt, NotDelivered));
            var t3 := Step(t2.next, RestartFire(RESTART_DELAY_MS));
            && t1.actions + t2.actions + t3.actions
               == [Arm(Timer(RestartTimer, RESTART_DELAY_MS)),
                   Kill(cur, SIGINT), Arm(Timer(ExitTimer(0), SIGNAL_EXIT_MS)),
                   Spawn(cur + 1)]
            && Alive(t3.next)
  {
    var cur := |s.children| - 1;
    CrashThenSignal(s);
    RestartStep(Step(Step(s, ChildClose(cur)).next, SignalReceived(Interrupt, NotDelivered)).next, RESTART_DELAY_MS);
  }
}
