# Restart/backoff state machine of the `server.js` process wrapper

`server.js` runs `index.js` as a child process and tries to keep it alive.
When the child closes, it restarts it after a backoff delay. Every hour it
sends the child SIGTERM, and 8 s later SIGKILL if the child is not marked
killed. It forwards SIGINT, SIGTERM and SIGHUP to the child and then exits.
On an uncaught exception it sends the child SIGTERM and exits with status 1.
The wrapper is single-threaded and runs one callback at a time. This project
models its callbacks as one pure transition function over the module-level
variables (`bot`, `hourlyTimer`, `backoff`) plus the pending timers.

- `types.dfy`, module `SupervisorTypes`: the constants (`HOURLY_RESTART_MS`,
  `RESTART_DELAY_MS`, `MAX_BACKOFF_MS`, 8000, 3000, 2000) and the data:
  - `State`: the phase, every child spawned so far with its `killed` and
    `closed` flags, the `bot` reference, whether `hourlyTimer` is set, the
    backoff, and the pending one-shot timers as a multiset of `(kind, ms)`
    tokens;
  - `Event`: what the environment delivers next;
  - `Action`: the effects the wrapper issues — spawn, kill, arm a timer,
    set or clear the interval, subscribe the process handlers, and exit.
- `supervisor.dfy`, module `Supervisor`: one function per callback
  (`SpawnBot`, `ScheduleRestart`, `StartHourlyRestart`, the `close`
  listener, the restart, hourly, grace and exit timers, the signal and fault
  handlers, `start`). `Step` dispatches one event to its handler. `Run`
  folds `Step` over a sequence of events.
- `invariants.dfy`, module `SupervisorInvariants`: the invariant that holds
  in every reachable state, one lemma per callback, and the single-child
  facts.
- `traces.dfy`, module `SupervisorTraces`: properties of every run from the
  initial state — restart delays, the backoff range, active intervals,
  exit being final, and startup without the file.
- `scenarios.dfy`, module `SupervisorScenarios`: concrete runs with their
  exact effects.

The environment picks which callback runs next. Each timer event names the
pending timer that fires. The outcome of every `kill` call is an input:
the signal is delivered (Node then sets `killed`), not delivered, or `kill`
throws. The result of the file check at startup is an input too: present,
absent, or the check throws.

## Behaviour a reader of the code might not expect

The model follows the code. These consequences of it are proved:

- There is no escalating backoff. The header comment (server.js:1) says
  "crash-restart/backoff". The code keeps a `backoff` variable with a
  ceiling `MAX_BACKOFF_MS`, and the restart timer doubles it (server.js:37).
  But the timer then calls `spawnBot`, which sets it back to
  `RESTART_DELAY_MS` (server.js:30), and `scheduleRestart` arms the next
  restart with `min(backoff, MAX_BACKOFF_MS)` (server.js:34). So every restart waits 5000 ms, whatever the crash
  history (`SupervisorTraces.RestartDelaysNeverEscalate`). A crash round
  from any state with a live child ends in another such state after exactly
  one 5000 ms restart (`SupervisorScenarios.CrashRound`), so a 5 s / 10 s /
  20 s sequence never occurs.
- `bot` is never cleared on close. It always refers to the newest child
  (`SupervisorInvariants.Inv`).
- A termination signal does not cancel a restart that is already pending.
  The respawn can happen before the exit timer fires
  (`SupervisorScenarios.SignalDoesNotStopRespawn`).
- The grace timer reads `bot` when it fires. After an hourly SIGTERM, if the
  child closes within 3000 ms, its 5000 ms restart spawns a new child before
  the 8000 ms grace timer fires. The grace timer then SIGKILLs the new child
  (`SupervisorScenarios.GraceKillsFreshChild`).
- Node marks a child killed when a signal is delivered to it, not when it
  exits. A child that ignores a delivered hourly SIGTERM and is still `bot`
  when the grace timer fires is therefore not sent SIGKILL; the timer then
  has no effect (`SupervisorScenarios.DeliveredTermDisarmsGrace`).

## Model

| member | source | states |
|---|---|---|
| Supervisor.SpawnBot | server.js:16-31 | Spawning makes the new child current, issues exactly one spawn and leaves the backoff at exactly `RESTART_DELAY_MS`, whatever its previous value. |
| Supervisor.ScheduleRestart | server.js:33-40 | A close arms exactly one restart timer. Its delay is the backoff clamped to `MAX_BACKOFF_MS`: it is at most the ceiling and at most the backoff. |
| Supervisor.StartHourlyRestart | server.js:41-56 | If an interval was held it is cleared first, then exactly one hourly interval is armed. Afterwards `hourlyTimer` is set and nothing else in the state changes. |
| Supervisor.KillCurrent | server.js:62 | `if (bot) bot.kill(sig)`: with no current child nothing happens. Otherwise the current child is signalled once and marked killed exactly when the signal is delivered. Its closed flag stays, and nothing else in the state changes. |
| Supervisor.OnClose | server.js:26-29 | The `close` listener marks that child closed and arms exactly one restart timer. The delay is the backoff when that is within `MAX_BACKOFF_MS`, and exactly `MAX_BACKOFF_MS` otherwise. `bot`, the backoff, the phase and the interval stay as they were. |
| Supervisor.OnRestartTimer | server.js:36-39 | The restart timer consumes itself and spawns exactly one new child, which becomes `bot`. The doubled backoff is lost: afterwards it is `RESTART_DELAY_MS`. |
| Supervisor.OnHourlyTick | server.js:43-55 | With no `bot` nothing happens. Otherwise SIGTERM goes to `bot`, and a grace timer of 8000 ms is armed and becomes pending unless `kill` threw. `bot` is marked killed when the signal is delivered, and nothing else in the state changes. |
| Supervisor.OnGraceTimer | server.js:48-50 | The grace timer consumes itself. It has an effect if and only if `bot` is set and not marked killed, and that effect is SIGKILL to `bot`, which is then marked killed exactly when the signal is delivered. No other child changes. |
| Supervisor.OnSignal | server.js:59-65 | The same signal goes to `bot` if there is one, then an exit with status 0 is armed after 3000 ms. Every pending timer, including a restart, stays pending, and the wrapper keeps running. Only `bot`'s killed flag can change among the children. |
| Supervisor.OnUncaught | server.js:68-72 | SIGTERM goes to `bot` if there is one, then an exit with status 1 is armed after 2000 ms. Every pending timer stays pending, and only `bot`'s killed flag can change among the children. |
| Supervisor.OnExitTimer | server.js:64-71 | An exit timer calls `process.exit` with its status. Afterwards no event can be delivered. |
| Supervisor.OnStart | server.js:79-92 | With the file absent: exit with status 1 and nothing else. Otherwise, in order: subscribe the handlers, spawn a child that becomes `bot`, clear a held interval, arm the hourly interval. The spawned child is appended fresh to the children. |
| Supervisor.Step | server.js:16-91 | One callback: an event that cannot happen in the state changes nothing, each callback spawns at most one child, and only `start` sets, clears or arms the hourly interval. |
| Supervisor.Run | server.js:16-91 | A run of n events spawns at most n children. |
| SupervisorInvariants.InitialInv | server.js:12-14 | The declared initial values of `bot`, `hourlyTimer` and `backoff` satisfy the invariant. |
| SupervisorInvariants.StartStep | server.js:79-92 | With the file absent: exit with status 1 and nothing else. With the file present, or the check throwing: subscribe, spawn child 0, arm the hourly interval. |
| SupervisorInvariants.CloseStep | server.js:26-29 | Only the current child can close. Its close arms exactly one restart timer, of 5000 ms, when none was pending, and leaves `bot` unchanged. |
| SupervisorInvariants.RestartStep | server.js:36-39 | A restart timer fires only after the current child closed. It waits 5000 ms, performs exactly one spawn and consumes itself. The backoff it doubled ends at `RESTART_DELAY_MS`. |
| SupervisorInvariants.HourlyStep | server.js:43-55 | An hourly tick sends SIGTERM to the current child and arms one 8000 ms grace timer, unless `kill` threw. The child is marked killed when the signal is delivered. |
| SupervisorInvariants.GraceStep | server.js:48-50 | The grace timer sends SIGKILL to the current child if and only if that child is not marked killed, and it consumes itself. |
| SupervisorInvariants.SignalStep | server.js:57-66 | SIGINT, SIGTERM and SIGHUP are forwarded to the current child as the same signal, and an exit with status 0 is armed after 3000 ms. A pending restart stays pending and the wrapper keeps running. |
| SupervisorInvariants.UncaughtStep | server.js:68-72 | An uncaught exception sends SIGTERM to the current child and arms an exit with status 1 after 2000 ms. |
| SupervisorInvariants.ExitStep | server.js:64-71 | An exit timer ends the process with its own status: 0 after 3000 ms or 1 after 2000 ms. |
| SupervisorInvariants.SpawnResetsBackoff | server.js:30 | In any state, a step that spawns leaves the backoff at `RESTART_DELAY_MS`, and the spawned child becomes `bot`. |
| SupervisorInvariants.SpawnOnlyAfterClose | server.js:26-38 | A spawn happens only at startup or after the current child's close, when every earlier child has closed. It is the only spawn of its step. |
| SupervisorInvariants.AtMostOneLiveChild | server.js:12-39 | At most one child is alive, and no two restart timers are ever pending. While running, a restart is pending exactly when the current child has closed. |
| SupervisorInvariants.CloseIsOnce | server.js:26 | The `close` listener is registered with `once`: a second close of a child does nothing. |
| SupervisorInvariants.ChildErrorIsLogOnly | server.js:23-25 | A child's `error` event changes nothing. |
| SupervisorInvariants.RejectionIsLogOnly | server.js:74-76 | An unhandled rejection changes nothing. |
| SupervisorInvariants.StepArmsShaped | server.js:34-71 | Every timer a step arms has its site's delay: restart 5000 ms, grace 8000 ms, exit 0 after 3000 ms, exit 1 after 2000 ms. |
| SupervisorInvariants.StepMatchesReference | server.js:16-91 | In every reachable state each callback issues exactly the effects of a reference table written per event. The table shares only `Enabled`, which says which events can be delivered, with the handler code. |
| SupervisorInvariants.StepPreservesInv | server.js:16-91 | Every callback preserves the invariant: backoff equal to `RESTART_DELAY_MS`, `bot` the newest child, older children closed, one restart pending exactly when the current child has closed. |
| SupervisorInvariants.RunPreservesInv | server.js:16-91 | Any sequence of callbacks preserves the invariant. |
| SupervisorInvariants.ReachableInv | server.js:12-91 | Every state reachable from the declared initial values satisfies the invariant. |
| SupervisorTraces.RunArmsShaped | server.js:33-71 | Along any run from an invariant state, every armed timer has its site's delay. |
| SupervisorTraces.RestartDelaysNeverEscalate | server.js:30-38 | Every restart timer ever armed waits exactly `RESTART_DELAY_MS`, which is within `MAX_BACKOFF_MS`, after any history of crashes. |
| SupervisorTraces.BackoffStaysInRange | server.js:9-14 | In every reachable state the backoff lies in [`RESTART_DELAY_MS`, `MAX_BACKOFF_MS`]; between events it is exactly `RESTART_DELAY_MS`. |
| SupervisorTraces.OnStartIntervals | server.js:41-43 | Whether or not an interval was held before, exactly one is active after `start`: a held one is cleared, so the new one is not a second. |
| SupervisorTraces.StartIntervals | server.js:41-43 | The same as a step: the net count of arms minus clears in `start`'s effects moves the active count to one, matching `hourlyTimer` being set. The order, clear before arm, is stated by `Supervisor.StartHourlyRestart`. |
| SupervisorTraces.StepIntervals | server.js:41-56 | The number of active intervals changes in each step exactly as whether `hourlyTimer` is set changes. |
| SupervisorTraces.RunIntervals | server.js:41-56 | The same over any run. |
| SupervisorTraces.AtMostOneInterval | server.js:42-43 | Along any run at most one hourly interval is active, and exactly one once the wrapper runs. |
| SupervisorTraces.ExitedIsTerminal | server.js:83 | After `process.exit` no event has any effect. |
| SupervisorTraces.StartupWithoutFile | server.js:80-84 | With the file absent, the only effect of any run is an exit with status 1: no subscription, spawn, interval or timer. |
| SupervisorScenarios.Started | server.js:89-91 | With the file present, startup subscribes, spawns child 0 and arms the hourly interval, in that order. |
| SupervisorScenarios.CrashRound | server.js:26-38 | From any reachable state with a live current child, its close arms one 5000 ms restart and the restart spawns the next child. The round ends in a state of the same kind with the same backoff, so every later crash waits 5000 ms too. |
| SupervisorScenarios.TermThenClose | server.js:43-50 | After an hourly SIGTERM that the child obeys by closing, a restart and the 8000 ms grace timer are both pending. |
| SupervisorScenarios.RestartThenGrace | server.js:36-50 | If the pending restart fires before the pending grace timer, the grace timer finds the new child, not marked killed, and SIGKILLs it. |
| SupervisorScenarios.GraceKillsFreshChild | server.js:46-50 | An hourly SIGTERM, a close, a restart, then the grace timer: the grace timer sends SIGKILL to the freshly spawned child, not to the one it was armed for. |
| SupervisorScenarios.DeliveredTermDisarmsGrace | server.js:46-50 | A child that ignores a delivered hourly SIGTERM and is still `bot` when the grace timer fires is not sent SIGKILL: the timer then has no effect, and the child stays alive. |
| SupervisorScenarios.CrashThenSignal | server.js:58-65 | A crash and then SIGINT: the signal is forwarded and the exit armed, while the restart stays pending and the wrapper keeps running. |
| SupervisorScenarios.SignalDoesNotStopRespawn | server.js:58-65 | After a close and then SIGINT, the pending restart still spawns the next child and the wrapper keeps running until its exit timer fires. |

## Left out

- Spawning itself: `child_process.spawn`, stdio and environment inheritance,
  and the working directory (server.js:18-22). These are operating-system
  effects, so a spawn is the abstract `Spawn` action. A spawn that fails
  asynchronously is a `ChildError` event followed by a `close`. In Node this
  is the case for the errors EACCES, EAGAIN, EMFILE, ENFILE and ENOENT.
- A `spawn` call that throws synchronously, which Node does for any other
  error. Then server.js:18 throws before lines 23-30 run. No `close` or
  `error` listener is registered, `bot` keeps the old child, and `backoff`
  keeps the value line 37 doubled. The exception reaches the
  `uncaughtException` handler (server.js:68-72), which sends SIGTERM to the
  old child and exits with status 1 after 2000 ms. At startup, line 91
  (`startHourlyRestart`) never runs. The model always spawns
  successfully. No `close` can follow this path, so restart delays still
  never escalate. The claims below hold only for runs in which every spawn
  returns.
- SupervisorInvariants.Inv: its clause `backoff == RESTART_DELAY_MS` does
  not hold after a synchronously throwing spawn from the restart timer; the
  backoff is then 10000 until the process exits.
- SupervisorTraces.BackoffStaysInRange: its second clause, backoff exactly
  `RESTART_DELAY_MS`, is stated only for runs without a synchronously
  throwing spawn, for the same reason.
- SupervisorTraces.AtMostOneInterval: its clause "exactly one interval once
  running" is stated only for runs whose startup spawn returns. When it
  throws, no interval is ever armed.
- `fs.existsSync` and `path.join` (server.js:81) are file-system calls. Their
  outcome is the `FileCheck` input of the startup event.
- Logging through `console.*` has no behavioural effect.
- Wall-clock time and Node's timer queue. Pending timers are `(kind, ms)`
  tokens, and the environment may fire any pending token. The model
  therefore allows orderings that real delays forbid. The safety properties
  hold for every ordering, so they hold for the real ones too. The comments
  on each scenario give the timing that makes it happen.
- The exact Node semantics of `ChildProcess.killed` and of a failed `kill`.
  Whether a signal is delivered is an input, and so is whether `kill` throws.
- `process.exit` stops everything: once an exit is issued the state is
  terminal.
- The supervised program `index.js` is not part of this model.
- Signals arriving before `start` runs cannot happen: `start` runs
  synchronously when the script loads. Only the startup event is enabled
  before then.
