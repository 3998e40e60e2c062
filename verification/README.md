# SweetBlue reconnect scheduler and debug-log buffer, in Dafny

This project models two self-contained pieces of the SweetBlue Bluetooth LE
library for Android and proves properties of them.

**The per-device reconnect scheduler (`P_ReconnectManager`).** After a
connection drops or an attempt fails, it decides whether and when to retry.
It keeps four fields:

- `m_totalTime`: time since the episode started;
- `m_attemptCount`: failed attempts so far;
- `m_delay`: the current wait before the next attempt;
- `m_timeTracker`: time waited so far, or `NOT_RUNNING = -1.0` when idle.

It asks a pluggable reconnect policy (`ReconnectLoop`) for each delay and
looks that policy up on the device config, then on the manager config, then
falls back to STOP. It holds a wake lock on the manager while it runs, and an
externally driven `update(timeStep)` calls `attemptReconnect` once enough
disconnected time has passed.

In `ReconnectManager` (reconnect_manager.dfy) the scheduler is an immutable
record: the four fields, plus counters of wake-lock pushes, wake-lock pops and
`attemptReconnect` calls. `Start`, `Stop`, `OnConnectionFailed` and `Update`
are pure transitions. The policy is an abstract function from the
`ReconnectLoop.Info` context to a possibly-null `Please`, whose interval may
also be null. The device's DISCONNECTED state is a boolean parameter of
`Update`. Durations are exact `real` seconds. `ReconnectProperties`
(reconnect_properties.dfy) does three things:

- it runs sequences of calls and proves the invariant every reachable state keeps;
- it proves wake-lock accounting, stop idempotence and the timing of attempts;
- it checks a few worked scenarios (backoff, stop on the third failure, a threshold crossing) against the model.

**The bounded log list of `DebugLogger`.** The logger keeps at most
`maxLogSize` formatted entries and drops the oldest when it is full. It can be
asked for:

- the newest `count` entries;
- the newest entry;
- a copy of the whole list.

A private function maps Android log priorities to names. `DebugLogger`
(debug_logger.dfy) models the list as `seq<string>`, with entries as opaque
strings, and models Java exceptions as the `Err` side of a `Result`.
`DebugLoggerProperties` (debug_logger_properties.dfy) proves that any sequence
of log calls leaves exactly the newest `maxLogSize` entries. It also relates the
queries to each other and models the `getLastLogs` loop exactly as written,
using 32-bit `int` arithmetic.

### Where the code may surprise

- `start()` under a STOP policy leaves one wake-lock push outstanding. When
  the scheduler was idle, the code pushes the lock, then goes idle without
  popping it, and the later `stop()` pops nothing.
  `ReconnectProperties.StartUnderStopPolicyLeaksWakeLock` states this. When
  the scheduler was already running, `start()` pushes nothing but still goes
  idle without popping, so the push of the running episode stays outstanding:
  `ReconnectProperties.StartUnderStopPolicyWhileRunningLeaks`.
- `update` does not fire once per crossing. It calls `attemptReconnect` on
  every disconnected tick once the tracker has reached the delay.
  `ReconnectProperties.FiresOnEveryTickPastDelay` states this.
- Nothing checks that `timeStep` is non-negative. A negative step can push a
  running tracker below zero, which ends the episode without `stop()` and
  leaves the wake lock pushed. The state invariant is therefore proved for
  non-negative steps only, and `ReconnectProperties.NegativeStepBreaksInv`
  exhibits the break.

## Model

| member | source | states |
|---|---|---|
| ReconnectManager.Init | src/com/idevicesinc/sweetblue/P_ReconnectManager.java:16-27 | a new scheduler is idle (`m_timeTracker == NOT_RUNNING`) with zero attempt count and total time, and no wake lock taken and no `attemptReconnect` call recorded |
| ReconnectManager.IsRunning | src/com/idevicesinc/sweetblue/P_ReconnectManager.java:52-66 | running exactly when the tracker is non-negative: the NOT_RUNNING sentinel reads as idle and a re-armed tracker of 0 as running |
| ReconnectManager.GetNextTime | src/com/idevicesinc/sweetblue/P_ReconnectManager.java:68-87 | with no device or manager policy, a null `Please`, or a null interval, the delay is STOP (negative); a non-negative delay is always the effective policy's own answer, and that answer is what is returned |
| ReconnectManager.Start | src/com/idevicesinc/sweetblue/P_ReconnectManager.java:29-50 | pushes the wake lock only if it was not running; zeroes total time and attempt count; queries the policy with attempt 0, time 0, previous delay 0 and the NULL fail info; runs, with tracker 0, exactly when that delay is non-negative; fires no attempt |
| ReconnectManager.Stop | src/com/idevicesinc/sweetblue/P_ReconnectManager.java:133-143 | pops the wake lock exactly when it was running; afterwards idle with zero attempt count and total time, the last delay kept |
| ReconnectManager.OnConnectionFailed | src/com/idevicesinc/sweetblue/P_ReconnectManager.java:89-115 | when idle, answers false and changes nothing; when running, the policy sees the incremented count and the previous delay; a non-negative delay re-arms (count+1, new delay, tracker 0, answer true); a negative one answers false and leaves the state `Stop` produces, which includes one pop |
| ReconnectManager.Update | src/com/idevicesinc/sweetblue/P_ReconnectManager.java:117-131 | no effect when idle; while running, total time always grows by the step; the tracker grows only when disconnected; `attemptReconnect` is called exactly when running, disconnected and the grown tracker has reached the delay |
| ReconnectProperties.InitSatisfiesInv | src/com/idevicesinc/sweetblue/P_ReconnectManager.java:16-27 | the constructed scheduler satisfies the state invariant |
| ReconnectProperties.ApplyPreservesInv | src/com/idevicesinc/sweetblue/P_ReconnectManager.java:29-143 | each of start, onConnectionFailed, update (with a non-negative step) and stop keeps the invariant: the tracker is NOT_RUNNING or non-negative, so `isRunning` is exactly `tracker >= 0`; pops never exceed pushes; running implies a held lock and a non-negative delay; idle implies zero attempt count and total time |
| ReconnectProperties.RunPreservesInv | src/com/idevicesinc/sweetblue/P_ReconnectManager.java:29-143 | after any sequence of calls with non-negative steps, the invariant still holds; in particular the wake lock is never popped more often than pushed |
| ReconnectProperties.ReconnectCallsOnlyFromUpdates | src/com/idevicesinc/sweetblue/P_ReconnectManager.java:127-130 | `attemptReconnect` calls never decrease, and a sequence without `update` calls makes none |
| ReconnectProperties.StopIsIdempotent | src/com/idevicesinc/sweetblue/P_ReconnectManager.java:133-143 | a second `stop` does not pop again and leaves the attempt count and total time at zero |
| ReconnectProperties.StartThenStopIsBalanced | src/com/idevicesinc/sweetblue/P_ReconnectManager.java:29-46 | from idle, a `start` whose first delay is not STOP, followed by `stop`, leaves outstanding wake locks as before |
| ReconnectProperties.StartUnderStopPolicyLeaksWakeLock | src/com/idevicesinc/sweetblue/P_ReconnectManager.java:31-46 | from idle, a `start` whose first delay is STOP ends idle with one more outstanding wake lock, which a following `stop` does not release |
| ReconnectProperties.StartUnderStopPolicyWhileRunningLeaks | src/com/idevicesinc/sweetblue/P_ReconnectManager.java:29-46 | from a running state, a `start` whose first delay is STOP ends idle without popping, so a following `stop` leaves the running episode's push (at least one) outstanding |
| ReconnectProperties.IdleIffSentinel | src/com/idevicesinc/sweetblue/P_ReconnectManager.java:16-22 | in every reachable state the scheduler is idle exactly when the tracker holds the NOT_RUNNING sentinel |
| ReconnectProperties.NoPolicyNeverRuns | src/com/idevicesinc/sweetblue/P_ReconnectManager.java:70-76 | with neither a device nor a manager policy, `start` leaves the scheduler idle |
| ReconnectProperties.DevicePolicyOverridesManager | src/com/idevicesinc/sweetblue/P_ReconnectManager.java:70-71 | when the device has a policy, the manager's policy has no influence on the delay |
| ReconnectProperties.ZeroDelayFiresOnFirstDisconnectedTick | src/com/idevicesinc/sweetblue/P_ReconnectManager.java:41-49 | a zero first delay fires nothing during `start`, and fires on the first disconnected tick |
| ReconnectProperties.NoFireWhileConnected | src/com/idevicesinc/sweetblue/P_ReconnectManager.java:121-123 | any number of ticks while not DISCONNECTED make no `attemptReconnect` call and do not move the tracker, whatever the delay |
| ReconnectProperties.FiresOnEveryTickPastDelay | src/com/idevicesinc/sweetblue/P_ReconnectManager.java:125-130 | once the tracker has reached the delay, every further disconnected tick calls `attemptReconnect` again |
| ReconnectProperties.NegativeStepBreaksInv | src/com/idevicesinc/sweetblue/P_ReconnectManager.java:117-131 | a negative time step can take a running scheduler to a tracker that is neither NOT_RUNNING nor non-negative, idle with the wake lock still pushed |
| ReconnectProperties.ThresholdCrossing | src/com/idevicesinc/sweetblue/P_ReconnectManager.java:125-130 | with a 5 s delay, a 4.9 s tick fires nothing and a following 0.2 s tick fires exactly once |
| ReconnectProperties.BackoffPropagation | src/com/idevicesinc/sweetblue/P_ReconnectManager.java:96-110 | with the policy `attemptCount` seconds, three failures schedule 1 s, 2 s and 3 s, because the policy sees the incremented count |
| ReconnectProperties.StopOnThirdFailure | src/com/idevicesinc/sweetblue/P_ReconnectManager.java:89-115 | with a policy of 2 s for attempts 0-2 and a null interval after that, three ticks fire three attempts; the third failure stops the scheduler and leaves no wake lock outstanding |
| ReconnectProperties.EpisodeReset | src/com/idevicesinc/sweetblue/P_ReconnectManager.java:29-46 | `start` after `stop` reads zero attempts and zero total time whatever came before |
| DebugLogger.New | app/src/main/java/com/idevicesinc/sweetblue/utils/DebugLogger.java:41-46 | a negative capacity throws IllegalArgumentException (from `new ArrayList(maxLogSize)`); otherwise the logger starts empty with that capacity |
| DebugLogger.Default | app/src/main/java/com/idevicesinc/sweetblue/utils/DebugLogger.java:23-36 | the default logger is empty, with capacity 50 |
| DebugLogger.OnLogEntry | app/src/main/java/com/idevicesinc/sweetblue/utils/DebugLogger.java:65-69 | throws exactly when the capacity is 0 (remove(0) on an empty list); otherwise the list stays within capacity, ends with the new entry, and equals the newest `maxLogSize` entries of the old list followed by the new one |
| DebugLogger.GetLastLogs | app/src/main/java/com/idevicesinc/sweetblue/utils/DebugLogger.java:72-98 | the intended behaviour: `min(count, size)` entries, or none for `count <= 0` or an empty log, the list's final entries in original order; as written the method throws instead for a non-empty log and `count <= size - 2^31` (see Findings and `DebugLoggerProperties.GetLastLogsAsWritten`) |
| DebugLogger.GetLastLog | app/src/main/java/com/idevicesinc/sweetblue/utils/DebugLogger.java:100-110 | the final entry of a non-empty list, else the empty string |
| DebugLogger.GetLogList | app/src/main/java/com/idevicesinc/sweetblue/utils/DebugLogger.java:112-119 | a copy of the same length holding the same entries at the same positions |
| DebugLogger.Level | app/src/main/java/com/idevicesinc/sweetblue/utils/DebugLogger.java:129-148 | the name is "Unknown" exactly for priorities outside 2..7 |
| DebugLoggerProperties.LevelRoundTrip | app/src/main/java/com/idevicesinc/sweetblue/utils/DebugLogger.java:129-148 | priorities 2..7 get six distinct names, each of which maps back to its priority; every other priority has no named inverse |
| DebugLoggerProperties.LogAllThrowsIffNoCapacity | app/src/main/java/com/idevicesinc/sweetblue/utils/DebugLogger.java:65-69 | logging a batch throws exactly when the capacity is 0 and the batch is non-empty; otherwise the logger stays within capacity |
| DebugLoggerProperties.LogHoldsNewestEntries | app/src/main/java/com/idevicesinc/sweetblue/utils/DebugLogger.java:15-18 | with capacity at least 1, after any batch of entries the list is exactly the newest `maxLogSize` entries of everything logged, in order, so its size is `min(maxLogSize, total logged)` |
| DebugLoggerProperties.LastLogIsNewestOfLastLogs | app/src/main/java/com/idevicesinc/sweetblue/utils/DebugLogger.java:72-110 | on a non-empty list `getLastLogs(1)` is exactly `[getLastLog()]`; on an empty one `getLastLog()` is "" and `getLastLogs` returns nothing for any count |
| DebugLoggerProperties.LastLogsOfWholeSizeIsLogList | app/src/main/java/com/idevicesinc/sweetblue/utils/DebugLogger.java:72-119 | asking for at least as many entries as the list holds returns `getLogList()` |
| DebugLoggerProperties.LoopEndValue | app/src/main/java/com/idevicesinc/sweetblue/utils/DebugLogger.java:77-90 | the loop bound computed in `int` arithmetic is `size - min(count, size)`, unless `count <= size - 2^31`, in which case it overflows to a negative value |
| DebugLoggerProperties.PushFromCollects | app/src/main/java/com/idevicesinc/sweetblue/utils/DebugLogger.java:87-95 | pushing from index `start` down to `end` onto the deque front yields `logList[end..start+1]` in original order; a negative `end` makes the loop read index -1 and throw |
| DebugLoggerProperties.LoopAsWrittenVersusIntended | app/src/main/java/com/idevicesinc/sweetblue/utils/DebugLogger.java:87-95 | on a non-empty log, the loop with its `int` bound throws IndexOutOfBounds exactly when `count <= size - 2^31`, and otherwise returns the newest `min(count, size)` entries |
| DebugLoggerProperties.GetLastLogsAsWritten | app/src/main/java/com/idevicesinc/sweetblue/utils/DebugLogger.java:75-98 | the method as written: an empty log gives an empty list; it throws IndexOutOfBounds exactly when the log is non-empty and `count <= size - 2^31`; whenever it returns, it returns what the intended `GetLastLogs` does |
| DebugLoggerProperties.GetLastLogsMinValueThrows | app/src/main/java/com/idevicesinc/sweetblue/utils/DebugLogger.java:87-95 | with one entry, `getLastLogs(Integer.MIN_VALUE)` as written throws IndexOutOfBounds where the intended answer is empty |

## Findings

| source | as written | input that shows it | evidently intended | confidence | as-written member | corrected member |
|---|---|---|---|---|---|---|
| app/src/main/java/com/idevicesinc/sweetblue/utils/DebugLogger.java:88-91 | `count--` and `end = start - count` are `int` arithmetic. For `count <= size - 2^31` they overflow and `end` comes out negative, so the loop calls `logList.get(-1)` | a log with one entry and `count = Integer.MIN_VALUE`, which throws IndexOutOfBoundsException | like every other non-positive count, return an empty list | medium; not executed | DebugLoggerProperties.GetLastLogsMinValueThrows | DebugLogger.GetLastLogs |

`DebugLoggerProperties.GetLastLogsAsWritten` models the method as written. Its
contract, proved through `DebugLoggerProperties.LoopAsWrittenVersusIntended`,
says that it agrees with the corrected `DebugLogger.GetLastLogs` on every count
above `size - 2^31`, and that it throws on every count at or below it when the
log is non-empty. The rest of the model uses
`DebugLogger.GetLastLogs`.

## Left out

- Java `double` arithmetic: durations are exact `real` seconds, with no rounding, NaN or infinity.
- ReconnectManager.OnConnectionFailed: `attemptCount` is an unbounded `nat`. The Java `int` would wrap after 2^31-1 failures in one episode.
- The device reference in `ReconnectLoop.Info` is not modelled. A scheduler belongs to one device, and the policy is a plain function.
- `Interval`, `ReconnectLoop`, `Please` and `ConnectionFailListener.Info` are not part of this model. The policy is an abstract function. A fail info is either NULL or an opaque reason. STOP is modelled as -1.0 seconds; the scheduler only tests whether the value is negative.
- `BleDevice` internals: `attemptReconnect` is a call counter, and `is(BleDeviceState.DISCONNECTED)` is a boolean input to each `update`.
- `BleManager` internals: `pushWakeLock`/`popWakeLock` are counters of pushes and pops.
- The commented-out ASSERTs in `isRunning` have no effect.
- Logging output in `onLogEntry` is I/O. This covers `Log.println`, `System.out.print` under the unit-test flag, `Date` timestamps and `Utils_String.makeString` formatting. Each entry is an opaque string handed to `OnLogEntry` already formatted.
- `getLogList_prettyString`: `Utils_String.prettyFormatLogList` is not part of this model.
- Concurrency is not modelled; the model treats each call as atomic, which the source does not guarantee. `Collections.synchronizedList` locks each list call separately, and `onLogEntry`'s size test, `remove(0)` and `add` are three calls. Two threads that both see `maxLogSize - 1` entries both add, the size becomes `maxLogSize + 1`, the `==` test never holds again and the cap is lost for good.
- NativeBleGattService.java is a null-object wrapper around an Android handle, with no logic of its own.
- DebugLogger.OnLogEntry requires a valid logger: capacity non-negative and size within it. `New` establishes that and every sequential call keeps it, so no logger reachable by sequential calls is excluded; under the concurrent interleaving above the size can exceed the capacity, which the model does not cover.
