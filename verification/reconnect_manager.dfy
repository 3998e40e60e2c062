/** The per-device reconnect scheduler of SweetBlue (`P_ReconnectManager`).

    The scheduler is a record of the four fields the Java class keeps
    (`m_totalTime`, `m_attemptCount`, `m_delay`, `m_timeTracker`) together with
    three counters that record its side effects on collaborators: pushes and pops
    of the manager's wake lock and calls of `BleDevice.attemptReconnect`.
    Every operation is a pure transition from one record to the next; the
    reconnect policy and the device's DISCONNECTED state are parameters. */
module ReconnectManager {
  import opened Wrappers

  /** Value of the time tracker while the scheduler is idle. */
  const NOT_RUNNING: real := -1.0

  /** Seconds of `ReconnectLoop.Please.STOP`; the scheduler only looks at its sign. */
  const STOP_SECS: real := -1.0

  /** `ConnectionFailListener.Info`: `NullInfo` is the `Info.NULL` passed by `start`. */
  datatype FailInfo = NullInfo | Info(reason: string)

  /** `ReconnectLoop.Info`: what the policy is told on every query. */
  datatype ReconnectInfo = ReconnectInfo(
    attemptCount: nat,
    totalTime: real,
    previousDelay: real,
    failInfo: FailInfo)

  /** `ReconnectLoop.Please`: an answer whose interval may be null. */
  datatype Please = Please(interval: Option<real>)

  /** A reconnect policy (`ReconnectLoop.onReconnectRequest`); it may answer null. */
  type ReconnectLoop = ReconnectInfo -> Option<Please>

  /** The `reconnectLoop` of the device config and of the manager config, either possibly null. */
  datatype Config = Config(deviceLoop: Option<ReconnectLoop>, managerLoop: Option<ReconnectLoop>)

  /** The scheduler's fields plus its side-effect counters. */
  datatype Scheduler = Scheduler(
    totalTime: real,
    attemptCount: nat,
    delay: real,
    timeTracker: real,
    wakeLockPushes: nat,
    wakeLockPops: nat,
    reconnectCalls: nat)

  /** `onConnectionFailed`'s boolean answer together with the next state. */
  datatype FailOutcome = FailOutcome(retrying: bool, next: Scheduler)

  /** The state right after construction: Java defaults plus `m_timeTracker = NOT_RUNNING`. */
  function Init(): (s: Scheduler)
    ensures !IsRunning(s) && s.timeTracker == NOT_RUNNING
    ensures s.attemptCount == 0 && s.totalTime == 0.0 && s.delay == 0.0
    ensures s.wakeLockPushes == 0 && s.wakeLockPops == 0 && s.reconnectCalls == 0
  {
    Scheduler(0.0, 0, 0.0, NOT_RUNNING, 0, 0, 0)
  }

  /** `isRunning`: the tracker holds a time, not a negative value; in
      particular the NOT_RUNNING sentinel reads as idle and a freshly re-armed
      tracker of 0 reads as running. */
  function IsRunning(s: Scheduler): (running: bool)
    ensures s.timeTracker == NOT_RUNNING ==> !running
    ensures s.timeTracker == 0.0 ==> running
    ensures running <==> s.timeTracker >= 0.0
  {
    s.timeTracker >= 0.0
  }

  /** The context handed to the policy, built from the current fields. */
  function QueryInfo(s: Scheduler, failInfo: FailInfo): ReconnectInfo {
    ReconnectInfo(s.attemptCount, s.totalTime, s.delay, failInfo)
  }

  /** The device's policy if it has one, else the manager's. */
  function EffectiveLoop(conf: Config): Option<ReconnectLoop> {
    if conf.deviceLoop.Some? then conf.deviceLoop else conf.managerLoop
  }

  /** The delay a policy answer stands for: a null `Please` or a null interval means STOP. */
  function PleaseSecs(answer: Option<Please>): real {
    match answer
    case Some(Please(Some(secs))) => secs
    case _ => STOP_SECS
  }

  /** `getNextTime`: ask the effective policy, falling back to STOP when there is
      no policy or it gives no usable answer. A non-negative delay is only ever the
      effective policy's own answer; everything else reads as STOP. */
  function GetNextTime(conf: Config, info: ReconnectInfo): (secs: real)
    ensures EffectiveLoop(conf).None? ==> secs < 0.0
    ensures EffectiveLoop(conf).Some? && EffectiveLoop(conf).value(info).None? ==> secs < 0.0
    ensures (EffectiveLoop(conf).Some? && EffectiveLoop(conf).value(info).Some?
             && EffectiveLoop(conf).value(info).value.interval.None?) ==> secs < 0.0
    ensures secs >= 0.0 ==>
              EffectiveLoop(conf).Some? && EffectiveLoop(conf).value(info) == Some(Please(Some(secs)))
    ensures forall x :: EffectiveLoop(conf).Some? && EffectiveLoop(conf).value(info) == Some(Please(Some(x)))
              ==> secs == x
  {
    match EffectiveLoop(conf)
    case None => STOP_SECS
    case Some(loop) => PleaseSecs(loop(info))
  }

  /** `start`: push the wake lock unless already running, reset the attempt count and total time,
      ask the policy for the first delay and run only if it is not STOP. */
  function Start(s: Scheduler, conf: Config): (r: Scheduler)
    ensures r.totalTime == 0.0 && r.attemptCount == 0
    ensures r.delay == GetNextTime(conf, ReconnectInfo(0, 0.0, 0.0, NullInfo))
    ensures IsRunning(r) <==> r.delay >= 0.0
    ensures IsRunning(r) ==> r.timeTracker == 0.0
    ensures !IsRunning(r) ==> r.timeTracker == NOT_RUNNING
    ensures r.wakeLockPushes == s.wakeLockPushes + (if IsRunning(s) then 0 else 1)
    ensures r.wakeLockPops == s.wakeLockPops
    ensures r.reconnectCalls == s.reconnectCalls
  {
    var pushes := if !IsRunning(s) then s.wakeLockPushes + 1 else s.wakeLockPushes;
    var reset := s.(totalTime := 0.0, attemptCount := 0, delay := 0.0, timeTracker := 0.0,
                    wakeLockPushes := pushes);
    var delay := GetNextTime(conf, QueryInfo(reset, NullInfo));
    reset.(delay := delay, timeTracker := if delay < 0.0 then NOT_RUNNING else reset.timeTracker)
  }

  /** `stop`: pop the wake lock only if running, go idle and zero the attempt
      count and total time; the last delay is kept. */
  function Stop(s: Scheduler): (r: Scheduler)
    ensures !IsRunning(r) && r.timeTracker == NOT_RUNNING
    ensures r.attemptCount == 0 && r.totalTime == 0.0
    ensures r.delay == s.delay
    ensures r.wakeLockPops == s.wakeLockPops + (if IsRunning(s) then 1 else 0)
    ensures r.wakeLockPushes == s.wakeLockPushes
    ensures r.reconnectCalls == s.reconnectCalls
  {
    var pops := if IsRunning(s) then s.wakeLockPops + 1 else s.wakeLockPops;
    s.(timeTracker := NOT_RUNNING, attemptCount := 0, totalTime := 0.0, wakeLockPops := pops)
  }

  /** `onConnectionFailed`: ignored while idle; otherwise count the attempt, then
      ask the policy (which sees the new count and the previous delay) and either
      re-arm with the new delay or stop. */
  function OnConnectionFailed(s: Scheduler, conf: Config, failInfo: FailInfo): (r: FailOutcome)
    ensures !IsRunning(s) ==> r == FailOutcome(false, s)
    ensures IsRunning(s) ==>
              var d := GetNextTime(conf, ReconnectInfo(s.attemptCount + 1, s.totalTime, s.delay, failInfo));
              && (r.retrying <==> d >= 0.0)
              && (r.retrying ==> r.next == s.(attemptCount := s.attemptCount + 1, delay := d, timeTracker := 0.0))
              && (!r.retrying ==> r.next == Stop(s))
    ensures r.retrying <==> IsRunning(r.next)
  {
    if !IsRunning(s) then
      FailOutcome(false, s)
    else
      var counted := s.(attemptCount := s.attemptCount + 1, timeTracker := 0.0);
      var delay := GetNextTime(conf, QueryInfo(counted, failInfo));
      if delay < 0.0 then
        FailOutcome(false, Stop(counted))
      else
        FailOutcome(true, counted.(delay := delay, timeTracker := 0.0))
  }

  /** `update(timeStep)`: while running, the total time always grows; only while
      the device is DISCONNECTED does the tracker grow, and every such tick whose
      tracker has reached the delay calls `attemptReconnect`. */
  function Update(s: Scheduler, timeStep: real, disconnected: bool): (r: Scheduler)
    ensures !IsRunning(s) ==> r == s
    ensures IsRunning(s) ==> r.totalTime == s.totalTime + timeStep
    ensures r.timeTracker == if IsRunning(s) && disconnected then s.timeTracker + timeStep else s.timeTracker
    ensures r.reconnectCalls ==
              s.reconnectCalls + (if IsRunning(s) && disconnected && s.timeTracker + timeStep >= s.delay then 1 else 0)
    ensures r.attemptCount == s.attemptCount && r.delay == s.delay
    ensures r.wakeLockPushes == s.wakeLockPushes && r.wakeLockPops == s.wakeLockPops
  {
    if !IsRunning(s) then
      s
    else
      var aged := s.(totalTime := s.totalTime + timeStep);
      if !disconnected then
        aged
      else
        var tracked := aged.(timeTracker := aged.timeTracker + timeStep);
        if tracked.timeTracker >= tracked.delay then
          tracked.(reconnectCalls := tracked.reconnectCalls + 1)
        else
          tracked
  }
}
