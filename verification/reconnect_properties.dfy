/** Properties of the reconnect scheduler that relate several calls: the state
    invariant every reachable state keeps, wake-lock accounting, stop
    idempotence, the timing of reconnect attempts, and a few worked scenarios
    checked against the model. */
module ReconnectProperties {
  import opened Wrappers
  import opened ReconnectManager

  /** One call on the scheduler, with the inputs the device supplies at that moment. */
  datatype Op =
    | StartOp(conf: Config)
    | FailedOp(conf: Config, failInfo: FailInfo)
    | UpdateOp(timeStep: real, disconnected: bool)
    | StopOp

  function Apply(s: Scheduler, op: Op): Scheduler {
    match op
    case StartOp(conf) => Start(s, conf)
    case FailedOp(conf, info) => OnConnectionFailed(s, conf, info).next
    case UpdateOp(dt, disconnected) => Update(s, dt, disconnected)
    case StopOp => Stop(s)
  }

  /** The state after a sequence of calls. */
  function Run(s: Scheduler, ops: seq<Op>): Scheduler
    decreases |ops|
  {
    if ops == [] then s else Run(Apply(s, ops[0]), ops[1..])
  }

  /** Time only moves forward: every `update` gets a non-negative step. */
  predicate ForwardSteps(ops: seq<Op>) {
    forall i :: 0 <= i < |ops| ==> (ops[i].UpdateOp? ==> ops[i].timeStep >= 0.0)
  }

  /** Wake locks outstanding on the manager on this scheduler's account. */
  function Outstanding(s: Scheduler): int {
    s.wakeLockPushes - s.wakeLockPops
  }

  /** What holds of every reachable state: the tracker is the sentinel or a
      non-negative time; pops never exceed pushes; a running scheduler holds a
      wake lock and a non-negative delay; an idle one has zero attempt count and total time. */
  ghost predicate Inv(s: Scheduler) {
    && (s.timeTracker == NOT_RUNNING || s.timeTracker >= 0.0)
    && s.wakeLockPops <= s.wakeLockPushes
    && (IsRunning(s) ==> s.wakeLockPops < s.wakeLockPushes && s.delay >= 0.0 && s.totalTime >= 0.0)
    && (!IsRunning(s) ==> s.attemptCount == 0 && s.totalTime == 0.0)
  }

  lemma InitSatisfiesInv()
    ensures Inv(Init())
  {
  }

  /** Each call keeps the invariant, given a non-negative time step. */
  lemma ApplyPreservesInv(s: Scheduler, op: Op)
    requires Inv(s)
    requires op.UpdateOp? ==> op.timeStep >= 0.0
    ensures Inv(Apply(s, op))
  {
  }

  /** Every state reachable by forward-moving calls satisfies the invariant, so
      in particular the tracker is always NOT_RUNNING or non-negative and the
      wake lock is never popped more often than pushed. */
  lemma {:induction false} RunPreservesInv(s: Scheduler, ops: seq<Op>)
    requires Inv(s)
    requires ForwardSteps(ops)
    ensures Inv(Run(s, ops))
    ensures Run(s, ops).wakeLockPops <= Run(s, ops).wakeLockPushes
    decreases |ops|
  {
    if ops != [] {
      assert ops[0].UpdateOp? ==> ops[0].timeStep >= 0.0;
      ApplyPreservesInv(s, ops[0]);
      assert ForwardSteps(ops[1..]) by {
        forall i | 0 <= i < |ops[1..]|
          ensures ops[1..][i].UpdateOp? ==> ops[1..][i].timeStep >= 0.0
        {
          assert ops[1..][i] == ops[i + 1];
        }
      }
      RunPreservesInv(Apply(s, ops[0]), ops[1..]);
    }
  }

  /** The number of `attemptReconnect` calls never goes down, and only `update`
      ticks add to it. */
  lemma {:induction false} ReconnectCallsOnlyFromUpdates(s: Scheduler, ops: seq<Op>)
    ensures Run(s, ops).reconnectCalls >= s.reconnectCalls
    ensures (forall i :: 0 <= i < |ops| ==> !ops[i].UpdateOp?) ==> Run(s, ops).reconnectCalls == s.reconnectCalls
    decreases |ops|
  {
    if ops != [] {
      ReconnectCallsOnlyFromUpdates(Apply(s, ops[0]), ops[1..]);
      if forall i :: 0 <= i < |ops| ==> !ops[i].UpdateOp? {
        assert forall i :: 0 <= i < |ops[1..]| ==> !ops[1..][i].UpdateOp? by {
          forall i | 0 <= i < |ops[1..]| ensures !ops[1..][i].UpdateOp? {
            assert ops[1..][i] == ops[i + 1];
          }
        }
      }
    }
  }

  /** A second `stop` changes nothing: no second pop, and the attempt count and total time stay zero. */
  lemma StopIsIdempotent(s: Scheduler)
    ensures Stop(Stop(s)) == Stop(s)
    ensures Stop(Stop(s)).wakeLockPops == Stop(s).wakeLockPops
    ensures Stop(Stop(s)).attemptCount == 0 && Stop(Stop(s)).totalTime == 0.0
  {
  }

  /** A started episode that is later stopped leaves the wake-lock balance as it
      found it, provided the policy did not answer STOP at start. */
  lemma StartThenStopIsBalanced(s: Scheduler, conf: Config)
    requires !IsRunning(s)
    requires GetNextTime(conf, ReconnectInfo(0, 0.0, 0.0, NullInfo)) >= 0.0
    ensures IsRunning(Start(s, conf))
    ensures Outstanding(Stop(Start(s, conf))) == Outstanding(s)
  {
  }

  /** As written, `start` under a STOP policy pushes the wake lock (when idle) and
      then goes idle without popping it, so a later `stop` cannot release it:
      one push stays outstanding. */
  lemma StartUnderStopPolicyLeaksWakeLock(s: Scheduler, conf: Config)
    requires !IsRunning(s)
    requires GetNextTime(conf, ReconnectInfo(0, 0.0, 0.0, NullInfo)) < 0.0
    ensures !IsRunning(Start(s, conf))
    ensures Outstanding(Start(s, conf)) == Outstanding(s) + 1
    ensures Outstanding(Stop(Start(s, conf))) == Outstanding(s) + 1
  {
  }

  /** A `start` under a STOP policy made while an episode is running also
      leaks: the episode's push is never popped, since the scheduler goes idle
      without `stop` and a later `stop` sees it idle. */
  lemma StartUnderStopPolicyWhileRunningLeaks(s: Scheduler, conf: Config)
    requires Inv(s) && IsRunning(s)
    requires GetNextTime(conf, ReconnectInfo(0, 0.0, 0.0, NullInfo)) < 0.0
    ensures !IsRunning(Start(s, conf))
    ensures Outstanding(Stop(Start(s, conf))) == Outstanding(s) >= 1
  {
  }

  /** In a reachable state the scheduler is idle exactly when the tracker holds
      the NOT_RUNNING sentinel. */
  lemma IdleIffSentinel(s: Scheduler)
    requires Inv(s)
    ensures !IsRunning(s) <==> s.timeTracker == NOT_RUNNING
  {
  }

  /** With no policy configured anywhere, `start` never runs. */
  lemma NoPolicyNeverRuns(s: Scheduler)
    ensures !IsRunning(Start(s, Config(None, None)))
  {
  }

  /** The device's policy takes precedence: whatever the manager's is, the
      device's answer decides. */
  lemma DevicePolicyOverridesManager(device: ReconnectLoop, manager: Option<ReconnectLoop>, info: ReconnectInfo)
    ensures GetNextTime(Config(Some(device), manager), info) == GetNextTime(Config(Some(device), None), info)
    ensures GetNextTime(Config(None, Some(device)), info) == GetNextTime(Config(Some(device), manager), info)
  {
  }

  /** A zero first delay does not fire during `start`; it fires on the first
      disconnected tick. */
  lemma ZeroDelayFiresOnFirstDisconnectedTick(s: Scheduler, conf: Config, dt: real)
    requires GetNextTime(conf, ReconnectInfo(0, 0.0, 0.0, NullInfo)) == 0.0
    requires dt >= 0.0
    ensures Start(s, conf).reconnectCalls == s.reconnectCalls
    ensures Update(Start(s, conf), dt, true).reconnectCalls == s.reconnectCalls + 1
  {
  }

  /** While the device is not DISCONNECTED no tick fires, however much time
      passes and even with a zero delay; only the total time advances. */
  lemma {:induction false} NoFireWhileConnected(s: Scheduler, steps: seq<real>)
    ensures UpdateAll(s, steps, false).reconnectCalls == s.reconnectCalls
    ensures UpdateAll(s, steps, false).timeTracker == s.timeTracker
    ensures IsRunning(UpdateAll(s, steps, false)) == IsRunning(s)
    decreases |steps|
  {
    if steps != [] {
      NoFireWhileConnected(Update(s, steps[0], false), steps[1..]);
    }
  }

  /** A run of `update` calls under one device state. */
  function UpdateAll(s: Scheduler, steps: seq<real>, disconnected: bool): Scheduler
    decreases |steps|
  {
    if steps == [] then s else UpdateAll(Update(s, steps[0], disconnected), steps[1..], disconnected)
  }

  /** As written, `update` fires on every disconnected tick once the tracker has
      reached the delay, not only on the tick that crosses it. */
  lemma FiresOnEveryTickPastDelay(s: Scheduler, dt1: real, dt2: real)
    requires IsRunning(s)
    requires dt1 >= 0.0 && dt2 >= 0.0
    requires s.timeTracker + dt1 >= s.delay
    ensures Update(s, dt1, true).reconnectCalls == s.reconnectCalls + 1
    ensures Update(Update(s, dt1, true), dt2, true).reconnectCalls == s.reconnectCalls + 2
  {
  }

  /** A negative time step can drive a running tracker below zero, which ends the
      episode without a `stop`: the tracker is neither NOT_RUNNING nor a time and
      the wake lock stays pushed. The invariant therefore assumes forward steps. */
  lemma NegativeStepBreaksInv()
    ensures var s := Start(Init(), Config(Some((_: ReconnectInfo) => Some(Please(Some(5.0)))), None));
            var r := Update(s, -0.5, true);
            && Inv(s) && !Inv(r) && !IsRunning(r) && Outstanding(r) == 1
  {
  }

  /** Threshold crossing with a 5 s delay: ticks of 4.9 s then 0.2 s fire once. */
  lemma ThresholdCrossing(conf: Config)
    requires GetNextTime(conf, ReconnectInfo(0, 0.0, 0.0, NullInfo)) == 5.0
    ensures var s := Start(Init(), conf);
            && Update(s, 4.9, true).reconnectCalls == 0
            && Update(Update(s, 4.9, true), 0.2, true).reconnectCalls == 1
  {
  }

  /** The policy `attemptCount * 1 s`: three consecutive failures schedule
      delays of 1 s, 2 s and 3 s, because the policy sees the incremented count. */
  lemma BackoffPropagation(info: FailInfo)
    ensures var conf := Config(Some((i: ReconnectInfo) => Some(Please(Some(i.attemptCount as real)))), None);
            var s0 := Start(Init(), conf);
            var f1 := OnConnectionFailed(s0, conf, info);
            var f2 := OnConnectionFailed(f1.next, conf, info);
            var f3 := OnConnectionFailed(f2.next, conf, info);
            && f1.retrying && f1.next.delay == 1.0
            && f2.retrying && f2.next.delay == 2.0
            && f3.retrying && f3.next.delay == 3.0 && f3.next.attemptCount == 3
  {
  }

  /** The policy that waits 2 s for attempts 0 to 2 and then answers STOP: three
      fired attempts, and the third failure stops the scheduler and pops the lock. */
  lemma StopOnThirdFailure(info: FailInfo)
    ensures var conf := Config(None, Some((i: ReconnectInfo) =>
                          if i.attemptCount < 3 then Some(Please(Some(2.0))) else Some(Please(None))));
            var s0 := Start(Init(), conf);
            var t1 := Update(s0, 2.0, true);
            var f1 := OnConnectionFailed(t1, conf, info);
            var t2 := Update(f1.next, 2.0, true);
            var f2 := OnConnectionFailed(t2, conf, info);
            var t3 := Update(f2.next, 2.0, true);
            var f3 := OnConnectionFailed(t3, conf, info);
            && IsRunning(s0) && s0.delay == 2.0
            && t1.reconnectCalls == 1 && f1.retrying && f1.next.attemptCount == 1
            && t2.reconnectCalls == 2 && f2.retrying && f2.next.attemptCount == 2
            && t3.reconnectCalls == 3 && !f3.retrying && !IsRunning(f3.next)
            && Outstanding(f3.next) == 0
  {
  }

  /** A new episode starts from zero whatever the old one had accumulated. */
  lemma EpisodeReset(s: Scheduler, conf: Config)
    ensures Start(Stop(s), conf).attemptCount == 0
    ensures Start(Stop(s), conf).totalTime == 0.0
    ensures Outstanding(Start(Stop(s), conf)) == Outstanding(s) + (if IsRunning(s) then 0 else 1)
  {
  }
}
