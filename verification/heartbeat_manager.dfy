/**
  The standalone `HeartbeatManager` singleton: a session record, one
  pending `setTimeout`, and the engaged-time accounting done when it fires.
  Real time enters only as the `now` argument (milliseconds); the pending
  timer is the instant it was scheduled to fire.

  Unlike the hook-based engine, this one never ends a session by itself:
  every firing counts as a heartbeat (adding 0 s when the user was not
  engaged) and schedules the next one.
 */
module HeartbeatManager {
  import opened JsSemantics
  import opened HeartbeatConfig

  datatype Manager = Manager(
    pendingDue: Option<real>,     // the scheduled `sendHeartbeat`, if any, and when it is due
    isActive: bool,
    config: Config,
    lastHeartbeat: int,
    totalEngagedTime: int,
    sessionStart: int,
    lastActivity: int,
    heartbeatCount: nat)

  /** The singleton as constructed: inactive, nothing scheduled, default configuration, everything 0. */
  const Initial: Manager := Manager(None, false, Default, 0, 0, 0, 0, 0)

  /** The live session and the scheduled timer go together. */
  ghost predicate Valid(m: Manager) {
    m.isActive <==> m.pendingDue.Some?
  }

  /** `updateConfig`: overlay the supplied keys; the session and a pending timer are untouched. */
  function UpdateConfig(m: Manager, p: ConfigPatch): (r: Manager)
    ensures r.config.enableHeartbeats == p.enableHeartbeats.GetOr(m.config.enableHeartbeats)
    ensures r.config.secondsBetweenHeartbeats == p.secondsBetweenHeartbeats.GetOr(m.config.secondsBetweenHeartbeats)
    ensures r.config.activeTimeout == p.activeTimeout.GetOr(m.config.activeTimeout)
    ensures r.config.hasOnHeartbeat == p.onHeartbeat.GetOr(m.config.hasOnHeartbeat)
    ensures r.config.videoPlaying == p.videoPlaying.GetOr(m.config.videoPlaying)
    ensures r.(config := m.config) == m
  {
    m.(config := Apply(m.config, p))
  }

  /** `scheduleNextHeartbeat`: only a live session gets a timer, due one interval from now. */
  function ScheduleNext(m: Manager, now: int): (r: Manager)
    ensures !m.isActive ==> r == m
    ensures m.isActive ==> r.pendingDue == Some(now as real + IntervalMs(m.config))
    ensures r.(pendingDue := m.pendingDue) == m
  {
    if !m.isActive then m else m.(pendingDue := Some(now as real + IntervalMs(m.config)))
  }

  /** `start`: a fresh session at `now`, unless one is live or heartbeats are disabled. */
  function Start(m: Manager, now: nat): (r: Manager)
    ensures m.isActive || !m.config.enableHeartbeats ==> r == m
    ensures !m.isActive && m.config.enableHeartbeats ==>
      && r.isActive
      && r.sessionStart == now && r.lastHeartbeat == now && r.lastActivity == now
      && r.totalEngagedTime == 0 && r.heartbeatCount == 0
      && r.pendingDue == Some(now as real + IntervalMs(m.config))
      && r.config == m.config
  {
    if m.isActive || !m.config.enableHeartbeats then m
    else
      var begun := m.(isActive := true, sessionStart := now, lastHeartbeat := now,
                      lastActivity := now, totalEngagedTime := 0, heartbeatCount := 0);
      ScheduleNext(begun, now)
  }

  /** `stop`: cancel the timer and end the session; a stopped manager is left as it is. */
  function Stop(m: Manager): (r: Manager)
    ensures !r.isActive
    ensures !m.isActive ==> r == m
    ensures m.isActive ==> r == m.(isActive := false, pendingDue := None)
  {
    if !m.isActive then m else m.(pendingDue := None, isActive := false)
  }

  /** `recordActivity`: stamps the activity time, live session or not, and nothing else. */
  function RecordActivity(m: Manager, now: nat): (r: Manager)
    ensures r.lastActivity == now
    ensures r.(lastActivity := m.lastActivity) == m
  {
    m.(lastActivity := now)
  }

  /** The engagement test of `sendHeartbeat`: video, or activity within the timeout. There is no scrolling term. */
  predicate Engaged(c: Config, lastActivity: int, now: int) {
    c.videoPlaying || (now - lastActivity) as real <= ActiveTimeoutMs(c)
  }

  /** `isEngaged ? (elapsed / 1000) | 0 : 0`. */
  function EngagedIncrement(engaged: bool, elapsed: int): (inc: int)
    ensures !engaged ==> inc == 0
    ensures engaged && 0 <= elapsed < TwoTo31 * 1000 ==> inc == elapsed / 1000
    ensures engaged && -TwoTo31 * 1000 < elapsed < 0 ==> inc == -((-elapsed) / 1000) && inc <= 0
  {
    if engaged then ToInt32(TruncDiv(elapsed, 1000)) else 0
  }

  /** The state after a firing and the value passed to `onHeartbeat`, if the callback is set. */
  datatype Beat = Beat(manager: Manager, emitted: Option<int>)

  /**
    `sendHeartbeat`: for a live session, add the engaged increment, stamp the
    heartbeat, count it and schedule the next one; otherwise do nothing.
   */
  function SendHeartbeat(m: Manager, now: nat): (b: Beat)
    ensures !m.isActive ==> b == Beat(m, None)
    ensures m.isActive ==>
      var inc := EngagedIncrement(Engaged(m.config, m.lastActivity, now), now - m.lastHeartbeat);
      && b.manager.isActive
      && b.manager.totalEngagedTime == m.totalEngagedTime + inc
      && b.manager.lastHeartbeat == now
      && b.manager.heartbeatCount == m.heartbeatCount + 1
      && b.manager.pendingDue == Some(now as real + IntervalMs(m.config))
      && b.manager.(totalEngagedTime := m.totalEngagedTime, lastHeartbeat := m.lastHeartbeat,
                    heartbeatCount := m.heartbeatCount, pendingDue := m.pendingDue) == m
      && b.emitted == (if m.config.hasOnHeartbeat then Some(inc) else None)
  {
    if !m.isActive then Beat(m, None)
    else
      var engaged := Engaged(m.config, m.lastActivity, now);
      var inc := EngagedIncrement(engaged, now - m.lastHeartbeat);
      var counted := m.(totalEngagedTime := m.totalEngagedTime + inc, lastHeartbeat := now,
                        heartbeatCount := m.heartbeatCount + 1);
      Beat(ScheduleNext(counted, now), if m.config.hasOnHeartbeat then Some(inc) else None)
  }

  /** The pending timer fires at `now` (it is consumed first); with no timer pending nothing happens. */
  function TimerFires(m: Manager, now: nat): (b: Beat)
    ensures m.pendingDue.None? ==> b == Beat(m, None)
    ensures m.pendingDue.Some? && !m.isActive ==> b.manager == m.(pendingDue := None) && b.emitted.None?
  {
    if m.pendingDue.None? then Beat(m, None)
    else SendHeartbeat(m.(pendingDue := None), now)
  }

  datatype Stats = Stats(isActive: bool, heartbeatCount: nat, totalEngagedTime: int, lastActivity: int, sessionStart: int)

  /** `getStats`: a read-only snapshot of the session. */
  function GetStats(m: Manager): (s: Stats)
    ensures s.isActive == m.isActive && s.heartbeatCount == m.heartbeatCount
    ensures s.totalEngagedTime == m.totalEngagedTime
    ensures s.lastActivity == m.lastActivity && s.sessionStart == m.sessionStart
  {
    Stats(m.isActive, m.heartbeatCount, m.totalEngagedTime, m.lastActivity, m.sessionStart)
  }

  /** `reset`: zero both counters and restamp the three times; activity, timer and configuration stay. */
  function Reset(m: Manager, now: nat): (r: Manager)
    ensures r.heartbeatCount == 0 && r.totalEngagedTime == 0
    ensures r.sessionStart == now && r.lastActivity == now && r.lastHeartbeat == now
    ensures r.isActive == m.isActive && r.config == m.config && r.pendingDue == m.pendingDue
  {
    m.(heartbeatCount := 0, totalEngagedTime := 0, sessionStart := now, lastActivity := now, lastHeartbeat := now)
  }

  // ---------------------------------------------------------------------------
  // The manager as a state machine over calls and timer firings.

  datatype Event =
    | UpdateConfigCall(patch: ConfigPatch)
    | StartCall(now: nat)
    | StopCall
    | ActivityCall(now: nat)
    | TimerFired(now: nat)
    | ResetCall(now: nat)

  function Step(m: Manager, e: Event): Manager {
    match e
    case UpdateConfigCall(p) => UpdateConfig(m, p)
    case StartCall(now) => Start(m, now)
    case StopCall => Stop(m)
    case ActivityCall(now) => RecordActivity(m, now)
    case TimerFired(now) => TimerFires(m, now).manager
    case ResetCall(now) => Reset(m, now)
  }

  function Run(m: Manager, es: seq<Event>): Manager
    decreases |es|
  {
    if |es| == 0 then m else Run(Step(m, es[0]), es[1..])
  }

  /** Every call and firing keeps "a timer is pending exactly while the session is live". */
  lemma StepKeepsValid(m: Manager, e: Event)
    requires Valid(m)
    ensures Valid(Step(m, e))
  {
  }

  /** So at most one timer is ever pending, and none once stopped, along any run from the initial state. */
  lemma {:induction false} RunKeepsValid(m: Manager, es: seq<Event>)
    requires Valid(m)
    ensures Valid(Run(m, es))
    decreases |es|
  {
    if |es| > 0 {
      StepKeepsValid(m, es[0]);
      RunKeepsValid(Step(m, es[0]), es[1..]);
    }
  }

  lemma InitialIsValid()
    ensures Valid(Initial) && !Initial.isActive
  {
  }

  /** Starting twice is starting once; stopping twice is stopping once. */
  lemma StartStopIdempotent(m: Manager, now: nat, later: nat)
    ensures Start(Start(m, now), later) == Start(m, now)
    ensures Stop(Stop(m)) == Stop(m)
  {
  }

  /** A firing with no live session changes nothing and schedules nothing. */
  lemma InactiveFiringIsInert(m: Manager, now: nat)
    requires Valid(m) && !m.isActive
    ensures TimerFires(m, now) == Beat(m, None)
    ensures SendHeartbeat(m, now) == Beat(m, None)
  {
  }

  /** The session never ends itself: a firing keeps it live and pending, engaged or not. */
  lemma FiringNeverDeactivates(m: Manager, now: nat)
    requires Valid(m) && m.isActive
    ensures TimerFires(m, now).manager.isActive
    ensures TimerFires(m, now).manager.pendingDue == Some(now as real + IntervalMs(m.config))
  {
  }

  /** The clock has not gone back since the last heartbeat, nor run for 68 years. */
  predicate ClockForward(lastHeartbeat: int, now: int) {
    0 <= now - lastHeartbeat < TwoTo31 * 1000
  }

  /** Neither counter drops on any call or firing other than `reset`, provided the clock moves forward. */
  lemma CountersNeverDecrease(m: Manager, e: Event)
    requires !e.ResetCall?
    requires e.TimerFired? ==> ClockForward(m.lastHeartbeat, e.now)
    requires Valid(m)
    ensures Step(m, e).totalEngagedTime >= m.totalEngagedTime || e.StartCall?
    ensures Step(m, e).heartbeatCount >= m.heartbeatCount || e.StartCall?
    ensures e.StartCall? && m.isActive ==> Step(m, e) == m
  {
  }

  /** A live firing adds exactly the whole seconds since the last heartbeat when engaged, and 0 otherwise. */
  lemma FiringIncrement(m: Manager, now: nat)
    requires Valid(m) && m.isActive && ClockForward(m.lastHeartbeat, now)
    ensures var r := TimerFires(m, now).manager;
      r.totalEngagedTime - m.totalEngagedTime ==
        (if Engaged(m.config, m.lastActivity, now) then (now - m.lastHeartbeat) / 1000 else 0)
  {
  }

  /** Whole seconds of the successive gaps between `start` and each firing time. */
  function GapSeconds(start: int, times: seq<nat>): int
    decreases |times|
  {
    if |times| == 0 then 0 else (times[0] - start) / 1000 + GapSeconds(times[0], times[1..])
  }

  predicate GapsForward(start: int, times: seq<nat>)
    decreases |times|
  {
    |times| == 0 || (ClockForward(start, times[0]) && GapsForward(times[0], times[1..]))
  }

  function FireAll(m: Manager, times: seq<nat>): Manager
    decreases |times|
  {
    if |times| == 0 then m else FireAll(TimerFires(m, times[0]).manager, times[1..])
  }

  /**
    No double counting: when every firing of a run is engaged (by a playing
    video or by activity within the timeout; firings change neither), the
    run adds exactly the sum of the whole seconds of each gap, and counts
    one heartbeat per firing.
   */
  lemma {:induction false} EngagedFiringsSumGaps(m: Manager, times: seq<nat>)
    requires Valid(m) && m.isActive
    requires forall k :: 0 <= k < |times| ==> Engaged(m.config, m.lastActivity, times[k])
    requires GapsForward(m.lastHeartbeat, times)
    ensures FireAll(m, times).totalEngagedTime == m.totalEngagedTime + GapSeconds(m.lastHeartbeat, times)
    ensures FireAll(m, times).heartbeatCount == m.heartbeatCount + |times|
    ensures FireAll(m, times).isActive
    decreases |times|
  {
    if |times| > 0 {
      var next := TimerFires(m, times[0]).manager;
      FiringIncrement(m, times[0]);
      assert next.config == m.config && next.lastActivity == m.lastActivity;
      assert forall k :: 0 <= k < |times[1..]| ==> times[1..][k] == times[k + 1];
      EngagedFiringsSumGaps(next, times[1..]);
    }
  }

  /**
    Seen through `getStats`, a run of timer firings in a live session with a
    forward clock counts one heartbeat per firing, never lowers the engaged
    time, and keeps the session live with its start and activity times.
   */
  lemma {:induction false} FiringsSeenThroughStats(m: Manager, times: seq<nat>)
    requires Valid(m) && m.isActive
    requires GapsForward(m.lastHeartbeat, times)
    ensures var a := GetStats(m); var b := GetStats(FireAll(m, times));
      && b.heartbeatCount == a.heartbeatCount + |times|
      && b.totalEngagedTime >= a.totalEngagedTime
      && b.isActive
      && b.sessionStart == a.sessionStart && b.lastActivity == a.lastActivity
    decreases |times|
  {
    if |times| > 0 {
      var next := TimerFires(m, times[0]).manager;
      FiringIncrement(m, times[0]);
      assert next.sessionStart == m.sessionStart && next.lastActivity == m.lastActivity;
      FiringsSeenThroughStats(next, times[1..]);
    }
  }

  /**
    With a 5 s timeout and a 10 s interval and no activity after `start` at 0,
    the firing at 10 s is not engaged, yet the session stays live and the
    heartbeat is counted, adding 0 s.
   */
  lemma IdleSessionKeepsBeating()
    ensures var c := Apply(Default, ConfigPatch(None, Some(10.0), Some(5.0), None, None));
      var started := Start(Initial.(config := c), 0);
      var fired := TimerFires(started, 10000);
      && started.pendingDue == Some(10000.0)
      && fired.manager.isActive
      && fired.manager.heartbeatCount == 1
      && fired.manager.totalEngagedTime == 0
      && fired.emitted == Some(0)
  {
  }
}
