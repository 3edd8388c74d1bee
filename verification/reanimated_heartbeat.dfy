/**
  The state logic of the `useReanimatedHeartbeat` hook, with React state,
  refs and Reanimated shared values flattened into one record and every
  update applied synchronously.

  Unlike `HeartbeatManager`, this engine ends the session at the first check
  that finds the user not engaged, and `startHeartbeat` runs a check at
  once. The hook keeps one timer handle (`heartbeatTimer`); a check that is
  scheduled while the held one is still pending overwrites the handle, and
  the earlier check stays scheduled with nothing left to cancel it. Such
  checks are counted in `orphanChecks`.
 */
module ReanimatedHeartbeat {
  import opened JsSemantics
  import opened HeartbeatConfig
  import HeartbeatDebug

  /** What `heartbeatTimer` holds: nothing, a check not yet run (due at `due`), or one that has fired. */
  datatype TimerHandle = NoHandle | PendingCheck(due: real) | FiredCheck

  datatype Hook = Hook(
    config: Config,
    tracked: TimerHandle,
    orphanChecks: nat,
    lastActivity: int,
    sessionStart: int,
    isActive: bool,
    lastHeartbeatSent: int,
    totalEngagedTime: int,
    totalActivities: nat,
    totalHeartbeats: nat)

  /** Every scheduled check that has not run yet, held or orphaned. */
  function PendingChecks(h: Hook): nat {
    h.orphanChecks + (if h.tracked.PendingCheck? then 1 else 0)
  }

  /** The hook as first rendered at `now` with the props `p` over the defaults. */
  function Mount(p: ConfigPatch, now: nat): (h: Hook)
    ensures h.config == Apply(Default, p)
    ensures !h.isActive && PendingChecks(h) == 0
    ensures h.lastActivity == now && h.sessionStart == now && h.lastHeartbeatSent == now
    ensures h.totalEngagedTime == 0 && h.totalActivities == 0 && h.totalHeartbeats == 0
  {
    Hook(Apply(Default, p), NoHandle, 0, now, now, false, now, 0, 0, 0)
  }

  /** The inner `recordActivity`: stamp the activity, count it, and mark the session live. */
  function RecordActivityInner(h: Hook, now: nat): (r: Hook)
    ensures r.lastActivity == now && r.isActive
    ensures r.totalActivities == h.totalActivities + 1
    ensures r.(lastActivity := h.lastActivity, isActive := h.isActive, totalActivities := h.totalActivities) == h
  {
    h.(lastActivity := now, totalActivities := h.totalActivities + 1, isActive := true)
  }

  /**
    The `recordActivity` the hook returns: nothing when heartbeats are
    disabled. It never schedules a check, so a session it revives after an
    inactivity stop has no check pending.
   */
  function RecordActivity(h: Hook, now: nat): (r: Hook)
    ensures !h.config.enableHeartbeats ==> r == h
    ensures h.config.enableHeartbeats ==> r == RecordActivityInner(h, now)
    ensures PendingChecks(r) == PendingChecks(h)
  {
    if !h.config.enableHeartbeats then h else RecordActivityInner(h, now)
  }

  /** The engagement formula: video playing, scrolling, or activity within the timeout. */
  predicate Engaged(c: Config, lastActivity: int, now: int, scrolling: bool) {
    c.videoPlaying || scrolling || (now - lastActivity) as real <= ActiveTimeoutMs(c)
  }

  /** Drop the held handle, cancelling the check it names if that one has not run. */
  function ClearTracked(h: Hook): (r: Hook)
    ensures r.tracked == NoHandle && r.orphanChecks == h.orphanChecks
    ensures PendingChecks(r) == h.orphanChecks
  {
    h.(tracked := NoHandle)
  }

  /** `setValue(heartbeatTimer, setTimeout(...))`: a new check due one interval from now; a held pending one is orphaned. */
  function ScheduleCheck(h: Hook, now: int): (r: Hook)
    ensures r.tracked == PendingCheck(now as real + IntervalMs(h.config))
    ensures PendingChecks(r) == PendingChecks(h) + 1
  {
    h.(tracked := PendingCheck(now as real + IntervalMs(h.config)),
       orphanChecks := h.orphanChecks + (if h.tracked.PendingCheck? then 1 else 0))
  }

  /** The state after a check and the value handed to `onHeartbeat` (when the callback is set). */
  datatype Checked = Checked(hook: Hook, heartbeat: Option<int>)

  /**
    `performHeartbeatCheckInternal`. Not engaged: the session ends, the held
    timer is cleared, nothing is sent and no counter moves. Engaged: the
    whole seconds since the last heartbeat are added, the heartbeat is
    stamped and counted, the same increment goes to `onHeartbeat`, and the
    next check is scheduled.
   */
  function CheckInternal(h: Hook, now: nat, scrolling: bool): (c: Checked)
    ensures !Engaged(h.config, h.lastActivity, now, scrolling) ==>
      c == Checked(h.(isActive := false, tracked := NoHandle), None)
    ensures Engaged(h.config, h.lastActivity, now, scrolling) ==>
      var inc := FloorDiv(now - h.lastHeartbeatSent, 1000);
      && c.hook.totalEngagedTime == h.totalEngagedTime + inc
      && c.hook.lastHeartbeatSent == now
      && c.hook.totalHeartbeats == h.totalHeartbeats + 1
      && c.hook.tracked == PendingCheck(now as real + IntervalMs(h.config))
      && PendingChecks(c.hook) == PendingChecks(h) + 1
      && c.hook.isActive == h.isActive
      && c.heartbeat == (if h.config.hasOnHeartbeat then Some(inc) else None)
  {
    if !Engaged(h.config, h.lastActivity, now, scrolling) then
      Checked(ClearTracked(h).(isActive := false), None)
    else
      var inc := FloorDiv(now - h.lastHeartbeatSent, 1000);
      var counted := h.(totalEngagedTime := h.totalEngagedTime + inc, lastHeartbeatSent := now,
                        totalHeartbeats := h.totalHeartbeats + 1);
      Checked(ScheduleCheck(counted, now), if h.config.hasOnHeartbeat then Some(inc) else None)
  }

  /** `performHeartbeatCheck`, the timer path: scroll detection is not wired in, so it always passes `false`. */
  function PerformCheck(h: Hook, now: nat): (c: Checked)
    ensures !h.config.videoPlaying && (now - h.lastActivity) as real > ActiveTimeoutMs(h.config) ==>
      !c.hook.isActive && c.heartbeat.None? && c.hook.totalHeartbeats == h.totalHeartbeats
  {
    CheckInternal(h, now, false)
  }

  /** The held check fires; with no held pending check nothing happens. */
  function TrackedCheckFires(h: Hook, now: nat): (c: Checked)
    ensures !h.tracked.PendingCheck? ==> c == Checked(h, None)
    ensures h.tracked.PendingCheck? ==> c == PerformCheck(h.(tracked := FiredCheck), now)
  {
    if h.tracked.PendingCheck? then PerformCheck(h.(tracked := FiredCheck), now) else Checked(h, None)
  }

  /** An orphaned check fires; it runs the same check, session live or not. */
  function OrphanCheckFires(h: Hook, now: nat): (c: Checked)
    ensures h.orphanChecks == 0 ==> c == Checked(h, None)
    ensures h.orphanChecks > 0 ==> c == PerformCheck(h.(orphanChecks := h.orphanChecks - 1), now)
  {
    if h.orphanChecks > 0 then PerformCheck(h.(orphanChecks := h.orphanChecks - 1), now) else Checked(h, None)
  }

  /** The state after `startHeartbeat`, the url handed to `startEngagement` (if any), and the first check's heartbeat. */
  datatype Started = Started(hook: Hook, engagementUrl: Option<string>, heartbeat: Option<int>)

  /**
    `startHeartbeat(url?)`: nothing when disabled. Otherwise start native
    engagement for a truthy url, mark the session live with `sessionStart`
    and `lastActivity` at now (but leave `lastHeartbeatSent` alone), and run
    a check at once. It does not look at `isActive` or at the held timer.
   */
  function StartHeartbeat(h: Hook, now: nat, url: Option<string>): (s: Started)
    ensures !h.config.enableHeartbeats ==> s == Started(h, None, None)
    ensures h.config.enableHeartbeats ==>
      && s.engagementUrl == (if Truthy(url) then url else None)
      && s.hook.sessionStart == now && s.hook.lastActivity == now
      && s.hook.totalActivities == h.totalActivities
    ensures h.config.enableHeartbeats && h.config.activeTimeout >= 0.0 ==>
      var inc := FloorDiv(now - h.lastHeartbeatSent, 1000);
      && s.hook.isActive
      && s.hook.totalEngagedTime == h.totalEngagedTime + inc
      && s.hook.totalHeartbeats == h.totalHeartbeats + 1
      && s.hook.lastHeartbeatSent == now
      && PendingChecks(s.hook) == PendingChecks(h) + 1
      && s.heartbeat == (if h.config.hasOnHeartbeat then Some(inc) else None)
  {
    if !h.config.enableHeartbeats then Started(h, None, None)
    else
      var live := h.(isActive := true, sessionStart := now, lastActivity := now);
      var c := PerformCheck(live, now);
      Started(c.hook, if Truthy(url) then url else None, c.heartbeat)
  }

  /** The state after `stopHeartbeat` and whether native `stopEngagement` was called. */
  datatype Stopped = Stopped(hook: Hook, engagementStopped: bool)

  /** `stopHeartbeat`: nothing when disabled; otherwise stop native engagement, end the session and clear the held timer. */
  function StopHeartbeat(h: Hook): (s: Stopped)
    ensures !h.config.enableHeartbeats ==> s == Stopped(h, false)
    ensures h.config.enableHeartbeats ==>
      && s.engagementStopped && !s.hook.isActive
      && s.hook.tracked == NoHandle
      && PendingChecks(s.hook) == h.orphanChecks
      && s.hook.(isActive := h.isActive, tracked := h.tracked) == h
  {
    if !h.config.enableHeartbeats then Stopped(h, false)
    else Stopped(ClearTracked(h).(isActive := false), true)
  }

  // ---------------------------------------------------------------------------
  // startHeartbeat as evidently intended.

  /**
    `startHeartbeat` with the two repairs it evidently needs: the held timer
    is cleared before the new loop is scheduled, and `lastHeartbeatSent` is
    restamped so the first heartbeat counts no time from before the start.
   */
  function StartHeartbeatFixed(h: Hook, now: nat, url: Option<string>): (s: Started)
    ensures !h.config.enableHeartbeats ==> s == Started(h, None, None)
    ensures h.config.enableHeartbeats ==>
      && s.engagementUrl == (if Truthy(url) then url else None)
      && s.hook.sessionStart == now && s.hook.lastActivity == now && s.hook.lastHeartbeatSent == now
      && s.hook.totalEngagedTime == h.totalEngagedTime
      && s.hook.orphanChecks == h.orphanChecks
      && s.hook.config == h.config
    ensures h.config.enableHeartbeats && h.config.activeTimeout >= 0.0 ==>
      && s.hook.isActive && s.hook.totalHeartbeats == h.totalHeartbeats + 1
      && PendingChecks(s.hook) == h.orphanChecks + 1
      && s.heartbeat == (if h.config.hasOnHeartbeat then Some(0) else None)
  {
    if !h.config.enableHeartbeats then Started(h, None, None)
    else
      var live := ClearTracked(h).(isActive := true, sessionStart := now, lastActivity := now,
                                   lastHeartbeatSent := now);
      var c := PerformCheck(live, now);
      Started(c.hook, if Truthy(url) then url else None, c.heartbeat)
  }

  datatype AppState = Active | Background | InactiveState | UnknownState

  /**
    The app-state listener: backgrounding stops; becoming active starts only
    a session that is not live.
   */
  function AppStateChange(h: Hook, next: AppState, now: nat): (r: Hook)
    ensures next == Background ==> r == StopHeartbeat(h).hook
    ensures next == Active && !h.isActive ==> r == StartHeartbeat(h, now, None).hook
    ensures next == Active && h.isActive ==> r == h
    ensures next != Active && next != Background ==> r == h
  {
    match next
    case Background => StopHeartbeat(h).hook
    case Active => if !h.isActive then StartHeartbeat(h, now, None).hook else h
    case _ => h
  }

  /** `setVideoPlaying`: later checks see the new flag. */
  function SetVideoPlaying(h: Hook, playing: bool): (r: Hook)
    ensures r.config.videoPlaying == playing
    ensures r.(config := h.config) == h && r.config.(videoPlaying := h.config.videoPlaying) == h.config
  {
    h.(config := h.config.(videoPlaying := playing))
  }

  /** `resetStats`: zero the two debug counters; engaged time and the session are kept. */
  function ResetStats(h: Hook): (r: Hook)
    ensures r.totalActivities == 0 && r.totalHeartbeats == 0
    ensures r.(totalActivities := h.totalActivities, totalHeartbeats := h.totalHeartbeats) == h
  {
    h.(totalActivities := 0, totalHeartbeats := 0)
  }

  /** The hook's own `formatLastActivity`: also "Never" when the last activity is the session start itself. */
  function FormatLastActivity(h: Hook, now: int): (r: string)
    ensures h.lastActivity == 0 || h.lastActivity == h.sessionStart ==> r == "Never"
    ensures h.lastActivity != 0 && h.lastActivity != h.sessionStart ==>
      r == HeartbeatDebug.FormatLastActivity(h.lastActivity, now) && r != "Never"
  {
    if h.lastActivity == h.sessionStart then "Never" else HeartbeatDebug.FormatLastActivity(h.lastActivity, now)
  }

  /** The stats pushed to the debug context. */
  function DebugStats(h: Hook, now: int): (s: HeartbeatDebug.Stats)
    ensures s.isActive == h.isActive
    ensures s.sessionDuration == HeartbeatDebug.SessionDuration(h.sessionStart, now)
    ensures s.lastActivity == FormatLastActivity(h, now)
    ensures s.totalActivities == h.totalActivities && s.totalHeartbeats == h.totalHeartbeats
  {
    HeartbeatDebug.Stats(h.isActive, FormatLastActivity(h, now),
      HeartbeatDebug.SessionDuration(h.sessionStart, now), h.totalActivities, h.totalHeartbeats)
  }

  /** The pushed heartbeat count follows an engaged check by exactly one; the label is the debug hook's unless the activity is the session start. */
  lemma DebugStatsFollowCheck(h: Hook, now: nat, later: int, scrolling: bool)
    requires Engaged(h.config, h.lastActivity, now, scrolling)
    ensures var before := DebugStats(h, later);
      var after := DebugStats(CheckInternal(h, now, scrolling).hook, later);
      && after.totalHeartbeats == before.totalHeartbeats + 1
      && after.totalActivities == before.totalActivities
      && after.isActive == before.isActive && after.lastActivity == before.lastActivity
    ensures h.lastActivity != h.sessionStart ==>
      DebugStats(h, later).lastActivity == HeartbeatDebug.FormatLastActivity(h.lastActivity, later)
  {
  }

  /**
    A re-render with the props `p`. When one of the five inputs of the
    `finalConfig` memo has changed (`depsChanged`; a callback prop counts as
    changed whenever it is a new function, such as an inline arrow), the
    memo yields a new configuration, `startHeartbeat` and `stopHeartbeat`
    get new identities, and the cleanups of the app-state effect and of the
    unmount effect each run the previous `stopHeartbeat`. The effects then
    subscribe again without starting anything, so a live session ends and
    stays ended. Otherwise the configuration, including an in-place
    `setVideoPlaying` write, is kept.
   */
  function PropsChange(h: Hook, p: ConfigPatch, depsChanged: bool): (r: Hook)
    ensures !depsChanged ==> r == h
    ensures depsChanged ==> r.config == Apply(Default, p)
    ensures depsChanged && h.config.enableHeartbeats ==>
      !r.isActive && r.tracked == NoHandle && PendingChecks(r) == h.orphanChecks
    ensures depsChanged ==> r.(config := h.config, isActive := h.isActive, tracked := h.tracked) == h
  {
    if !depsChanged then h
    else
      var first := StopHeartbeat(h).hook;
      var second := StopHeartbeat(first).hook;
      second.(config := Apply(Default, p))
  }

  /**
    A session with its single check, whose props change (a toggled
    `videoPlaying` prop, or an inline `onHeartbeat` recreated by the
    re-render its own counters trigger), is over: nothing is pending, so no
    timer ever counts another heartbeat until something calls start again.
   */
  lemma PropsChangeEndsSession(h: Hook, p: ConfigPatch, later: nat)
    requires SingleCheck(h) && h.isActive && h.config.enableHeartbeats
    ensures var r := PropsChange(h, p, true);
      && !r.isActive && PendingChecks(r) == 0
      && TrackedCheckFires(r, later) == Checked(r, None)
      && r.totalHeartbeats == h.totalHeartbeats && r.totalEngagedTime == h.totalEngagedTime
  {
  }

  // ---------------------------------------------------------------------------
  // The hook as a state machine.

  datatype Event =
    | StartCall(now: nat, url: Option<string>)
    | StopCall
    | ActivityCall(now: nat)
    | AppStateCall(next: AppState, now: nat)
    | VideoCall(playing: bool)
    | PropsCall(p: ConfigPatch, depsChanged: bool)
    | ResetStatsCall
    | HeldCheckFired(now: nat)
    | OrphanCheckFired(now: nat)

  function Step(h: Hook, e: Event): Hook {
    match e
    case StartCall(now, url) => StartHeartbeat(h, now, url).hook
    case StopCall => StopHeartbeat(h).hook
    case ActivityCall(now) => RecordActivity(h, now)
    case AppStateCall(next, now) => AppStateChange(h, next, now)
    case VideoCall(playing) => SetVideoPlaying(h, playing)
    case PropsCall(p, depsChanged) => PropsChange(h, p, depsChanged)
    case ResetStatsCall => ResetStats(h)
    case HeldCheckFired(now) => TrackedCheckFires(h, now).hook
    case OrphanCheckFired(now) => OrphanCheckFires(h, now).hook
  }

  /** At most one check is scheduled, and only while the session is live. */
  predicate SingleCheck(h: Hook) {
    h.orphanChecks == 0 && (h.tracked.PendingCheck? ==> h.isActive)
  }

  /**
    Every event keeps a single check, the app-state listener included (it
    starts only a session that is not live, which holds no pending check),
    except a direct start while a check is held: that one leaves two.
   */
  lemma StepKeepsSingleCheck(h: Hook, e: Event)
    requires SingleCheck(h)
    ensures !(e.StartCall? && h.tracked.PendingCheck?) ==> SingleCheck(Step(h, e)) && PendingChecks(Step(h, e)) <= 1
    ensures e.StartCall? && h.tracked.PendingCheck? && h.config.enableHeartbeats && h.config.activeTimeout >= 0.0 ==>
      !SingleCheck(Step(h, e)) && PendingChecks(Step(h, e)) == 2
  {
  }

  /** A stopped session has no check left to run, as long as none was orphaned. */
  lemma StopLeavesNothingPending(h: Hook)
    requires h.config.enableHeartbeats && SingleCheck(h)
    ensures PendingChecks(StopHeartbeat(h).hook) == 0
    ensures StopHeartbeat(StopHeartbeat(h).hook) == StopHeartbeat(h)
  {
  }

  /** The timer path alone never keeps an idle session alive: with no video, a check after the timeout ends it. */
  lemma IdleCheckEndsSession(h: Hook, now: nat)
    requires h.tracked.PendingCheck? && !h.config.videoPlaying
    requires (now - h.lastActivity) as real > ActiveTimeoutMs(h.config)
    ensures var c := TrackedCheckFires(h, now);
      !c.hook.isActive && c.heartbeat.None? && PendingChecks(c.hook) == h.orphanChecks
      && c.hook.totalEngagedTime == h.totalEngagedTime && c.hook.totalHeartbeats == h.totalHeartbeats
  {
  }

  /**
    With a 5 s timeout and a 10 s interval, a session started at 0 with no
    further activity sends the immediate heartbeat, then ends at the 10 s
    check with the count still at 1 and nothing pending.
   */
  lemma IdleSessionEndsAtFirstTimerCheck()
    ensures var h0 := Mount(ConfigPatch(None, Some(10.0), Some(5.0), None, None), 0);
      var s := StartHeartbeat(h0, 0, None).hook;
      var c := TrackedCheckFires(s, 10000);
      && s.isActive && s.tracked == PendingCheck(10000.0) && s.totalHeartbeats == 1
      && !c.hook.isActive && c.hook.totalHeartbeats == 1 && PendingChecks(c.hook) == 0
  {
  }

  /** Activity after an inactivity stop marks the session live with no check pending, so foregrounding will not restart it. */
  lemma ActivityRevivesWithoutCheck(h: Hook, now: nat, later: nat)
    requires h.config.enableHeartbeats && !h.isActive && !h.tracked.PendingCheck?
    ensures var r := RecordActivity(h, now);
      r.isActive && !r.tracked.PendingCheck? && AppStateChange(r, Active, later) == r
  {
  }

  /** With the repaired start, every event keeps a single check, direct starts included. */
  lemma FixedStartKeepsSingleCheck(h: Hook, now: nat, url: Option<string>)
    requires SingleCheck(h)
    ensures SingleCheck(StartHeartbeatFixed(h, now, url).hook)
    ensures SingleCheck(StartHeartbeatFixed(StartHeartbeatFixed(h, now, url).hook, now, url).hook)
  {
  }

  /**
    As written: start at 0, background at 1 s, foreground an hour later. The
    app-state listener's start runs an immediate heartbeat that reports 3601
    engaged seconds, the whole time since the previous heartbeat,
    backgrounded hour included.
   */
  lemma RestartCountsBackgroundTime()
    ensures var h0 := Mount(EmptyPatch, 0);
      var a := StartHeartbeat(h0, 0, None);
      var b := AppStateChange(a.hook, Background, 1000);
      var c := StartHeartbeat(b, 3_601_000, None);
      && a.heartbeat == Some(0)
      && !b.isActive
      && c.heartbeat == Some(3601)
      && AppStateChange(b, Active, 3_601_000) == c.hook
      && c.hook.totalEngagedTime == 3601
  {
  }

  /**
    Repaired: a restart after backgrounding reports 0 engaged seconds and
    adds nothing, however long the app was in the background.
   */
  lemma FixedRestartCountsNothing(h: Hook, t0: nat, t1: nat, t2: nat)
    requires h.config.enableHeartbeats && h.config.activeTimeout >= 0.0 && h.config.hasOnHeartbeat
    ensures var a := StartHeartbeatFixed(h, t0, None);
      var b := AppStateChange(a.hook, Background, t1);
      var c := StartHeartbeatFixed(b, t2, None);
      && a.heartbeat == Some(0)
      && !b.isActive
      && c.heartbeat == Some(0)
      && c.hook.totalEngagedTime == h.totalEngagedTime
  {
    var a := StartHeartbeatFixed(h, t0, None);
    var b := AppStateChange(a.hook, Background, t1);
    assert b == StopHeartbeat(a.hook).hook;
    assert b.config == h.config && b.totalEngagedTime == h.totalEngagedTime;
  }

  /**
    As written: two `startHeartbeat` calls leave two checks scheduled. After
    `stopHeartbeat` one still runs; with a video playing it counts a
    heartbeat for the stopped session and schedules the loop again.
   */
  lemma DoubleStartOrphansCheck()
    ensures var h0 := Mount(EmptyPatch, 0);
      var a := StartHeartbeat(h0, 0, None).hook;
      var b := StartHeartbeat(a, 1000, None).hook;
      var c := SetVideoPlaying(StopHeartbeat(b).hook, true);
      var d := OrphanCheckFires(c, 150_000);
      && PendingChecks(b) == 2
      && !c.isActive && PendingChecks(c) == 1
      && d.hook.totalHeartbeats == c.totalHeartbeats + 1
      && !d.hook.isActive && d.hook.tracked.PendingCheck?
  {
  }
}
