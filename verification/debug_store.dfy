/**
  The heartbeat debug store singleton: the stats record and scroll flag the
  debug overlay shows, the actions that change them, and the listener set.
  Listeners are identified by number; calling them is represented by the
  set of listeners each action notifies.
 */
module DebugStore {
  import opened JsSemantics

  datatype Stats = Stats(
    isActive: bool,
    lastActivity: string,
    sessionDuration: int,
    totalActivities: int,
    totalHeartbeats: int,
    timeSinceLastActivity: int,
    totalEngagedTime: int,
    heartbeatSessionActive: bool)

  /** The stats the store starts with and `resetStats` restores. */
  const DefaultStats: Stats := Stats(false, "Never", 0, 0, 0, 0, 0, false)

  /** A `Partial` of the stats: `None` marks a key the caller did not supply. */
  datatype StatsPatch = StatsPatch(
    isActive: Option<bool>,
    lastActivity: Option<string>,
    sessionDuration: Option<int>,
    totalActivities: Option<int>,
    totalHeartbeats: Option<int>,
    timeSinceLastActivity: Option<int>,
    totalEngagedTime: Option<int>,
    heartbeatSessionActive: Option<bool>)

  const EmptyStatsPatch: StatsPatch := StatsPatch(None, None, None, None, None, None, None, None)

  datatype Store = Store(stats: Stats, scrollState: bool, listeners: set<nat>)

  const Initial: Store := Store(DefaultStats, false, {})

  /** An action's new store and the listeners it called. */
  datatype Notified = Notified(store: Store, notified: set<nat>)

  /** `{ ...stats, ...patch }`: supplied keys replace, the rest stay. */
  function MergeStats(s: Stats, p: StatsPatch): (r: Stats)
    ensures r.isActive == p.isActive.GetOr(s.isActive)
    ensures r.lastActivity == p.lastActivity.GetOr(s.lastActivity)
    ensures r.sessionDuration == p.sessionDuration.GetOr(s.sessionDuration)
    ensures r.totalActivities == p.totalActivities.GetOr(s.totalActivities)
    ensures r.totalHeartbeats == p.totalHeartbeats.GetOr(s.totalHeartbeats)
    ensures r.timeSinceLastActivity == p.timeSinceLastActivity.GetOr(s.timeSinceLastActivity)
    ensures r.totalEngagedTime == p.totalEngagedTime.GetOr(s.totalEngagedTime)
    ensures r.heartbeatSessionActive == p.heartbeatSessionActive.GetOr(s.heartbeatSessionActive)
  {
    Stats(
      p.isActive.GetOr(s.isActive),
      p.lastActivity.GetOr(s.lastActivity),
      p.sessionDuration.GetOr(s.sessionDuration),
      p.totalActivities.GetOr(s.totalActivities),
      p.totalHeartbeats.GetOr(s.totalHeartbeats),
      p.timeSinceLastActivity.GetOr(s.timeSinceLastActivity),
      p.totalEngagedTime.GetOr(s.totalEngagedTime),
      p.heartbeatSessionActive.GetOr(s.heartbeatSessionActive))
  }

  /** The empty patch changes nothing, and a patch applied twice acts once. */
  lemma MergeStatsLaws(s: Stats, p: StatsPatch)
    ensures MergeStats(s, EmptyStatsPatch) == s
    ensures MergeStats(MergeStats(s, p), p) == MergeStats(s, p)
  {
  }

  /** `updateStats`: overlay the supplied stats, keep the scroll flag and listeners, notify everyone. */
  function UpdateStats(st: Store, p: StatsPatch): (r: Notified)
    ensures r.store.stats == MergeStats(st.stats, p)
    ensures r.store.scrollState == st.scrollState && r.store.listeners == st.listeners
    ensures r.notified == st.listeners
  {
    Notified(st.(stats := MergeStats(st.stats, p)), st.listeners)
  }

  /** `updateScrollState`: only the scroll flag changes; everyone is notified. */
  function UpdateScrollState(st: Store, scrolling: bool): (r: Notified)
    ensures r.store == st.(scrollState := scrolling)
    ensures r.notified == st.listeners
  {
    Notified(st.(scrollState := scrolling), st.listeners)
  }

  /** `resetStats`: the default stats come back; the scroll flag stays; everyone is notified. */
  function ResetStats(st: Store): (r: Notified)
    ensures r.store.stats == DefaultStats
    ensures r.store.scrollState == st.scrollState && r.store.listeners == st.listeners
    ensures r.notified == st.listeners
  {
    Notified(st.(stats := DefaultStats), st.listeners)
  }

  /** Resetting twice is resetting once, and reset undoes any stats update. */
  lemma ResetStatsIdempotent(st: Store, p: StatsPatch)
    ensures ResetStats(ResetStats(st).store).store == ResetStats(st).store
    ensures ResetStats(UpdateStats(st, p).store).store == ResetStats(st).store
  {
  }

  /**
    `updateDebugData`: merge stats when given, set the scroll flag when
    given, and notify everyone even when nothing was given.
   */
  function UpdateDebugData(st: Store, stats: Option<StatsPatch>, scrollState: Option<bool>): (r: Notified)
    ensures r.store.stats == (if stats.Some? then MergeStats(st.stats, stats.value) else st.stats)
    ensures r.store.scrollState == scrollState.GetOr(st.scrollState)
    ensures r.store.listeners == st.listeners
    ensures r.notified == st.listeners
  {
    var withStats := if stats.Some? then st.(stats := MergeStats(st.stats, stats.value)) else st;
    var withScroll := if scrollState.Some? then withStats.(scrollState := scrollState.value) else withStats;
    Notified(withScroll, st.listeners)
  }

  /** `updateDebugData` with one part given is the dedicated action, and with none it only notifies. */
  lemma UpdateDebugDataSpecialises(st: Store, p: StatsPatch, scrolling: bool)
    ensures UpdateDebugData(st, Some(p), None) == UpdateStats(st, p)
    ensures UpdateDebugData(st, None, Some(scrolling)) == UpdateScrollState(st, scrolling)
    ensures UpdateDebugData(st, None, None) == Notified(st, st.listeners)
  {
  }

  /** `subscribe`: the listener joins the set (a second subscription of the same listener adds nothing). */
  function Subscribe(st: Store, listener: nat): (r: Store)
    ensures r.listeners == st.listeners + {listener}
    ensures r.stats == st.stats && r.scrollState == st.scrollState
  {
    st.(listeners := st.listeners + {listener})
  }

  /** The function `subscribe` returns: remove that listener, reporting whether it was there. */
  function Unsubscribe(st: Store, listener: nat): (r: (Store, bool))
    ensures r.0.listeners == st.listeners - {listener}
    ensures r.0.stats == st.stats && r.0.scrollState == st.scrollState
    ensures r.1 <==> listener in st.listeners
  {
    (st.(listeners := st.listeners - {listener}), listener in st.listeners)
  }

  /** Unsubscribing a fresh subscription restores the listener set, touching no other listener. */
  lemma SubscribeRoundTrip(st: Store, listener: nat, other: nat)
    requires listener !in st.listeners
    ensures Unsubscribe(Subscribe(st, listener), listener).0 == st
    ensures Unsubscribe(Subscribe(st, listener), listener).1
    ensures other != listener ==> (other in Unsubscribe(Subscribe(st, listener), listener).0.listeners <==> other in st.listeners)
  {
  }

  /** `getData`: a snapshot of the stats and scroll flag. */
  datatype DebugData = DebugData(stats: Stats, scrollState: bool)

  function GetData(st: Store): (d: DebugData)
    ensures d.stats == st.stats && d.scrollState == st.scrollState
  {
    DebugData(st.stats, st.scrollState)
  }

  /** What the actions write, `getData` reads back: merged stats and the given flag, or the defaults after a reset. */
  lemma GetDataReadsBack(st: Store, p: StatsPatch, scrolling: bool, listener: nat)
    ensures GetData(UpdateDebugData(st, Some(p), Some(scrolling)).store) == DebugData(MergeStats(st.stats, p), scrolling)
    ensures GetData(UpdateStats(st, p).store) == DebugData(MergeStats(st.stats, p), st.scrollState)
    ensures GetData(ResetStats(st).store) == DebugData(DefaultStats, st.scrollState)
    ensures GetData(Subscribe(st, listener)) == GetData(st)
  {
  }
}
