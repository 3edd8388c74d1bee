/**
  The derived values of the `useHeartbeatDebug` hook: the "last activity"
  label, the recent-activity flag, and the session duration. The polled
  native status is an input; the poll itself is not modelled.
 */
module HeartbeatDebug {
  import opened JsSemantics
  import opened Decimal

  /** The unit a "last activity" label is written in. */
  datatype Unit = Seconds | Minutes | Hours

  function UnitSeconds(u: Unit): nat {
    match u
    case Seconds => 1
    case Minutes => 60
    case Hours => 3600
  }

  function Suffix(u: Unit): string {
    match u
    case Seconds => "s ago"
    case Minutes => "m ago"
    case Hours => "h ago"
  }

  /** An elapsed time as the label shows it: an amount of one unit. */
  datatype Reading = Reading(amount: int, unit: Unit)

  /**
    The unit and amount chosen for `seconds` elapsed: seconds below a minute
    (negative values included), whole minutes below an hour, else whole hours.
   */
  function ReadingOf(seconds: int): (rd: Reading)
    ensures rd.unit == Seconds <==> seconds < 60
    ensures rd.unit == Minutes <==> 60 <= seconds < 3600
    ensures rd.unit == Hours <==> seconds >= 3600
    ensures rd.amount == seconds / UnitSeconds(rd.unit)
    ensures rd.unit != Seconds ==> 1 <= rd.amount
    ensures rd.unit != Hours ==> rd.amount < 60
  {
    if seconds < 60 then Reading(seconds, Seconds)
    else
      var minutes := seconds / 60;
      if minutes < 60 then Reading(minutes, Minutes)
      else
        NestedDivision(seconds);
        Reading(minutes / 60, Hours)
  }

  /** Whole hours counted through whole minutes are whole hours. */
  lemma NestedDivision(s: int)
    requires s >= 0
    ensures (s / 60) / 60 == s / 3600
  {
    var q := s / 3600;
    var r := s % 3600;
    assert s == q * 3600 + r && 0 <= r < 3600;
    assert s == (q * 60 + r / 60) * 60 + r % 60;
    assert s / 60 == q * 60 + r / 60;
  }

  function Render(rd: Reading): string {
    IntToString(rd.amount) + Suffix(rd.unit)
  }

  /** `formatLastActivity`: 0 means never; otherwise the elapsed whole seconds, read in the largest fitting unit. */
  function FormatLastActivity(timestamp: int, now: int): (r: string)
    ensures timestamp == 0 <==> r == "Never"
    ensures timestamp != 0 ==> r == Render(ReadingOf(FloorDiv(now - timestamp, 1000)))
  {
    if timestamp == 0 then "Never"
    else Render(ReadingOf(FloorDiv(now - timestamp, 1000)))
  }

  /** The rendered label starts with the amount's digits and ends with the unit's suffix, so it can be read back. */
  lemma RenderReadsBack(rd: Reading)
    requires rd.amount >= 0
    ensures var r := Render(rd); var n := |NatToString(rd.amount)|;
      && r[..n] == NatToString(rd.amount)
      && r[n..] == Suffix(rd.unit)
      && ParseNat(r[..n]) == Some(rd.amount)
  {
    ParseNatOfNatToString(rd.amount);
  }

  /** Activity in the last 5 seconds, and some activity at all. */
  predicate IsActive(lastActivity: int, now: int) {
    lastActivity > 0 && now - lastActivity < 5000
  }

  /** An activity becomes stale exactly 5 s after it happened and never recovers without a newer one. */
  lemma IsActiveWindow(lastActivity: int, now: int, later: int)
    requires lastActivity > 0 && now <= later
    ensures IsActive(lastActivity, now) <==> now < lastActivity + 5000
    ensures !IsActive(lastActivity, now) ==> !IsActive(lastActivity, later)
  {
  }

  /** Whole seconds since the overlay started. */
  function SessionDuration(startTime: int, now: int): (d: int)
    ensures now >= startTime ==> d >= 0
    ensures d * 1000 <= now - startTime < d * 1000 + 1000
  {
    FloorDiv(now - startTime, 1000)
  }

  /** The session duration never goes down as time passes. */
  lemma SessionDurationMonotone(startTime: int, now: int, later: int)
    requires now <= later
    ensures SessionDuration(startTime, now) <= SessionDuration(startTime, later)
  {
    var a := SessionDuration(startTime, now);
    var b := SessionDuration(startTime, later);
    assert (a - b) * 1000 < 1000;
  }

  /** The status polled from the native module. */
  datatype Status = Status(isActive: bool, lastActivity: int, sessionDuration: int, totalActivities: int, totalHeartbeats: int)

  datatype Stats = Stats(isActive: bool, lastActivity: string, sessionDuration: int, totalActivities: int, totalHeartbeats: int)

  /** The stats the hook returns: derived activity flag and label, its own duration, the polled counters. */
  function DebugStats(status: Status, startTime: int, now: int): (s: Stats)
    ensures s.isActive <==> status.lastActivity > 0 && now - status.lastActivity < 5000
    ensures s.lastActivity == FormatLastActivity(status.lastActivity, now)
    ensures s.sessionDuration == SessionDuration(startTime, now)
    ensures s.totalActivities == status.totalActivities && s.totalHeartbeats == status.totalHeartbeats
  {
    Stats(IsActive(status.lastActivity, now), FormatLastActivity(status.lastActivity, now),
          SessionDuration(startTime, now), status.totalActivities, status.totalHeartbeats)
  }

  /** Activity recorded one second ago is reported live and labelled "1s ago". */
  lemma ResolvedStatusShowsActivity(status: Status, startTime: int, now: int)
    requires status.lastActivity > 0 && now - status.lastActivity == 1000
    ensures DebugStats(status, startTime, now).isActive
    ensures DebugStats(status, startTime, now).lastActivity == "1s ago"
  {
  }

  // ---------------------------------------------------------------------------
  // The poll as written.

  /** The all-zero record the `status` state starts from. */
  const InitialStatus: Status := Status(false, 0, 0, 0, 0)

  /**
    What the hook's `status` state holds. It starts as `InitialStatus`; each
    poll stores what `getHeartbeatStatus()` returns without awaiting it, and
    that method is `async`, so from the first poll on the state is a pending
    Promise.
   */
  datatype HeldStatus = InitialRecord | PendingPromise

  /** A number field read off the held value: a Promise has none, so it reads as `undefined` (`None`). */
  function HeldField(held: HeldStatus): (v: Option<int>)
    ensures v.Some? <==> held == InitialRecord
    ensures v.Some? ==> v.value == 0
  {
    if held == InitialRecord then Some(0) else None
  }

  /** The returned stats with each counter a number or `undefined` (`None`). */
  datatype ShownStats = ShownStats(isActive: bool, lastActivity: string, sessionDuration: int,
                                   totalActivities: Option<int>, totalHeartbeats: Option<int>)

  function Shown(s: Stats): ShownStats {
    ShownStats(s.isActive, s.lastActivity, s.sessionDuration, Some(s.totalActivities), Some(s.totalHeartbeats))
  }

  /**
    The stats computed from the held value as written: on a Promise,
    `undefined > 0` is false and `!undefined` is true, and the counters are
    `undefined`. Before the first poll they are the stats of the zero record.
   */
  function DebugStatsAsWritten(held: HeldStatus, startTime: int, now: int): (s: ShownStats)
    ensures s.sessionDuration == SessionDuration(startTime, now)
    ensures held == InitialRecord ==> s == Shown(DebugStats(InitialStatus, startTime, now))
    ensures held == PendingPromise ==> s.totalActivities.None? && s.totalHeartbeats.None?
  {
    var last := HeldField(held);
    ShownStats(
      match last { case Some(t) => IsActive(t, now) case None => false },
      match last { case Some(t) => FormatLastActivity(t, now) case None => "Never" },
      SessionDuration(startTime, now), last, last)
  }

  /**
    Whatever the native side has recorded, the stats as written never show
    activity: the flag is false and the label "Never", before the first poll
    and after it.
   */
  lemma PolledStatsShowNoActivity(held: HeldStatus, startTime: int, now: int)
    ensures !DebugStatsAsWritten(held, startTime, now).isActive
    ensures DebugStatsAsWritten(held, startTime, now).lastActivity == "Never"
  {
  }
}
