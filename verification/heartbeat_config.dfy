/**
  The heartbeat configuration both engines read: the defaults they share
  and the partial-record overlay (`{ ...config, ...patch }`) that
  `updateConfig` and the hook's `useMemo` perform.
 */
module HeartbeatConfig {
  import opened JsSemantics

  /**
    A complete configuration. The two durations are JS numbers in seconds
    and may be fractional (`secondsBetweenHeartbeats: 2.5`), so they are
    modelled as `real`. `hasOnHeartbeat` stands for whether the
    `onHeartbeat` callback is set; the callback itself is a foreign function
    and is represented by the values the engines pass to it.
   */
  datatype Config = Config(
    enableHeartbeats: bool,
    secondsBetweenHeartbeats: real,
    activeTimeout: real,
    hasOnHeartbeat: bool,
    videoPlaying: bool)

  /** Both engines start from 150 s between heartbeats, a 5 s activity timeout and a no-op callback. */
  const Default: Config := Config(true, 150.0, 5.0, true, false)

  /** A `Partial<HeartbeatConfig>`: `None` marks a key the caller did not supply. */
  datatype ConfigPatch = ConfigPatch(
    enableHeartbeats: Option<bool>,
    secondsBetweenHeartbeats: Option<real>,
    activeTimeout: Option<real>,
    onHeartbeat: Option<bool>,
    videoPlaying: Option<bool>)

  const EmptyPatch: ConfigPatch := ConfigPatch(None, None, None, None, None)

  /** `{ ...c, ...p }`: each supplied key replaces the current value, the rest stay. */
  function Apply(c: Config, p: ConfigPatch): (r: Config)
    ensures r.enableHeartbeats == p.enableHeartbeats.GetOr(c.enableHeartbeats)
    ensures r.secondsBetweenHeartbeats == p.secondsBetweenHeartbeats.GetOr(c.secondsBetweenHeartbeats)
    ensures r.activeTimeout == p.activeTimeout.GetOr(c.activeTimeout)
    ensures r.hasOnHeartbeat == p.onHeartbeat.GetOr(c.hasOnHeartbeat)
    ensures r.videoPlaying == p.videoPlaying.GetOr(c.videoPlaying)
  {
    Config(
      p.enableHeartbeats.GetOr(c.enableHeartbeats),
      p.secondsBetweenHeartbeats.GetOr(c.secondsBetweenHeartbeats),
      p.activeTimeout.GetOr(c.activeTimeout),
      p.onHeartbeat.GetOr(c.hasOnHeartbeat),
      p.videoPlaying.GetOr(c.videoPlaying))
  }

  /** The empty patch changes nothing, and applying a patch twice equals applying it once. */
  lemma ApplyLaws(c: Config, p: ConfigPatch)
    ensures Apply(c, EmptyPatch) == c
    ensures Apply(Apply(c, p), p) == Apply(c, p)
  {
  }

  /** The heartbeat interval in milliseconds, fractions of a second included. */
  function IntervalMs(c: Config): (ms: real)
    ensures ms / 1000.0 == c.secondsBetweenHeartbeats
    ensures (ms > 0.0 <==> c.secondsBetweenHeartbeats > 0.0) && (c.secondsBetweenHeartbeats >= 1.0 ==> ms >= 1000.0)
  {
    c.secondsBetweenHeartbeats * 1000.0
  }

  /** The activity timeout in milliseconds, fractions of a second included. */
  function ActiveTimeoutMs(c: Config): (ms: real)
    ensures ms / 1000.0 == c.activeTimeout
    ensures ms >= 0.0 <==> c.activeTimeout >= 0.0
  {
    c.activeTimeout * 1000.0
  }

  /** A fractional setting keeps its fraction: 2.5 s is a 2500 ms interval and 0.5 s a 500 ms window. */
  lemma FractionalSecondsKept(c: Config)
    requires c.secondsBetweenHeartbeats == 2.5 && c.activeTimeout == 0.5
    ensures IntervalMs(c) == 2500.0 && ActiveTimeoutMs(c) == 500.0
  {
  }
}
