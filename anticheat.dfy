/**
 * The server's basic cheat detection (`arcgame/server/anticheat.py`): per
 * player counters for kills, kill streaks and movement violations, a log of
 * suspicious events that only keeps the last hour, and the kick verdict.
 * The clock is the `now` parameter of the operations that read it, and the
 * square root used for speeds is the `sqrt` parameter.
 */
module Anticheat {
  import opened Wrappers
  import opened Vec2

  /** `cheat_thresholds`: the speed multiplier, the aim angle, the kill spree and the connection limit. */
  const SpeedHackFactor: real := 1.5
  const AimbotAngle: real := 10.0
  const KillSpreeWarning: int := 10
  const ConnectionFloodLimit: int := 5

  /** The speed a legitimate move may reach, before the multiplier. */
  const MaxSpeed: real := 100.0
  /** Two kills less than this many seconds apart extend a streak. */
  const KillWindow: real := 5.0
  /** Events older than this many seconds are dropped from the log. */
  const EventLifetime: real := 3600.0
  /** Connections older than this many seconds are forgotten. */
  const ConnectionWindow: real := 60.0
  /** A player with this many violations is to be kicked. */
  const KickViolations: int := 5

  /** The counters `register_player` creates for one player. */
  datatype Stats = Stats(kills: int, deaths: int, killStreak: int, lastKillTime: real,
                         speedViolations: int, teleportViolations: int,
                         lastPos: Option<Vec>, lastPosTime: real)

  const FreshStats: Stats := Stats(0, 0, 0, 0.0, 0, 0, None, 0.0)

  /** The details each kind of suspicious event carries. */
  datatype EventKind =
    | SpeedHack(speed: real, maxAllowed: real, position: Vec)
    | KillSpree(killStreak: int, victim: int)
    | ImpossibleInput(input: map<string, bool>)
    | ConnectionFlood(ip: string, connections: int)

  datatype Event = Event(timestamp: real, clientId: int, kind: EventKind)

  /** The events of `events` less than an hour old at `now`, in their order. */
  function Recent(events: seq<Event>, now: real): (r: seq<Event>)
    ensures |r| <= |events|
    ensures forall e :: e in r <==> e in events && now - e.timestamp < EventLifetime
  {
    if events == [] then []
    else
      var rest := Recent(events[1..], now);
      if now - events[0].timestamp < EventLifetime then [events[0]] + rest else rest
  }

  /** Filtering a log with one more event keeps that event exactly when it is recent. */
  lemma {:induction false} RecentAppend(events: seq<Event>, e: Event, now: real)
    ensures Recent(events + [e], now)
      == Recent(events, now) + (if now - e.timestamp < EventLifetime then [e] else [])
  {
    if events != [] {
      assert (events + [e])[1..] == events[1..] + [e];
      RecentAppend(events[1..], e, now);
    }
  }

  /** Filtering twice at the same time changes nothing. */
  lemma {:induction false} RecentIdempotent(events: seq<Event>, now: real)
    ensures Recent(Recent(events, now), now) == Recent(events, now)
  {
    if events != [] {
      RecentIdempotent(events[1..], now);
    }
  }

  /** The speed of a move: the distance covered over the time it took. */
  function Speed(from: Vec, to: Vec, elapsed: real, sqrt: real -> real): real
    requires elapsed > 0.0
  {
    Distance(to, from, sqrt) / elapsed
  }

  /** A move covers more than `limit` per second over `elapsed` seconds, stated without square roots or division. */
  predicate TooFast(from: Vec, to: Vec, elapsed: real, limit: real)
  {
    DistanceSq(to, from) > Square(limit * elapsed)
  }

  /** The speed exceeds a non-negative limit exactly when the squared distance exceeds the squared allowance. */
  lemma SpeedExceeds(from: Vec, to: Vec, elapsed: real, limit: real, sqrt: real -> real)
    requires IsSqrt(sqrt) && elapsed > 0.0 && 0.0 <= limit
    ensures Speed(from, to, elapsed, sqrt) > limit <==> TooFast(from, to, elapsed, limit)
  {
    var d := Distance(to, from, sqrt);
    DistanceCompare(to, from, limit * elapsed, sqrt);
    assert d / elapsed > limit <==> d > limit * elapsed by {
      DivideCompare(d, elapsed, limit);
    }
  }

  /** Dividing by a positive number preserves a strict comparison. */
  lemma DivideCompare(d: real, elapsed: real, limit: real)
    requires elapsed > 0.0
    ensures d / elapsed > limit <==> d > limit * elapsed
  {
    assert d == (d / elapsed) * elapsed;
    if d / elapsed > limit {
      assert (d / elapsed) * elapsed > limit * elapsed;
    } else {
      assert (d / elapsed) * elapsed <= limit * elapsed;
    }
  }

  /**
   * `check_connection_flood`'s window: the connection times less than a
   * minute old, in their order.
   */
  function RecentConnectionTimes(times: seq<real>, now: real): (r: seq<real>)
    ensures |r| <= |times|
    ensures forall t :: t in r <==> t in times && now - t < ConnectionWindow
  {
    if times == [] then []
    else
      var rest := RecentConnectionTimes(times[1..], now);
      if now - times[0] < ConnectionWindow then [times[0]] + rest else rest
  }

  /** An address floods once it already has the limit of connections within the window. */
  predicate Flooded(times: seq<real>, now: real)
  {
    |RecentConnectionTimes(times, now)| >= ConnectionFloodLimit
  }

  /** `get_recent_connections`: no connection history is kept for any address. */
  function RecentConnections(ip: string): (r: seq<real>)
    ensures forall now :: !Flooded(r, now)
  {
    []
  }

  /** `AnticheatSystem`. */
  class AnticheatSystem {
    var playerStats: map<int, Stats>
    var suspiciousEvents: seq<Event>
    var lastPositions: map<int, Vec>
    var positionTimes: map<int, real>

    /** The counters are never negative and a streak is reset before it reaches the warning. */
    ghost predicate Valid()
      reads this
    {
      forall id :: id in playerStats ==> ValidStats(playerStats[id])
    }

    /** The counters `StatsOf` reports for `id`: its own, or fresh ones for an unknown player. */
    function StatsOf(id: int): (s: Stats)
      reads this
      ensures id !in playerStats ==> s == FreshStats
      ensures Valid() ==> ValidStats(s)
    {
      if id in playerStats then playerStats[id] else FreshStats
    }

    constructor ()
      ensures Valid() && playerStats == map[] && suspiciousEvents == []
      ensures lastPositions == map[] && positionTimes == map[]
    {
      playerStats, suspiciousEvents := map[], [];
      lastPositions, positionTimes := map[], map[];
    }

    /** `register_player`: fresh counters for `id`, replacing any it had. */
    method RegisterPlayer(id: int)
      requires Valid()
      modifies this
      ensures Valid() && playerStats == old(playerStats)[id := FreshStats]
      ensures suspiciousEvents == old(suspiciousEvents)
      ensures lastPositions == old(lastPositions) && positionTimes == old(positionTimes)
    {
      playerStats := playerStats[id := FreshStats];
    }

    /** `unregister_player`: `id` is forgotten by all three tables. */
    method UnregisterPlayer(id: int)
      requires Valid()
      modifies this
      ensures Valid() && playerStats == old(playerStats) - {id}
      ensures lastPositions == old(lastPositions) - {id} && positionTimes == old(positionTimes) - {id}
      ensures suspiciousEvents == old(suspiciousEvents)
    {
      playerStats := playerStats - {id};
      lastPositions := lastPositions - {id};
      positionTimes := positionTimes - {id};
    }

    /** `reset_player_stats`: a known player gets fresh counters; an unknown one stays unknown. */
    method ResetPlayerStats(id: int)
      requires Valid()
      modifies this
      ensures Valid() && suspiciousEvents == old(suspiciousEvents)
      ensures playerStats == if id in old(playerStats) then old(playerStats)[id := FreshStats] else old(playerStats)
      ensures lastPositions == old(lastPositions) && positionTimes == old(positionTimes)
    {
      if id in playerStats {
        playerStats := playerStats[id := FreshStats];
      }
    }

    /**
     * `_log_suspicious_event`: the event is appended with the current time
     * and then only the events less than an hour old are kept.
     */
    method LogSuspiciousEvent(id: int, kind: EventKind, now: real)
      modifies this
      ensures suspiciousEvents == Recent(old(suspiciousEvents) + [Event(now, id, kind)], now)
      ensures suspiciousEvents == Recent(old(suspiciousEvents), now) + [Event(now, id, kind)]
      ensures forall e :: e in suspiciousEvents ==> now - e.timestamp < EventLifetime
      ensures playerStats == old(playerStats)
      ensures lastPositions == old(lastPositions) && positionTimes == old(positionTimes)
    {
      RecentAppend(suspiciousEvents, Event(now, id, kind), now);
      suspiciousEvents := Recent(suspiciousEvents + [Event(now, id, kind)], now);
    }

    /**
     * `check_movement`: a move from the last accepted position that is
     * faster than 150 per second counts a speed violation, is logged and is
     * refused without becoming the new last position; any other move is
     * accepted and recorded. A player without a last position, or whose
     * last time is zero, always moves freely.
     */
    method CheckMovement(id: int, newPos: Vec, now: real, sqrt: real -> real) returns (ok: bool)
      requires Valid() && IsSqrt(sqrt)
      modifies this
      ensures Valid() && id in playerStats
      ensures forall p :: old(ShouldKickPlayer(p)) ==> ShouldKickPlayer(p)
      ensures lastPositions == old(lastPositions) && positionTimes == old(positionTimes)
      ensures forall other :: other != id ==> StatsOf(other) == old(StatsOf(other))
      ensures ok <==> !MoveFlagged(old(StatsOf(id)), newPos, now)
      ensures ok ==> (playerStats[id] == old(StatsOf(id)).(lastPos := Some(newPos), lastPosTime := now)
        && suspiciousEvents == old(suspiciousEvents))
      ensures !ok ==> var s := old(StatsOf(id));
        && playerStats[id] == s.(speedViolations := s.speedViolations + 1)
        && s.lastPos.Some?
        && suspiciousEvents == Recent(old(suspiciousEvents), now)
             + [Event(now, id, SpeedHack(Speed(s.lastPos.value, newPos, now - s.lastPosTime, sqrt), MaxSpeed * SpeedHackFactor, newPos))]
    {
      if id !in playerStats {
        RegisterPlayer(id);
      }
      var s := playerStats[id];
      var flagged, speed := MeasureMove(s, newPos, now, sqrt);
      if flagged {
        playerStats := playerStats[id := s.(speedViolations := s.speedViolations + 1)];
        LogSuspiciousEvent(id, SpeedHack(speed, MaxSpeed * SpeedHackFactor, newPos), now);
        return false;
      }
      playerStats := playerStats[id := s.(lastPos := Some(newPos), lastPosTime := now)];
      return true;
    }

    /**
     * The measurement inside `check_movement`: with a last position and a
     * non-zero last time, the speed since then, and whether it exceeds
     * 1.5 times the expected maximum.
     */
    static method MeasureMove(s: Stats, newPos: Vec, now: real, sqrt: real -> real) returns (flagged: bool, speed: real)
      requires IsSqrt(sqrt)
      ensures flagged <==> MoveFlagged(s, newPos, now)
      ensures flagged ==> speed == Speed(s.lastPos.value, newPos, now - s.lastPosTime, sqrt)
    {
      flagged, speed := false, 0.0;
      if s.lastPos.Some? && s.lastPosTime != 0.0 {
        var oldPos := s.lastPos.value;
        var elapsed := now - s.lastPosTime;
        if elapsed > 0.0 {
          speed := Speed(oldPos, newPos, elapsed, sqrt);
          SpeedExceeds(oldPos, newPos, elapsed, MaxSpeed * SpeedHackFactor, sqrt);
          flagged := speed > MaxSpeed * SpeedHackFactor;
        }
      }
    }

    /**
     * `check_kill`: the kill is counted; it extends the streak when it comes
     * less than 5 seconds after the previous one and starts a new streak of
     * one otherwise; a streak that reaches 10 is logged and reset to zero.
     * The kill is never refused.
     */
    method CheckKill(id: int, victim: int, now: real) returns (ok: bool)
      requires Valid()
      modifies this
      ensures forall p :: old(ShouldKickPlayer(p)) ==> ShouldKickPlayer(p)
      ensures ok && Valid()
      ensures lastPositions == old(lastPositions) && positionTimes == old(positionTimes)
      ensures forall other :: other != id ==> StatsOf(other) == old(StatsOf(other))
      ensures var s := old(StatsOf(id));
        var streak := if now - s.lastKillTime < KillWindow then s.killStreak + 1 else 1;
        && id in playerStats
        && playerStats[id] == s.(kills := s.kills + 1, lastKillTime := now,
                                 killStreak := if streak >= KillSpreeWarning then 0 else streak)
        && suspiciousEvents == (if streak >= KillSpreeWarning
                                then Recent(old(suspiciousEvents), now) + [Event(now, id, KillSpree(streak, victim))]
                                else old(suspiciousEvents))
    {
      if id !in playerStats {
        RegisterPlayer(id);
      }
      var s := playerStats[id];
      var streak := if now - s.lastKillTime < KillWindow then s.killStreak + 1 else 1;
      s := s.(kills := s.kills + 1, killStreak := streak, lastKillTime := now);
      if streak >= KillSpreeWarning {
        LogSuspiciousEvent(id, KillSpree(streak, victim), now);
        s := s.(killStreak := 0);
      }
      playerStats := playerStats[id := s];
      return true;
    }

    /**
     * `check_input`: pressing left and right at once is impossible, logged
     * and refused; a key missing from the input counts as not pressed.
     */
    method CheckInput(id: int, input: map<string, bool>, now: real) returns (ok: bool)
      requires Valid()
      modifies this
      ensures forall p :: old(ShouldKickPlayer(p)) ==> ShouldKickPlayer(p)
      ensures Valid() && playerStats == old(if id in playerStats then playerStats else playerStats[id := FreshStats])
      ensures lastPositions == old(lastPositions) && positionTimes == old(positionTimes)
      ensures ok <==> !(Pressed(input, "left") && Pressed(input, "right"))
      ensures ok ==> suspiciousEvents == old(suspiciousEvents)
      ensures !ok ==> suspiciousEvents == Recent(old(suspiciousEvents), now) + [Event(now, id, ImpossibleInput(input))]
    {
      if id !in playerStats {
        RegisterPlayer(id);
      }
      if Pressed(input, "left") && Pressed(input, "right") {
        LogSuspiciousEvent(id, ImpossibleInput(input), now);
        return false;
      }
      return true;
    }

    /**
     * `check_connection_flood`: the address's connections of the last minute
     * are compared with the limit; since no history is kept, no address
     * ever floods and the check always passes.
     */
    method CheckConnectionFlood(ip: string, now: real) returns (ok: bool)
      modifies this
      ensures ok <==> !Flooded(RecentConnections(ip), now)
      ensures ok
      ensures playerStats == old(playerStats) && suspiciousEvents == old(suspiciousEvents)
      ensures lastPositions == old(lastPositions) && positionTimes == old(positionTimes)
    {
      var recent := RecentConnectionTimes(RecentConnections(ip), now);
      ok := |recent| < ConnectionFloodLimit;
    }

    /** `get_player_violations`: speed plus teleport violations, none for an unknown player. */
    function GetPlayerViolations(id: int): (r: int)
      reads this
      ensures id !in playerStats ==> r == 0
      ensures Valid() ==> 0 <= r
      ensures id in playerStats && Valid() ==> playerStats[id].speedViolations <= r
    {
      StatsOf(id).speedViolations + StatsOf(id).teleportViolations
    }

    /** `should_kick_player`: five violations or more. */
    predicate ShouldKickPlayer(id: int)
      reads this
      ensures ShouldKickPlayer(id) ==> id in playerStats
      ensures ShouldKickPlayer(id) <==> GetPlayerViolations(id) >= KickViolations
    {
      GetPlayerViolations(id) >= KickViolations
    }
  }

  /** The counters of one player are never negative and its streak stays below the warning. */
  ghost predicate ValidStats(s: Stats)
  {
    0 <= s.kills && 0 <= s.deaths && 0 <= s.killStreak < KillSpreeWarning
    && 0 <= s.speedViolations && 0 <= s.teleportViolations
  }

  /**
   * A move to `newPos` at `now` is flagged when there is a last position,
   * its time is not zero, time has passed since, and the distance covered
   * exceeds 150 per second of it.
   */
  predicate MoveFlagged(s: Stats, newPos: Vec, now: real)
  {
    s.lastPos.Some? && s.lastPosTime != 0.0 && now - s.lastPosTime > 0.0
    && TooFast(s.lastPos.value, newPos, now - s.lastPosTime, MaxSpeed * SpeedHackFactor)
  }

  /** `input_data.get(key, False)`: a key missing from the input is not pressed. */
  predicate Pressed(input: map<string, bool>, key: string)
  {
    key in input && input[key]
  }
}
