/**
 * The deathmatch and team-deathmatch game modes: per-player and per-team
 * scores, team assignment, the end-of-round test, and the manager that
 * switches between the two modes.
 *
 * The game server a mode is attached to is represented by the ids of the
 * players its entity manager holds, in dictionary order; the operations
 * that read them take them as a parameter.
 */
module GameModes {
  import opened Wrappers
  import opened ListView

  /** Some entry of `m` is at least `limit`. */
  ghost predicate SomeReaches<K>(m: map<K, int>, limit: int)
  {
    exists k :: k in m && m[k] >= limit
  }

  /** The loop of `check_game_end` over the score values: is some score at the limit? */
  method AnyReaches<K>(m: map<K, int>, limit: int) returns (found: bool)
    ensures found <==> SomeReaches(m, limit)
  {
    var rest := m.Keys;
    while rest != {}
      invariant rest <= m.Keys
      invariant forall k :: k in m && k !in rest ==> m[k] < limit
      decreases |rest|
    {
      var k :| k in rest;
      if m[k] >= limit {
        return true;
      }
      rest := rest - {k};
    }
    return false;
  }

  /** Every id of `ids` mapped to 0. */
  function Zeroes(ids: seq<int>): (r: map<int, int>)
    ensures forall id :: id in r <==> id in ids
    ensures forall id :: id in r ==> r[id] == 0
  {
    map id | id in ids :: 0
  }

  /** The detailed statistics `get_player_stats` reports. */
  datatype Stats = Stats(score: int, frags: int, deaths: int, kdr: real)

  /** `DeathmatchGameMode`: every player for themself. */
  class Deathmatch {
    const scoreLimit: int
    const timeLimit: real
    var attached: bool
    var roundTime: real
    var scores: map<int, int>
    var frags: map<int, int>
    var deaths: map<int, int>

    /** The three tables track the same players, and a player's score is their frag count. */
    ghost predicate Valid()
      reads this
    {
      frags.Keys == scores.Keys && deaths.Keys == scores.Keys
      && forall id :: id in scores ==> scores[id] == frags[id] && 0 <= scores[id] && 0 <= deaths[id]
    }

    constructor ()
      ensures Valid() && !attached && roundTime == 0.0
      ensures scoreLimit == 20 && timeLimit == 600.0
      ensures scores == map[] && frags == map[] && deaths == map[]
    {
      scoreLimit, timeLimit := 20, 600.0;
      attached, roundTime := false, 0.0;
      scores, frags, deaths := map[], map[], map[];
    }

    /** `initialize`: attach to a server and start every player of it from zero. */
    method Initialize(playerIds: seq<int>)
      modifies this
      ensures Valid() && attached && roundTime == old(roundTime)
      ensures scores == Zeroes(playerIds) && frags == Zeroes(playerIds) && deaths == Zeroes(playerIds)
    {
      attached := true;
      ResetScores(playerIds);
    }

    /** `reset_scores`: empty tables, then a zero row for each player of the attached server. */
    method ResetScores(playerIds: seq<int>)
      modifies this
      ensures Valid() && attached == old(attached) && roundTime == old(roundTime)
      ensures var z := if attached then Zeroes(playerIds) else map[];
        scores == z && frags == z && deaths == z
    {
      var zeroes := map[];
      if attached {
        var i := 0;
        while i < |playerIds|
          invariant 0 <= i <= |playerIds|
          invariant zeroes == Zeroes(playerIds[..i])
        {
          assert playerIds[..i + 1] == playerIds[..i] + [playerIds[i]];
          zeroes := zeroes[playerIds[i] := 0];
          i := i + 1;
        }
        assert playerIds[..i] == playerIds;
      }
      scores, frags, deaths := zeroes, zeroes, zeroes;
    }

    /** `player_joined`: the player starts (or starts again) from zero. */
    method PlayerJoined(id: int)
      requires Valid()
      modifies this
      ensures Valid() && attached == old(attached) && roundTime == old(roundTime)
      ensures scores == old(scores)[id := 0] && frags == old(frags)[id := 0] && deaths == old(deaths)[id := 0]
    {
      scores := scores[id := 0];
      frags := frags[id := 0];
      deaths := deaths[id := 0];
    }

    /** `player_left`: the player's rows are dropped from all three tables. */
    method PlayerLeft(id: int)
      requires Valid()
      modifies this
      ensures Valid() && attached == old(attached) && roundTime == old(roundTime)
      ensures scores == old(scores) - {id} && frags == old(frags) - {id} && deaths == old(deaths) - {id}
    {
      if id in scores {
        scores := scores - {id};
      }
      if id in frags {
        frags := frags - {id};
      }
      if id in deaths {
        deaths := deaths - {id};
      }
    }

    /**
     * `player_killed`: a tracked victim gains a death; a killer gains a frag
     * and a point only when the id is given, is not 0 (Python's truth test)
     * and is tracked.
     */
    method PlayerKilled(victim: int, killer: Option<int>)
      requires Valid()
      modifies this
      ensures Valid() && attached == old(attached) && roundTime == old(roundTime)
      ensures victim in old(deaths) ==> deaths == old(deaths)[victim := old(deaths)[victim] + 1]
      ensures victim !in old(deaths) ==> deaths == old(deaths)
      ensures Credited(old(frags), killer) ==> (var k := killer.value;
        frags == old(frags)[k := old(frags)[k] + 1] && scores == old(scores)[k := old(scores)[k] + 1])
      ensures !Credited(old(frags), killer) ==> frags == old(frags) && scores == old(scores)
    {
      if victim in deaths {
        deaths := deaths[victim := deaths[victim] + 1];
      }
      if killer.Some? && killer.value != 0 && killer.value in frags {
        var k := killer.value;
        frags := frags[k := frags[k] + 1];
        scores := scores[k := scores[k] + 1];
      }
    }

    /** A round at time `t` with scores `s` is over: some score reached the limit, or the time limit is set and reached. */
    ghost predicate RoundOver(t: real, s: map<int, int>)
    {
      SomeReaches(s, scoreLimit) || (timeLimit > 0.0 && t >= timeLimit)
    }

    /** `check_game_end`: some score reached the limit, or the time limit is set and reached. */
    method CheckGameEnd() returns (over: bool)
      ensures over <==> RoundOver(roundTime, scores)
      ensures over <==> SomeReaches(scores, scoreLimit) || (timeLimit > 0.0 && roundTime >= timeLimit)
    {
      over := AnyReaches(scores, scoreLimit);
      if !over {
        over := timeLimit > 0.0 && roundTime >= timeLimit;
      }
    }

    /** `end_game`: with a server attached, a new round starts from zero. */
    method EndGame(playerIds: seq<int>)
      requires Valid()
      modifies this
      ensures Valid() && attached == old(attached)
      ensures attached ==> roundTime == 0.0 && scores == Zeroes(playerIds) && frags == Zeroes(playerIds) && deaths == Zeroes(playerIds)
      ensures !attached ==> roundTime == old(roundTime) && scores == old(scores) && frags == old(frags) && deaths == old(deaths)
    {
      if attached {
        ResetScores(playerIds);
        roundTime := 0.0;
      }
    }

    /** `update`: the round clock advances by `dt`, and an ended round is closed. */
    method Update(dt: real, playerIds: seq<int>)
      requires Valid()
      modifies this
      ensures Valid() && attached == old(attached)
      ensures var t := old(roundTime) + dt;
        if RoundOver(t, old(scores)) && attached then roundTime == 0.0 && scores == Zeroes(playerIds) && frags == Zeroes(playerIds) && deaths == Zeroes(playerIds)
        else roundTime == t && scores == old(scores) && frags == old(frags) && deaths == old(deaths)
    {
      roundTime := roundTime + dt;
      var over := CheckGameEnd();
      if over {
        EndGame(playerIds);
      }
    }

    /** `get_player_score`: the player's score, 0 for an unknown id. */
    function PlayerScore(id: int): (r: int)
      reads this
      ensures Valid() ==> 0 <= r
      ensures id !in scores ==> r == 0
      ensures Valid() && id in scores ==> r == frags[id]
    {
      if id in scores then scores[id] else 0
    }

    /**
     * `get_player_stats`: unknown ids read as zero, and the kill/death
     * ratio divides the frags by the deaths, counting no deaths as one.
     */
    function PlayerStats(id: int): (r: Stats)
      reads this
      ensures Valid() ==> r.score == r.frags && 0 <= r.frags && 0 <= r.deaths && 0.0 <= r.kdr
      ensures r.kdr * (Max(1, r.deaths) as real) == r.frags as real
      ensures r.deaths == 0 ==> r.kdr == r.frags as real
      ensures id !in scores && id !in frags && id !in deaths ==> r == Stats(0, 0, 0, 0.0)
    {
      var f := if id in frags then frags[id] else 0;
      var d := if id in deaths then deaths[id] else 0;
      Stats(if id in scores then scores[id] else 0, f, d, f as real / Max(1, d) as real)
    }
  }

  /** A tracked killer is credited when the id is given and is not 0. */
  predicate Credited(frags: map<int, int>, killer: Option<int>)
  {
    killer.Some? && killer.value != 0 && killer.value in frags
  }

  /** The number of players assigned to team `t`. */
  function TeamSize(teams: map<int, int>, t: int): nat
  {
    |set p | p in teams && teams[p] == t|
  }

  /** The two teams differ in size by at most one. */
  predicate Balanced(teams: map<int, int>)
  {
    -1 <= TeamSize(teams, 0) - TeamSize(teams, 1) <= 1
  }

  /** Every player is on team 0 or team 1. */
  predicate TwoTeams(teams: map<int, int>)
  {
    forall p :: p in teams ==> teams[p] == 0 || teams[p] == 1
  }

  /** Adding a new player to team `t` grows that team by one and leaves the other teams as they were. */
  lemma AddMember(teams: map<int, int>, id: int, t: int, u: int)
    requires id !in teams
    ensures TeamSize(teams[id := t], t) == TeamSize(teams, t) + 1
    ensures u != t ==> TeamSize(teams[id := t], u) == TeamSize(teams, u)
  {
    var after := teams[id := t];
    assert (set p | p in after && after[p] == t) == (set p | p in teams && teams[p] == t) + {id};
    if u != t {
      assert (set p | p in after && after[p] == u) == (set p | p in teams && teams[p] == u);
    }
  }

  /** The team `player_joined` picks: team 0 unless it already has more players than team 1. */
  function JoinTeam(teams: map<int, int>): (t: int)
    ensures 0 <= t < 2
    ensures TeamSize(teams, t) <= TeamSize(teams, 1 - t)
  {
    if TeamSize(teams, 0) <= TeamSize(teams, 1) then 0 else 1
  }

  /** A newcomer placed by `player_joined` keeps two balanced teams balanced. */
  lemma JoinKeepsBalance(teams: map<int, int>, id: int)
    requires Balanced(teams) && id !in teams
    ensures Balanced(teams[id := JoinTeam(teams)])
    ensures TeamSize(teams[id := JoinTeam(teams)], JoinTeam(teams)) == TeamSize(teams, JoinTeam(teams)) + 1
  {
    var t := JoinTeam(teams);
    AddMember(teams, id, t, 1 - t);
  }

  /** The team credited for a kill: the killer's, when both teams are known and differ. */
  function KillCredit(teams: map<int, int>, victim: int, killer: Option<int>): (r: Option<int>)
    ensures r.Some? <==> killer.Some? && killer.value in teams && victim in teams && teams[killer.value] != teams[victim]
    ensures r.Some? ==> r.value == teams[killer.value]
  {
    if killer.Some? && killer.value in teams && victim in teams then
      var kt, vt := teams[killer.value], teams[victim];
      if kt != vt || FriendlyFireEnabled() then Some(kt) else None
    else None
  }

  /** `friendly_fire_enabled`: always off in team deathmatch. */
  predicate FriendlyFireEnabled()
    ensures !FriendlyFireEnabled()
  {
    false
  }

  /** The teams are the players dealt out in turn: the i-th player on team i mod 2, and nobody else. */
  predicate Dealt(teams: map<int, int>, playerIds: seq<int>)
  {
    (forall i :: 0 <= i < |playerIds| ==> playerIds[i] in teams && teams[playerIds[i]] == i % 2)
    && forall p :: p in teams ==> p in playerIds
  }

  /** The loop of `reset_scores`: the i-th player goes to team i mod 2, which leaves the teams balanced. */
  method DealTeams(playerIds: seq<int>) returns (teams: map<int, int>)
    requires NoDuplicates(playerIds)
    ensures TwoTeams(teams) && Balanced(teams)
    ensures Dealt(teams, playerIds)
  {
    teams := map[];
    var i := 0;
    while i < |playerIds|
      invariant 0 <= i <= |playerIds|
      invariant TwoTeams(teams)
      invariant forall j :: 0 <= j < i ==> playerIds[j] in teams && teams[playerIds[j]] == j % 2
      invariant forall p :: p in teams ==> p in playerIds[..i]
      invariant TeamSize(teams, 0) == (i + 1) / 2 && TeamSize(teams, 1) == i / 2
    {
      var id := playerIds[i];
      assert id !in teams;
      AddMember(teams, id, i % 2, 1 - i % 2);
      teams := teams[id := i % 2];
      i := i + 1;
    }
  }

  /** `TeamDeathmatchGameMode`: two teams score for their kills. */
  class TeamDeathmatch {
    const scoreLimit: int
    const timeLimit: real
    const maxTeams: int
    var attached: bool
    var roundTime: real
    var teamScores: map<int, int>
    var playerTeams: map<int, int>

    /** Both teams have a score and every player is on one of them. */
    ghost predicate Valid()
      reads this
    {
      maxTeams == 2 && teamScores.Keys == {0, 1} && TwoTeams(playerTeams)
      && forall p :: p in playerTeams ==> playerTeams[p] in teamScores
    }

    constructor ()
      ensures Valid() && !attached && roundTime == 0.0
      ensures scoreLimit == 30 && timeLimit == 900.0
      ensures teamScores == map[0 := 0, 1 := 0] && playerTeams == map[]
    {
      scoreLimit, timeLimit, maxTeams := 30, 900.0, 2;
      attached, roundTime := false, 0.0;
      teamScores, playerTeams := map[0 := 0, 1 := 0], map[];
    }

    /** `initialize`: attach to a server and deal its players out to the two teams. */
    method Initialize(playerIds: seq<int>)
      requires Valid() && NoDuplicates(playerIds)
      modifies this
      ensures Valid() && attached && roundTime == old(roundTime)
      ensures teamScores == map[0 := 0, 1 := 0] && Balanced(playerTeams) && Dealt(playerTeams, playerIds)
    {
      attached := true;
      ResetScores(playerIds);
    }

    /** `reset_scores`: both team scores back to 0, and the i-th player of the attached server on team i mod 2. */
    method ResetScores(playerIds: seq<int>)
      requires Valid() && NoDuplicates(playerIds)
      modifies this
      ensures Valid() && attached == old(attached) && roundTime == old(roundTime)
      ensures teamScores == map[0 := 0, 1 := 0] && Balanced(playerTeams)
      ensures attached ==> Dealt(playerTeams, playerIds)
      ensures !attached ==> playerTeams == map[]
    {
      var teams := map[];
      if attached {
        teams := DealTeams(playerIds);
      }
      teamScores, playerTeams := map[0 := 0, 1 := 0], teams;
    }

    /** `player_joined`: the player goes to the smaller team, team 0 on a tie. */
    method PlayerJoined(id: int)
      requires Valid()
      modifies this
      ensures Valid() && attached == old(attached) && roundTime == old(roundTime) && teamScores == old(teamScores)
      ensures playerTeams == old(playerTeams)[id := JoinTeam(old(playerTeams))]
    {
      var team0 := TeamSize(playerTeams, 0);
      var team1 := TeamSize(playerTeams, 1);
      if team0 <= team1 {
        playerTeams := playerTeams[id := 0];
      } else {
        playerTeams := playerTeams[id := 1];
      }
    }

    /** `player_left`: the player's team entry is dropped. */
    method PlayerLeft(id: int)
      requires Valid()
      modifies this
      ensures Valid() && attached == old(attached) && roundTime == old(roundTime) && teamScores == old(teamScores)
      ensures playerTeams == old(playerTeams) - {id}
    {
      if id in playerTeams {
        playerTeams := playerTeams - {id};
      }
    }

    /** `player_killed`: the killer's team scores a point unless the kill is within one team. */
    method PlayerKilled(victim: int, killer: Option<int>)
      requires Valid()
      modifies this
      ensures Valid() && attached == old(attached) && roundTime == old(roundTime) && playerTeams == old(playerTeams)
      ensures var credit := KillCredit(old(playerTeams), victim, killer);
        (credit.Some? ==> credit.value in old(teamScores))
        && teamScores == if credit.Some? then old(teamScores)[credit.value := old(teamScores)[credit.value] + 1] else old(teamScores)
    {
      var victimTeam := if victim in playerTeams then Some(playerTeams[victim]) else None;
      var killerTeam := if killer.Some? && killer.value in playerTeams then Some(playerTeams[killer.value]) else None;
      if killerTeam.Some? {
        assert killer.value in playerTeams;
        assert forall p :: p in playerTeams ==> playerTeams[p] in teamScores;
        assert playerTeams[killer.value] in teamScores;
      }
      if killerTeam.Some? && victimTeam.Some? {
        if killerTeam.value != victimTeam.value || FriendlyFireEnabled() {
          teamScores := teamScores[killerTeam.value := teamScores[killerTeam.value] + 1];
        }
      }
    }

    /** A round at time `t` with team scores `s` is over: some team reached the limit, or the time limit is set and reached. */
    ghost predicate RoundOver(t: real, s: map<int, int>)
    {
      SomeReaches(s, scoreLimit) || (timeLimit > 0.0 && t >= timeLimit)
    }

    /** `check_game_end`: some team reached the limit, or the time limit is set and reached. */
    method CheckGameEnd() returns (over: bool)
      ensures over <==> RoundOver(roundTime, teamScores)
      ensures over <==> SomeReaches(teamScores, scoreLimit) || (timeLimit > 0.0 && roundTime >= timeLimit)
    {
      over := AnyReaches(teamScores, scoreLimit);
      if !over {
        over := timeLimit > 0.0 && roundTime >= timeLimit;
      }
    }

    /** `end_game`: with a server attached, a new round starts with fresh teams. */
    method EndGame(playerIds: seq<int>)
      requires Valid() && NoDuplicates(playerIds)
      modifies this
      ensures Valid() && attached == old(attached)
      ensures attached ==> roundTime == 0.0 && teamScores == map[0 := 0, 1 := 0] && Balanced(playerTeams) && Dealt(playerTeams, playerIds)
      ensures !attached ==> roundTime == old(roundTime) && teamScores == old(teamScores) && playerTeams == old(playerTeams)
    {
      if attached {
        ResetScores(playerIds);
        roundTime := 0.0;
      }
    }

    /** `update`: the round clock advances by `dt`, and an ended round is closed. */
    method Update(dt: real, playerIds: seq<int>)
      requires Valid() && NoDuplicates(playerIds)
      modifies this
      ensures Valid() && attached == old(attached)
      ensures var t := old(roundTime) + dt;
        if RoundOver(t, old(teamScores)) && attached
        then roundTime == 0.0 && teamScores == map[0 := 0, 1 := 0] && Balanced(playerTeams) && Dealt(playerTeams, playerIds)
        else roundTime == t && teamScores == old(teamScores) && playerTeams == old(playerTeams)
    {
      roundTime := roundTime + dt;
      var over := CheckGameEnd();
      if over {
        EndGame(playerIds);
      }
    }

    /** `get_team_score`: the team's score, 0 for an unknown team. */
    function TeamScore(team: int): (r: int)
      reads this
      ensures team in teamScores ==> r == teamScores[team]
      ensures team !in teamScores ==> r == 0
    {
      if team in teamScores then teamScores[team] else 0
    }

    /** `get_player_team`: the player's team, -1 for an unknown player. */
    function PlayerTeam(id: int): (r: int)
      reads this
      ensures r == -1 <==> id !in playerTeams || playerTeams[id] == -1
      ensures Valid() ==> -1 <= r < 2 && (r == -1 <==> id !in playerTeams)
    {
      if id in playerTeams then playerTeams[id] else -1
    }
  }

  /** The two modes the manager offers. */
  datatype ModeName = DM | TDM

  /** The mode a short name selects. */
  function ModeNamed(name: string): (m: Option<ModeName>)
    ensures m.Some? <==> name == "DM" || name == "TDM"
    ensures m == Some(DM) <==> name == "DM"
  {
    if name == "DM" then Some(DM) else if name == "TDM" then Some(TDM) else None
  }

  /** `GameModeManager`: one instance of each mode and the active one. */
  class GameModeManager {
    const deathmatch: Deathmatch
    const teamDeathmatch: TeamDeathmatch
    var active: Option<ModeName>

    ghost predicate Valid()
      reads this, deathmatch, teamDeathmatch
    {
      deathmatch.Valid() && teamDeathmatch.Valid()
    }

    constructor ()
      ensures Valid() && active == None && fresh(deathmatch) && fresh(teamDeathmatch)
    {
      deathmatch := new Deathmatch();
      teamDeathmatch := new TeamDeathmatch();
      active := None;
    }

    /**
     * `set_game_mode`: a known name becomes the active mode, initialised
     * with the server when one is given; an unknown name is refused and
     * changes nothing.
     */
    method SetGameMode(name: string, server: Option<seq<int>>) returns (ok: bool)
      requires Valid() && (server.Some? ==> NoDuplicates(server.value))
      modifies this, deathmatch, teamDeathmatch
      ensures Valid() && (ok <==> ModeNamed(name).Some?)
      ensures ok ==> active == ModeNamed(name)
      ensures !ok ==> active == old(active) && unchanged(deathmatch, teamDeathmatch)
      ensures active == Some(DM) && ok ==> (unchanged(teamDeathmatch)
        && (server.None? ==> unchanged(deathmatch))
        && (server.Some? ==>
              deathmatch.attached && deathmatch.roundTime == old(deathmatch.roundTime)
              && deathmatch.scores == Zeroes(server.value) && deathmatch.frags == Zeroes(server.value)
              && deathmatch.deaths == Zeroes(server.value)))
      ensures active == Some(TDM) && ok ==> (unchanged(deathmatch)
        && (server.None? ==> unchanged(teamDeathmatch))
        && (server.Some? ==>
              teamDeathmatch.attached && teamDeathmatch.roundTime == old(teamDeathmatch.roundTime)
              && teamDeathmatch.teamScores == map[0 := 0, 1 := 0]
              && Balanced(teamDeathmatch.playerTeams) && Dealt(teamDeathmatch.playerTeams, server.value)))
    {
      var mode := ModeNamed(name);
      if mode.None? {
        return false;
      }
      active := mode;
      if server.Some? {
        if mode.value == DM {
          deathmatch.Initialize(server.value);
        } else {
          teamDeathmatch.Initialize(server.value);
        }
      }
      return true;
    }

    /** `update`: the active mode, if any, advances by `dt`. */
    method Update(dt: real, playerIds: seq<int>)
      requires Valid() && NoDuplicates(playerIds)
      modifies deathmatch, teamDeathmatch
      ensures Valid()
      ensures active != Some(DM) ==> unchanged(deathmatch)
      ensures active != Some(TDM) ==> unchanged(teamDeathmatch)
      ensures active.None? ==> unchanged(deathmatch, teamDeathmatch)
      ensures active == Some(DM) ==> var d := deathmatch; var t := old(d.roundTime) + dt;
        d.attached == old(d.attached)
        && if d.RoundOver(t, old(d.scores)) && d.attached
           then d.roundTime == 0.0 && d.scores == Zeroes(playerIds) && d.frags == Zeroes(playerIds) && d.deaths == Zeroes(playerIds)
           else d.roundTime == t && d.scores == old(d.scores) && d.frags == old(d.frags) && d.deaths == old(d.deaths)
      ensures active == Some(TDM) ==> var m := teamDeathmatch; var t := old(m.roundTime) + dt;
        m.attached == old(m.attached)
        && if m.RoundOver(t, old(m.teamScores)) && m.attached
           then m.roundTime == 0.0 && m.teamScores == map[0 := 0, 1 := 0] && Balanced(m.playerTeams) && Dealt(m.playerTeams, playerIds)
           else m.roundTime == t && m.teamScores == old(m.teamScores) && m.playerTeams == old(m.playerTeams)
    {
      if active == Some(DM) {
        deathmatch.Update(dt, playerIds);
      } else if active == Some(TDM) {
        teamDeathmatch.Update(dt, playerIds);
      }
    }
  }
}
