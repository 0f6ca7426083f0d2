/**
 * The server's vote manager: one vote at a time on a map change, a kick or
 * a server option; players vote yes or no and may change their vote; a
 * vote that runs out of time is decided by a strict majority of the votes
 * cast. The clock is the `now` parameter of the operations that read it,
 * and the action a passed vote triggers is recorded in a log.
 */
module Votes {
  import opened Wrappers
  import opened ListView

  /** The voters in `voters` whose ballot is `choice`. */
  function Voted<K>(voters: map<K, bool>, choice: bool): set<K>
  {
    set p | p in voters && voters[p] == choice
  }

  /** The number of voters in `voters` who voted `choice`. */
  function Ballots<K>(voters: map<K, bool>, choice: bool): nat
  {
    |Voted(voters, choice)|
  }

  /** Two sets with the same members are equal. */
  lemma SameMembers<K>(a: set<K>, b: set<K>)
    requires forall p :: p in a <==> p in b
    ensures a == b
  {
  }

  /** Recording `vote` for `player` takes them off whichever side they were on and puts them on the side of `vote`. */
  lemma VotedAfterVote<K>(voters: map<K, bool>, player: K, vote: bool, choice: bool)
    ensures Voted(voters[player := vote], choice)
      == (Voted(voters, choice) - {player}) + (if vote == choice then {player} else {})
  {
    var m := voters[player := vote];
    forall p
      ensures p in Voted(m, choice) <==> p in (Voted(voters, choice) - {player}) + (if vote == choice then {player} else {})
    {
      if p != player {
        assert p in m <==> p in voters;
        if p in m { assert m[p] == voters[p]; }
      }
    }
    SameMembers(Voted(m, choice), (Voted(voters, choice) - {player}) + (if vote == choice then {player} else {}));
  }

  /** Recording `vote` for `player` moves their ballot, if any, from its old side to the new one. */
  lemma BallotsAfterVote<K>(voters: map<K, bool>, player: K, vote: bool, choice: bool)
    ensures Ballots(voters[player := vote], choice)
      == Ballots(voters, choice) - (if player in voters && voters[player] == choice then 1 else 0) + (if vote == choice then 1 else 0)
  {
    VotedAfterVote(voters, player, vote, choice);
    var before := Voted(voters, choice);
    var kept := before - {player};
    var added: set<K> := if vote == choice then {player} else {};
    assert player in before <==> player in voters && voters[player] == choice;
    assert |kept| == |before| - (if player in before then 1 else 0);
    assert |kept + added| == |kept| + |added| by {
      assert kept !! added;
    }
  }

  /** Every voter is on exactly one side, so the two tallies add up to the number of distinct voters. */
  lemma BallotsCoverVoters<K>(voters: map<K, bool>)
    ensures Ballots(voters, true) + Ballots(voters, false) == |voters|
  {
    var yes, no := Voted(voters, true), Voted(voters, false);
    forall p
      ensures p in yes + no <==> p in voters.Keys
    {
    }
    SameMembers(yes + no, voters.Keys);
    assert yes !! no;
    assert |yes + no| == |yes| + |no|;
    assert |voters.Keys| == |voters|;
  }

  /** Nobody has voted either way in an empty ballot box. */
  lemma NoBallots<K>(choice: bool)
    ensures Ballots<K>(map[], choice) == 0
  {
  }

  /** `_calculate_result` on two tallies: no votes fail, otherwise strictly more yes than no. */
  function Passes(yes: int, no: int): (r: bool)
    ensures r ==> yes > no
    ensures 0 <= yes && 0 <= no ==> (r <==> yes > no)
  {
    if yes + no == 0 then false else yes > no
  }

  /** `Vote`: one vote in progress. */
  class Vote {
    const kind: string
    const subject: string
    const initiator: string
    const startTime: real
    const timeLimit: int
    var votesYes: int
    var votesNo: int
    var voters: map<string, bool>
    var active: bool
    var executed: bool

    /** The two counters are the tallies of the recorded ballots. */
    ghost predicate Valid()
      reads this
    {
      votesYes == Ballots(voters, true) && votesNo == Ballots(voters, false)
    }

    /** A vote started at `now`, with the default limit of 30 seconds. */
    constructor (kind: string, subject: string, initiator: string, now: real)
      ensures Valid() && this.kind == kind && this.subject == subject && this.initiator == initiator
      ensures startTime == now && timeLimit == 30
      ensures voters == map[] && votesYes == 0 && votesNo == 0 && active && !executed
    {
      this.kind, this.subject, this.initiator := kind, subject, initiator;
      startTime, timeLimit := now, 30;
      votesYes, votesNo, voters := 0, 0, map[];
      active, executed := true, false;
      new;
      NoBallots<string>(true);
      NoBallots<string>(false);
    }

    /**
     * `time_remaining`: the whole seconds left, truncated toward zero and
     * never negative, so it reads 0 once less than a second is left.
     */
    function TimeRemaining(now: real): (r: int)
      reads this
      ensures 0 <= r
      ensures r == 0 <==> timeLimit as real - (now - startTime) < 1.0
      ensures r > 0 ==> r as real <= timeLimit as real - (now - startTime) < r as real + 1.0
    {
      Max(0, Trunc(timeLimit as real - (now - startTime)))
    }

    /** `is_expired`: less than one second of the limit is left. */
    predicate IsExpired(now: real)
      reads this
      ensures IsExpired(now) <==> now - startTime > timeLimit as real - 1.0
    {
      TimeRemaining(now) <= 0
    }

    /** `get_result`: decided only while active and once expired, and then by the tallies. */
    function GetResult(now: real): (r: Option<bool>)
      reads this
      ensures r.Some? <==> active && IsExpired(now)
      ensures r.Some? ==> (r.value <==> votesYes + votesNo != 0 && votesYes > votesNo)
    {
      if !active then None else if IsExpired(now) then Some(CalculateResult()) else None
    }

    /** `_calculate_result`: with the counters kept as tallies, a tie (and no votes at all) fails. */
    function CalculateResult(): (r: bool)
      reads this
      ensures r ==> votesYes > votesNo
      ensures Valid() ==> (r <==> votesYes > votesNo)
    {
      Passes(votesYes, votesNo)
    }
  }

  /** The action a passed vote asks the server to carry out. */
  datatype Action = ChangeMap(name: string) | Kick(player: string) | ServerOption(option: string)

  /** The vote types `start_vote` accepts. */
  predicate KnownKind(kind: string)
  {
    kind == "map" || kind == "kick" || kind == "option"
  }

  /** The action `execute_vote` carries out for a passed vote of a kind, none for an unknown kind. */
  function ActionFor(kind: string, subject: string): (r: seq<Action>)
    ensures |r| == (if KnownKind(kind) then 1 else 0)
    ensures kind == "map" ==> r == [ChangeMap(subject)]
    ensures kind == "kick" ==> r == [Kick(subject)]
    ensures kind == "option" ==> r == [ServerOption(subject)]
  {
    if kind == "map" then [ChangeMap(subject)]
    else if kind == "kick" then [Kick(subject)]
    else if kind == "option" then [ServerOption(subject)]
    else []
  }

  /** What `get_vote_status` reports. */
  datatype VoteStatus =
    | NoVote
    | Status(active: bool, kind: string, subject: string, initiator: string,
             yes: int, no: int, total: int, timeRemaining: int, required: int)

  /** What `get_player_vote_status` reports. */
  datatype PlayerVoteStatus = PlayerVoteStatus(canVote: bool, voted: bool, vote: Option<bool>)

  /** `VoteManager`: the current vote, the cooldown between votes, and the actions carried out. */
  class VoteManager {
    var currentVote: Vote?
    const voteCooldown: real
    var lastVoteTime: real
    const votingEnabled: bool
    const voteThreshold: real
    const minVoters: int
    var performed: seq<Action>

    ghost predicate Valid()
      reads this, currentVote
    {
      voteThreshold == 0.5 && (currentVote != null ==> currentVote.Valid())
    }

    /** A manager with no vote; `votingEnabled` is the `sv_map_voting` setting. */
    constructor (votingEnabled: bool)
      ensures Valid() && currentVote == null && performed == []
      ensures voteCooldown == 10.0 && lastVoteTime == 0.0 && this.votingEnabled == votingEnabled
      ensures voteThreshold == 0.5 && minVoters == 2
    {
      currentVote := null;
      voteCooldown, lastVoteTime := 10.0, 0.0;
      this.votingEnabled := votingEnabled;
      voteThreshold, minVoters := 0.5, 2;
      performed := [];
    }

    /** `can_start_vote`: voting is on, the cooldown has passed and no vote is active. */
    predicate CanStartVote(playerName: string, now: real)
      reads this, currentVote
      ensures CanStartVote(playerName, now) ==> votingEnabled && lastVoteTime + voteCooldown <= now
      ensures CanStartVote(playerName, now) ==> currentVote == null || !currentVote.active
      ensures votingEnabled && lastVoteTime + voteCooldown <= now && currentVote == null ==> CanStartVote(playerName, now)
    {
      votingEnabled && !(now - lastVoteTime < voteCooldown) && !(currentVote != null && currentVote.active)
    }

    /**
     * `start_vote`: refused when `can_start_vote` fails or the type is not
     * map, kick or option; otherwise a fresh vote starts and the start time
     * is recorded for the cooldown.
     */
    method StartVote(kind: string, subject: string, initiator: string, now: real) returns (ok: bool)
      requires Valid()
      modifies this
      ensures Valid() && performed == old(performed)
      ensures ok <==> old(CanStartVote(initiator, now)) && KnownKind(kind)
      ensures ok ==> (fresh(currentVote) && currentVote.kind == kind && currentVote.subject == subject
        && currentVote.initiator == initiator && currentVote.startTime == now && currentVote.active
        && currentVote.voters == map[] && lastVoteTime == now)
      ensures !ok ==> currentVote == old(currentVote) && lastVoteTime == old(lastVoteTime)
    {
      if !votingEnabled {
        return false;
      }
      if now - lastVoteTime < voteCooldown {
        return false;
      }
      if currentVote != null && currentVote.active {
        return false;
      }
      if !KnownKind(kind) {
        return false;
      }
      currentVote := new Vote(kind, subject, initiator, now);
      lastVoteTime := now;
      return true;
    }

    /**
     * `vote`: refused without an active vote; otherwise the player's ballot
     * is recorded (replacing an earlier one), and a vote that has expired
     * by now is closed, marked executed and carried out.
     */
    method CastVote(playerName: string, choice: bool, now: real) returns (ok: bool)
      requires Valid()
      modifies this, currentVote
      ensures Valid() && currentVote == old(currentVote) && lastVoteTime == old(lastVoteTime)
      ensures old(currentVote == null || !currentVote.active) ==> (!ok && performed == old(performed)
        && (currentVote != null ==> unchanged(currentVote)))
      ensures old(currentVote != null && currentVote.active) ==> (
        currentVote.voters == old(currentVote.voters)[playerName := choice]
        && var passed := Passes(currentVote.votesYes, currentVote.votesNo);
        if currentVote.IsExpired(now) then
          !currentVote.active && currentVote.executed && ok == passed
          && performed == old(performed) + (if passed then ActionFor(currentVote.kind, currentVote.subject) else [])
        else
          ok && currentVote.active && currentVote.executed == old(currentVote.executed) && performed == old(performed))
    {
      if currentVote == null || !currentVote.active {
        return false;
      }
      var v := currentVote;
      BallotsAfterVote(v.voters, playerName, choice, true);
      BallotsAfterVote(v.voters, playerName, choice, false);
      if playerName in v.voters {
        if v.voters[playerName] {
          v.votesYes := v.votesYes - 1;
        } else {
          v.votesNo := v.votesNo - 1;
        }
      }
      v.voters := v.voters[playerName := choice];
      if choice {
        v.votesYes := v.votesYes + 1;
      } else {
        v.votesNo := v.votesNo + 1;
      }
      var result := v.GetResult(now);
      if result.Some? {
        v.active := false;
        v.executed := true;
        ok := ExecuteVote(result.value);
        return;
      }
      return true;
    }

    /** `execute_vote`: only an executed vote counts; a passed one carries out its action. */
    method ExecuteVote(result: bool) returns (ok: bool)
      modifies this
      ensures currentVote == old(currentVote) && lastVoteTime == old(lastVoteTime)
      ensures ok <==> currentVote != null && currentVote.executed && result
      ensures performed == old(performed) + (if ok then ActionFor(currentVote.kind, currentVote.subject) else [])
    {
      if currentVote == null || !currentVote.executed {
        return false;
      }
      if result {
        performed := performed + ActionFor(currentVote.kind, currentVote.subject);
        return true;
      }
      return false;
    }

    /** `_get_votes_needed`: 0 without a vote, else the larger of the minimum and a strict majority of the votes cast. */
    function VotesNeeded(): (r: int)
      reads this, currentVote
      ensures currentVote == null ==> r == 0
      ensures currentVote != null ==> minVoters <= r
      ensures Valid() && currentVote != null ==>
        (var total := currentVote.votesYes + currentVote.votesNo; total < 2 * r && 2 * (r - 1) <= Max(total, 2 * (minVoters - 1)))
    {
      if currentVote == null then 0
      else
        var total := currentVote.votesYes + currentVote.votesNo;
        Max(minVoters, Trunc(total as real * voteThreshold) + 1)
    }

    /**
     * `update`: an expired vote is closed and handed to `execute_vote` as
     * failed, so expiry never carries out an action.
     */
    method Update(now: real)
      requires Valid()
      modifies this, currentVote
      ensures Valid() && currentVote == old(currentVote) && lastVoteTime == old(lastVoteTime)
      ensures performed == old(performed)
      ensures currentVote != null ==> (currentVote.voters == old(currentVote.voters)
        && currentVote.executed == old(currentVote.executed)
        && currentVote.active == (old(currentVote.active) && !currentVote.IsExpired(now)))
    {
      if currentVote != null {
        if currentVote.IsExpired(now) {
          currentVote.active := false;
          var _ := ExecuteVote(false);
        }
      }
    }

    /** `get_vote_status`: the tallies, their total, the time left and the votes needed. */
    function GetVoteStatus(now: real): (r: VoteStatus)
      reads this, currentVote
      ensures r.NoVote? <==> currentVote == null
      ensures r.Status? ==> r.total == r.yes + r.no && r.required == VotesNeeded() && 0 <= r.timeRemaining
      ensures r.Status? ==> r.yes == currentVote.votesYes && r.no == currentVote.votesNo && r.active == currentVote.active
      ensures r.Status? && Valid() ==> 0 <= r.yes && 0 <= r.no && r.total < 2 * r.required
      ensures r.Status? && Valid() ==> r.total == |currentVote.voters|
    {
      if currentVote == null then NoVote
      else
        var v := currentVote;
        BallotsCoverVoters(v.voters);
        Status(v.active, v.kind, v.subject, v.initiator, v.votesYes, v.votesNo, v.votesYes + v.votesNo,
               v.TimeRemaining(now), VotesNeeded())
    }

    /** `get_player_vote_status`: a player may vote once, while the vote is active. */
    function GetPlayerVoteStatus(playerName: string): (r: PlayerVoteStatus)
      reads this, currentVote
      ensures currentVote == null ==> r == PlayerVoteStatus(false, false, None)
      ensures currentVote != null ==> (r.voted <==> playerName in currentVote.voters)
      ensures r.canVote <==> currentVote != null && currentVote.active && !r.voted
      ensures r.vote.Some? <==> r.voted
      ensures r.vote.Some? ==> r.vote.value == currentVote.voters[playerName]
    {
      if currentVote == null then PlayerVoteStatus(false, false, None)
      else
        var voted := playerName in currentVote.voters;
        PlayerVoteStatus(currentVote.active && !voted, voted, if voted then Some(currentVote.voters[playerName]) else None)
    }

    /** `cancel_vote`: the vote is deactivated and dropped. */
    method CancelVote(reason: string)
      requires Valid()
      modifies this, currentVote
      ensures Valid() && currentVote == null && performed == old(performed) && lastVoteTime == old(lastVoteTime)
      ensures old(currentVote) != null ==> !old(currentVote).active
    {
      if currentVote != null {
        currentVote.active := false;
        currentVote := null;
      }
    }
  }
}
