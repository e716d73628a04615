/**
 One poll of a live game (`duringGameUpdate`): compare two reads of the
 live-game feed taken some seconds apart, report whether either team scored
 and whether the game is over, and collect the monitored team's shots on
 goal among the plays that appeared between the reads.

 The feed reads are parameters: `before` and `after` are the two reads the
 scores and play counts come from; `refetched` is the third read the program
 makes when the team scored, from which both the goal notice and the new-play
 scan then read their plays.
 */
module Poll {
  import opened Feed
  import GoalSong

  /** A shot on goal as the poll returns it: position and `sortOrder`. */
  datatype ShotMark = ShotMark(x: int, y: int, sortOrder: int)

  function MarkOf(p: Play): ShotMark {
    ShotMark(p.x, p.y, p.sortOrder)
  }

  /** The goal record returned when no goal notice was produced. */
  const NoGoalInfo: GoalSong.GoalInfo := GoalSong.GoalInfo(-1, -1, -1, -1)

  datatype PollResult = PollResult(teamScored: bool, opponentScored: bool,
                                   teamScore: int, opponentScore: int,
                                   gameOver: bool, goal: GoalSong.GoalInfo, shots: seq<ShotMark>)

  /** The goal notice failed, or the new-play scan indexed past the end of the plays it read. */
  datatype PollError = GoalNoticeFailed(cause: GoalSong.GoalError) | PlayIndexOutOfRange

  /** The monitored team's shots on goal in `ps`, in order. */
  function TeamShots(ps: seq<Play>): seq<ShotMark>
    decreases |ps|
  {
    if |ps| == 0 then []
    else TeamShots(ps[..|ps| - 1]) + (if IsTeamShot(ps[|ps| - 1]) then [MarkOf(ps[|ps| - 1])] else [])
  }

  /** At most one mark per play. */
  lemma {:induction false} TeamShotsBound(ps: seq<Play>)
    ensures |TeamShots(ps)| <= |ps|
    decreases |ps|
  {
    if |ps| > 0 {
      TeamShotsBound(ps[..|ps| - 1]);
    }
  }

  /** Every mark comes from a team shot of `ps`. */
  lemma {:induction false} TeamShotsSound(ps: seq<Play>, m: ShotMark)
    requires m in TeamShots(ps)
    ensures exists k :: 0 <= k < |ps| && IsTeamShot(ps[k]) && MarkOf(ps[k]) == m
    decreases |ps|
  {
    var init := ps[..|ps| - 1];
    if m in TeamShots(init) {
      TeamShotsSound(init, m);
      var k :| 0 <= k < |init| && IsTeamShot(init[k]) && MarkOf(init[k]) == m;
      assert ps[k] == init[k];
    } else {
      assert IsTeamShot(ps[|ps| - 1]) && MarkOf(ps[|ps| - 1]) == m;
    }
  }

  /** Every team shot of `ps` is marked. */
  lemma {:induction false} TeamShotsComplete(ps: seq<Play>, k: int)
    requires 0 <= k < |ps| && IsTeamShot(ps[k])
    ensures MarkOf(ps[k]) in TeamShots(ps)
    decreases |ps|
  {
    if k < |ps| - 1 {
      var init := ps[..|ps| - 1];
      assert init[k] == ps[k];
      TeamShotsComplete(init, k);
    }
  }

  /** Marks keep the order of the plays: the marks of a concatenation are the concatenated marks. */
  lemma {:induction false} TeamShotsAppend(a: seq<Play>, b: seq<Play>)
    ensures TeamShots(a + b) == TeamShots(a) + TeamShots(b)
    decreases |b|
  {
    if |b| == 0 {
      assert a + b == a;
    } else {
      var b' := b[..|b| - 1];
      assert (a + b)[..|a + b| - 1] == a + b';
      TeamShotsAppend(a, b');
    }
  }

  /**
   The new-play scan: walk indices `numPlays .. newNumPlays - 1` of `plays`
   in order and keep the monitored team's shots on goal.
   */
  method ScanNewPlays(plays: seq<Play>, numPlays: nat, newNumPlays: nat) returns (shots: seq<ShotMark>)
    requires numPlays <= newNumPlays <= |plays|
    ensures shots == TeamShots(plays[numPlays..newNumPlays])
    ensures |shots| <= newNumPlays - numPlays
  {
    shots := [];
    var i := numPlays;
    while i < newNumPlays
      invariant numPlays <= i <= newNumPlays
      invariant shots == TeamShots(plays[numPlays..i])
    {
      i := i + 1;
      var event := plays[i - 1];
      assert plays[numPlays..i][..i - 1 - numPlays] == plays[numPlays..i - 1];
      if event.kind == ShotOnGoal && event.owner == TeamId {
        shots := shots + [ShotMark(event.x, event.y, event.sortOrder)];
      }
    }
    TeamShotsBound(plays[numPlays..newNumPlays]);
  }

  /** `duringGameUpdate` for the side pair the daily lookup reported. */
  method DuringGameUpdate(team: Side, opponent: Side, before: Snapshot, after: Snapshot, refetched: Snapshot,
                          roster: seq<RosterSpot>, songs: map<string, string>)
    returns (r: Result<PollResult, PollError>)
    ensures r.Ok? ==> (r.value.teamScored <==> before.Score(team) < after.Score(team))
    ensures r.Ok? ==> (r.value.opponentScored <==> before.Score(opponent) < after.Score(opponent))
    ensures r.Ok? ==> r.value.teamScore == after.Score(team) && r.value.opponentScore == after.Score(opponent)
    ensures r.Ok? ==> (r.value.gameOver <==> after.gameState == FinalState)
    // No new plays: nothing can fail and no event is reported, whatever the scores did.
    ensures |after.plays| <= |before.plays| ==> r.Ok? && r.value.goal == NoGoalInfo && r.value.shots == []
    // New plays, no team goal: the shots among the new plays of the second read.
    ensures |before.plays| < |after.plays| && before.Score(team) >= after.Score(team) ==>
              r.Ok? && r.value.goal == NoGoalInfo
              && r.value.shots == TeamShots(after.plays[|before.plays|..|after.plays|])
    // New plays and a team goal: the goal notice and the shots both come from the third read.
    ensures |before.plays| < |after.plays| && before.Score(team) < after.Score(team) ==>
              var notice := GoalSong.PlayGoalSong(refetched.plays, roster, songs);
              (notice.Err? ==> r == Err(GoalNoticeFailed(notice.error)))
              && (notice.Ok? && |after.plays| > |refetched.plays| ==> r == Err(PlayIndexOutOfRange))
              && (notice.Ok? && |after.plays| <= |refetched.plays| ==>
                    r.Ok? && r.value.goal == notice.value.info
                    && r.value.shots == TeamShots(refetched.plays[|before.plays|..|after.plays|]))
    ensures r.Ok? && |before.plays| < |after.plays| ==> |r.value.shots| <= |after.plays| - |before.plays|
    // Re-reading an unchanged game reports nothing.
    ensures before == after ==>
              r == Ok(PollResult(false, false, after.Score(team), after.Score(opponent),
                                 after.gameState == FinalState, NoGoalInfo, []))
  {
    var teamScore := before.Score(team);
    var opScore := before.Score(opponent);
    var numPlays := |before.plays|;
    var newTeamScore := after.Score(team);
    var newOpScore := after.Score(opponent);
    var newNumPlays := |after.plays|;

    var teamScored := teamScore < newTeamScore;
    var opScored := opScore < newOpScore;
    var playsGrew := numPlays < newNumPlays;
    var gameOver := after.gameState == FinalState;

    var goal := NoGoalInfo;
    var shots := [];
    if playsGrew {
      var plays := after.plays;
      if teamScored {
        plays := refetched.plays;
        var notice := GoalSong.PlayGoalSong(plays, roster, songs);
        if notice.Err? {
          return Err(GoalNoticeFailed(notice.error));
        }
        goal := notice.value.info;
      }
      if newNumPlays > |plays| {
        return Err(PlayIndexOutOfRange);
      }
      shots := ScanNewPlays(plays, numPlays, newNumPlays);
    }
    r := Ok(PollResult(teamScored, opScored, newTeamScore, newOpScore, gameOver, goal, shots));
  }

  /** Only the new plays are inspected: two play lists that agree on them yield the same shots. */
  lemma OnlyNewPlaysMatter(plays: seq<Play>, plays': seq<Play>, numPlays: nat, newNumPlays: nat)
    requires numPlays <= newNumPlays <= |plays| && newNumPlays <= |plays'|
    requires forall k :: numPlays <= k < newNumPlays ==> plays[k] == plays'[k]
    ensures TeamShots(plays[numPlays..newNumPlays]) == TeamShots(plays'[numPlays..newNumPlays])
  {
    assert plays[numPlays..newNumPlays] == plays'[numPlays..newNumPlays];
  }

  /** Shots by both teams among the new plays: exactly the monitored team's are kept. */
  lemma ShotsOfBothTeams(p: Play, q: Play)
    requires p.kind == ShotOnGoal && q.kind == ShotOnGoal
    requires p.owner == TeamId && q.owner != TeamId
    ensures TeamShots([p, q]) == [MarkOf(p)]
    ensures TeamShots([q, p]) == [MarkOf(p)]
  {
    assert [p, q][..1] == [p];
    assert [q, p][..1] == [q];
    assert [p][..0] == [] && [q][..0] == [];
    assert TeamShots([p]) == [MarkOf(p)];
    assert TeamShots([q]) == [];
  }
}
