/**
 The catch-up of `startGameUpdate`: when the monitor starts after the game
 has begun, it reads the play list once and sorts the monitored team's shots
 on goal and goals out of it. Before the start time it waits instead (the
 wait and the start-up sound are outside the model).
 */
module CatchUp {
  import opened Feed
  import Roster

  datatype Coord = Coord(x: int, y: int)

  /** A goal for the rink plot: position, scorer's number (`SN`) and `sortOrder` (`EN`). */
  datatype GoalMark = GoalMark(x: int, y: int, sn: int, en: int)

  /** `NotStarted` is the `(-1, -1)` returned after waiting for the start. */
  datatype CatchUpResult = NotStarted | Tallies(shots: seq<Coord>, goals: seq<GoalMark>)

  /** The team's shots on goal in `ps`, in order. */
  function ShotCoords(ps: seq<Play>): seq<Coord>
    decreases |ps|
  {
    if |ps| == 0 then []
    else
      var p := ps[|ps| - 1];
      ShotCoords(ps[..|ps| - 1]) + (if IsTeamShot(p) then [Coord(p.x, p.y)] else [])
  }

  /**
   The scorer number carried after the plays `ps`: that of the latest team
   goal whose scorer is on the roster, `-1` before any.
   */
  function CarriedNumber(ps: seq<Play>, roster: seq<RosterSpot>): int
    decreases |ps|
  {
    if |ps| == 0 then -1
    else
      var p := ps[|ps| - 1];
      var spot := if IsTeamGoal(p) then Roster.LastMatch(roster, p.scorer) else None;
      if spot.Some? then spot.value.sweaterNumber else CarriedNumber(ps[..|ps| - 1], roster)
  }

  /** The team's goals in `ps`, in order, each with the number carried after it. */
  function GoalMarks(ps: seq<Play>, roster: seq<RosterSpot>): seq<GoalMark>
    decreases |ps|
  {
    if |ps| == 0 then []
    else
      var p := ps[|ps| - 1];
      GoalMarks(ps[..|ps| - 1], roster)
      + (if IsTeamGoal(p) then [GoalMark(p.x, p.y, CarriedNumber(ps, roster), p.sortOrder)] else [])
  }

  /** How many plays of `ps` are neither a team shot on goal nor a team goal. */
  function Ignored(ps: seq<Play>): nat
    decreases |ps|
  {
    if |ps| == 0 then 0
    else
      var p := ps[|ps| - 1];
      Ignored(ps[..|ps| - 1]) + (if IsTeamShot(p) || IsTeamGoal(p) then 0 else 1)
  }

  /** `startGameUpdate`; `started` says whether the start time has passed. */
  method StartGameUpdate(started: bool, plays: seq<Play>, roster: seq<RosterSpot>) returns (r: CatchUpResult)
    ensures !started <==> r == NotStarted
    ensures started ==> r == Tallies(ShotCoords(plays), GoalMarks(plays, roster))
  {
    if !started {
      return NotStarted;
    }
    var scorerNumber := -1;
    var shots := [];
    var goals := [];
    var i := 0;
    while i < |plays|
      invariant 0 <= i <= |plays|
      invariant shots == ShotCoords(plays[..i])
      invariant goals == GoalMarks(plays[..i], roster)
      invariant scorerNumber == CarriedNumber(plays[..i], roster)
    {
      var event := plays[i];
      assert plays[..i + 1][..i] == plays[..i];
      if event.kind == ShotOnGoal {
        if event.owner == TeamId {
          shots := shots + [Coord(event.x, event.y)];
        }
      } else if event.kind == GoalKind {
        if event.owner == TeamId {
          var player := Roster.LastMatch(roster, event.scorer);
          if player.Some? {
            scorerNumber := player.value.sweaterNumber;
          }
          goals := goals + [GoalMark(event.x, event.y, scorerNumber, event.sortOrder)];
        }
      }
      i := i + 1;
    }
    assert plays[..i] == plays;
    r := Tallies(shots, goals);
  }

  /** Each play lands in exactly one place: shots, goals, or ignored. */
  lemma {:induction false} Partition(ps: seq<Play>, roster: seq<RosterSpot>)
    ensures |ShotCoords(ps)| + |GoalMarks(ps, roster)| + Ignored(ps) == |ps|
    decreases |ps|
  {
    if |ps| > 0 {
      var p := ps[|ps| - 1];
      assert !(IsTeamShot(p) && IsTeamGoal(p));
      Partition(ps[..|ps| - 1], roster);
    }
  }

  /** Every shot comes from a team shot on goal of `ps`, at its position. */
  lemma {:induction false} ShotCoordsSound(ps: seq<Play>, c: Coord)
    requires c in ShotCoords(ps)
    ensures exists k :: 0 <= k < |ps| && IsTeamShot(ps[k]) && c == Coord(ps[k].x, ps[k].y)
    decreases |ps|
  {
    var init := ps[..|ps| - 1];
    if c in ShotCoords(init) {
      ShotCoordsSound(init, c);
      var k :| 0 <= k < |init| && IsTeamShot(init[k]) && c == Coord(init[k].x, init[k].y);
      assert ps[k] == init[k];
    } else {
      assert IsTeamShot(ps[|ps| - 1]);
    }
  }

  /** Every team shot on goal of `ps` is among the shots. */
  lemma {:induction false} ShotCoordsComplete(ps: seq<Play>, k: int)
    requires 0 <= k < |ps| && IsTeamShot(ps[k])
    ensures Coord(ps[k].x, ps[k].y) in ShotCoords(ps)
    decreases |ps|
  {
    if k < |ps| - 1 {
      var init := ps[..|ps| - 1];
      assert init[k] == ps[k];
      ShotCoordsComplete(init, k);
    }
  }

  /** The goal mark a team goal at position `k` of `ps` yields. */
  function MarkAt(ps: seq<Play>, roster: seq<RosterSpot>, k: int): GoalMark
    requires 0 <= k < |ps|
  {
    GoalMark(ps[k].x, ps[k].y, CarriedNumber(ps[..k + 1], roster), ps[k].sortOrder)
  }

  /** Every goal mark comes from a team goal of `ps`, with its position, `sortOrder` and the number carried after it. */
  lemma {:induction false} GoalMarksSound(ps: seq<Play>, roster: seq<RosterSpot>, m: GoalMark)
    requires m in GoalMarks(ps, roster)
    ensures exists k :: 0 <= k < |ps| && IsTeamGoal(ps[k]) && m == MarkAt(ps, roster, k)
    decreases |ps|
  {
    var init := ps[..|ps| - 1];
    if m in GoalMarks(init, roster) {
      GoalMarksSound(init, roster, m);
      var k :| 0 <= k < |init| && IsTeamGoal(init[k]) && m == MarkAt(init, roster, k);
      assert ps[..k + 1] == init[..k + 1];
      assert IsTeamGoal(ps[k]) && m == MarkAt(ps, roster, k);
    } else {
      assert ps[..|ps|] == ps;
      assert IsTeamGoal(ps[|ps| - 1]) && m == MarkAt(ps, roster, |ps| - 1);
    }
  }

  /** Every team goal of `ps` yields its goal mark. */
  lemma {:induction false} GoalMarksComplete(ps: seq<Play>, roster: seq<RosterSpot>, k: int)
    requires 0 <= k < |ps| && IsTeamGoal(ps[k])
    ensures MarkAt(ps, roster, k) in GoalMarks(ps, roster)
    decreases |ps|
  {
    var init := ps[..|ps| - 1];
    if k < |ps| - 1 {
      assert ps[..k + 1] == init[..k + 1];
      GoalMarksComplete(init, roster, k);
    } else {
      assert ps[..k + 1] == ps;
    }
  }

  /** Shots keep the order of the plays. */
  lemma {:induction false} ShotCoordsAppend(a: seq<Play>, b: seq<Play>)
    ensures ShotCoords(a + b) == ShotCoords(a) + ShotCoords(b)
    decreases |b|
  {
    if |b| == 0 {
      assert a + b == a;
    } else {
      var b' := b[..|b| - 1];
      assert (a + b)[..|a + b| - 1] == a + b';
      ShotCoordsAppend(a, b');
    }
  }

  /** Goals keep the order of the plays: later plays only append goals. */
  lemma {:induction false} GoalMarksPrefix(a: seq<Play>, b: seq<Play>, roster: seq<RosterSpot>)
    ensures GoalMarks(a, roster) <= GoalMarks(a + b, roster)
    decreases |b|
  {
    if |b| == 0 {
      assert a + b == a;
    } else {
      var b' := b[..|b| - 1];
      assert (a + b)[..|a + b| - 1] == a + b';
      GoalMarksPrefix(a, b', roster);
    }
  }

  /** A team goal whose scorer resolves. */
  ghost predicate ResolvedGoal(ps: seq<Play>, roster: seq<RosterSpot>, k: int) {
    0 <= k < |ps| && IsTeamGoal(ps[k]) && Roster.LastMatch(roster, ps[k].scorer).Some?
  }

  /** While no team goal has resolved, the carried number is `-1`. */
  lemma {:induction false} CarriedNumberDefault(ps: seq<Play>, roster: seq<RosterSpot>)
    requires forall k :: 0 <= k < |ps| ==> !ResolvedGoal(ps, roster, k)
    ensures CarriedNumber(ps, roster) == -1
    decreases |ps|
  {
    if |ps| > 0 {
      var init := ps[..|ps| - 1];
      assert !ResolvedGoal(ps, roster, |ps| - 1);
      forall k | 0 <= k < |init|
        ensures !ResolvedGoal(init, roster, k)
      {
        assert !ResolvedGoal(ps, roster, k) && init[k] == ps[k];
      }
      CarriedNumberDefault(init, roster);
    }
  }

  /**
   The carried number is that of the latest resolved team goal: a team goal
   whose scorer is not on the roster reuses the number assigned before it.
   */
  lemma {:induction false} CarriedNumberIsLatestResolved(ps: seq<Play>, roster: seq<RosterSpot>, k: int)
    requires ResolvedGoal(ps, roster, k)
    requires forall j :: k < j < |ps| ==> !ResolvedGoal(ps, roster, j)
    ensures CarriedNumber(ps, roster) == Roster.LastMatch(roster, ps[k].scorer).value.sweaterNumber
    decreases |ps|
  {
    if k < |ps| - 1 {
      var init := ps[..|ps| - 1];
      assert !ResolvedGoal(ps, roster, |ps| - 1);
      assert init[k] == ps[k];
      forall j | k < j < |init|
        ensures !ResolvedGoal(init, roster, j)
      {
        assert !ResolvedGoal(ps, roster, j) && init[j] == ps[j];
      }
      CarriedNumberIsLatestResolved(init, roster, k);
    }
  }
}
