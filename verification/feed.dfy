/**
 The records the goal monitor reads from the league's schedule and live-game
 feeds, and the constants it compares them against. The feeds arrive as JSON;
 here every record is an immutable datatype holding only the fields the
 monitor looks at.
 */
module Feed {

  /** The monitored team's id in the league feed (the Buffalo Sabres). */
  const TeamId: int := 7

  /** The `typeDescKey` values the monitor distinguishes. */
  const ShotOnGoal: string := "shot-on-goal"
  const GoalKind: string := "goal"

  /** The `gameState` value of a finished game. */
  const FinalState: string := "FINAL"

  /** The goal-song map's fallback key. */
  const DefaultSongKey: string := "default"

  datatype Option<+T> = None | Some(value: T)

  /** A value or the error the original program would have raised instead. */
  datatype Result<+T, +E> = Ok(value: T) | Err(error: E)

  /** Which side of a game a team occupies. */
  datatype Side = Away | Home {
    /** The key the side's record is stored under in the feeds. */
    function Key(): string {
      if Away? then "awayTeam" else "homeTeam"
    }
  }

  /**
   One play-by-play event. `kind` is the `typeDescKey`; the other fields are
   read from the event's `details` (owner team, coordinates, scorer) or from
   the event itself (`sortOrder`). An absent assist is `None`; `scorer` is only
   meaningful for goals.
   */
  datatype Play = Play(kind: string, owner: int, x: int, y: int, sortOrder: int,
                       scorer: int, assist1: Option<int>, assist2: Option<int>)

  predicate IsGoal(p: Play) {
    p.kind == GoalKind
  }

  /** A shot on goal by the monitored team. */
  predicate IsTeamShot(p: Play) {
    p.kind == ShotOnGoal && p.owner == TeamId
  }

  /** A goal by the monitored team. */
  predicate IsTeamGoal(p: Play) {
    p.kind == GoalKind && p.owner == TeamId
  }

  /** One read of the live-game feed. */
  datatype Snapshot = Snapshot(awayScore: int, homeScore: int, plays: seq<Play>, gameState: string) {
    function Score(side: Side): int {
      if side.Away? then awayScore else homeScore
    }
  }

  /** One entry of the game's `rosterSpots`. */
  datatype RosterSpot = RosterSpot(playerId: int, firstName: string, lastName: string, sweaterNumber: int) {
    /** The display name the goal-song map is keyed by. */
    function FullName(): string {
      firstName + " " + lastName
    }
  }
}
