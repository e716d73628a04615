/**
 The goal notification for a goal of the monitored team: locate the latest
 goal, resolve its scorer and assists against the roster, pick the scorer's
 goal song, and report the goal's position, the scorer's number and the
 goal's `sortOrder`. Audio playback, printing and the twenty-second pause are
 side effects outside the model.
 */
module GoalSong {
  import opened Feed
  import Roster
  import GoalScan

  /** Who assisted, as the printed statement names them. */
  datatype Assists = NoAssists | OneAssist(first: RosterSpot) | TwoAssists(first: RosterSpot, second: RosterSpot)

  /** The goal record the poll returns: position, scorer's number (`SN`), `sortOrder` (`EN`). */
  datatype GoalInfo = GoalInfo(x: int, y: int, sn: int, en: int)

  datatype GoalNotice = GoalNotice(scorer: RosterSpot, assists: Assists, song: string, info: GoalInfo)

  /**
   Why no notice is produced: no goal among the latest plays (the program
   re-fetches, or fails on a list shorter than four plays), or a name the
   program uses before assigning it, or a missing `"default"` song.
   */
  datatype GoalError = NoGoalInWindow | UnresolvedScorer(id: int) | UnresolvedAssist(id: int) | NoDefaultSong

  /** An assist id as the program reads it: `-1` when the field is absent. */
  function AssistId(a: Option<int>): (id: int)
    ensures a.Some? ==> id == a.value
    ensures a.None? ==> id == -1
  {
    match a
    case Some(v) => v
    case None => -1
  }

  /**
   The song lookup `songs.get(name, songs["default"])`: the fallback is read
   first, so a map without `"default"` fails even for a mapped name.
   */
  function GoalSongFor(songs: map<string, string>, name: string): (r: Option<string>)
    ensures r.None? <==> DefaultSongKey !in songs
    ensures r.Some? ==> r.value in songs.Values
    ensures r.Some? && name in songs ==> r.value == songs[name]
    ensures r.Some? && name !in songs ==> r.value == songs[DefaultSongKey]
  {
    if DefaultSongKey !in songs then None
    else if name in songs then Some(songs[name])
    else Some(songs[DefaultSongKey])
  }

  /** The assists the printed statement names; an id of `-1` is never looked up. */
  function AssistsFor(roster: seq<RosterSpot>, a1: int, a2: int): (r: Result<Assists, GoalError>)
    ensures a1 == -1 && a2 == -1 ==> r == Ok(NoAssists)
    ensures r.Ok? && r.value.OneAssist? ==> a2 == -1 && a1 != -1 && Roster.LastMatch(roster, a1) == Some(r.value.first)
    ensures r.Ok? && r.value.TwoAssists? ==>
              a1 != -1 && a2 != -1
              && Roster.LastMatch(roster, a1) == Some(r.value.first)
              && Roster.LastMatch(roster, a2) == Some(r.value.second)
    ensures r.Err? ==> r.error.UnresolvedAssist?
                       && r.error.id in {a1, a2}
                       && (r.error.id == -1 || Roster.LastMatch(roster, r.error.id).None?)
    ensures a2 != -1 ==> (r.Ok? <==> a1 != -1 && Roster.LastMatch(roster, a1).Some? && Roster.LastMatch(roster, a2).Some?)
    ensures a2 == -1 && a1 != -1 ==> (r.Ok? <==> Roster.LastMatch(roster, a1).Some?)
    ensures r.Ok? ==> (r.value.TwoAssists? <==> a2 != -1) && (r.value.OneAssist? <==> a2 == -1 && a1 != -1)
  {
    var first := if a1 == -1 then None else Roster.LastMatch(roster, a1);
    var second := if a2 == -1 then None else Roster.LastMatch(roster, a2);
    if a2 != -1 then
      if first.None? then Err(UnresolvedAssist(a1))
      else if second.None? then Err(UnresolvedAssist(a2))
      else Ok(TwoAssists(first.value, second.value))
    else if a1 != -1 then
      if first.None? then Err(UnresolvedAssist(a1))
      else Ok(OneAssist(first.value))
    else Ok(NoAssists)
  }

  /** `playGoalSong` over one fixed play list. */
  function PlayGoalSong(plays: seq<Play>, roster: seq<RosterSpot>, songs: map<string, string>): (r: Result<GoalNotice, GoalError>)
    ensures GoalScan.LatestGoal(plays).None? <==> r == Err(NoGoalInWindow)
    ensures r.Ok? ==>
              var k := GoalScan.LatestGoal(plays).value;
              GoalScan.LatestGoalAt(plays, k)
              && r.value.info == GoalInfo(plays[k].x, plays[k].y, r.value.scorer.sweaterNumber, plays[k].sortOrder)
              && Roster.LastMatch(roster, plays[k].scorer) == Some(r.value.scorer)
    ensures GoalScan.LatestGoal(plays).Some? ==>
              var p := plays[GoalScan.LatestGoal(plays).value];
              (Roster.LastMatch(roster, p.scorer).None? <==> r == Err(UnresolvedScorer(p.scorer)))
    ensures r.Ok? ==> DefaultSongKey in songs
                      && (r.value.scorer.FullName() in songs ==> r.value.song == songs[r.value.scorer.FullName()])
                      && (r.value.scorer.FullName() !in songs ==> r.value.song == songs[DefaultSongKey])
    ensures r.Ok? ==>
              var p := plays[GoalScan.LatestGoal(plays).value];
              (r.value.assists.NoAssists? <==> AssistId(p.assist1) == -1 && AssistId(p.assist2) == -1)
              && AssistsFor(roster, AssistId(p.assist1), AssistId(p.assist2)) == Ok(r.value.assists)
    // A resolved scorer: the notice fails only for a missing default song or an assist that does not resolve.
    ensures GoalScan.LatestGoal(plays).Some? ==>
              var p := plays[GoalScan.LatestGoal(plays).value];
              var a := AssistsFor(roster, AssistId(p.assist1), AssistId(p.assist2));
              Roster.LastMatch(roster, p.scorer).Some? ==>
                (DefaultSongKey !in songs ==> r == Err(NoDefaultSong))
                && (DefaultSongKey in songs && a.Err? ==> r == Err(a.error))
                && (DefaultSongKey in songs && a.Ok? ==> r.Ok?)
  {
    match GoalScan.LatestGoal(plays)
    case None => Err(NoGoalInWindow)
    case Some(k) =>
      var p := plays[k];
      match Roster.LastMatch(roster, p.scorer)
      case None => Err(UnresolvedScorer(p.scorer))
      case Some(scorer) =>
        match GoalSongFor(songs, scorer.FullName())
        case None => Err(NoDefaultSong)
        case Some(song) =>
          match AssistsFor(roster, AssistId(p.assist1), AssistId(p.assist2))
          case Err(e) => Err(e)
          case Ok(assists) =>
            Ok(GoalNotice(scorer, assists, song, GoalInfo(p.x, p.y, scorer.sweaterNumber, p.sortOrder)))
  }

  /**
   Roster entries with id `-1` never matter while the goal's scorer has another
   id: an absent assist is not looked up.
   */
  lemma MinusOneIdsAreNeverLookedUp(plays: seq<Play>, roster: seq<RosterSpot>, songs: map<string, string>, spot: RosterSpot)
    requires spot.playerId == -1
    requires GoalScan.LatestGoal(plays).Some? ==> plays[GoalScan.LatestGoal(plays).value].scorer != -1
    ensures PlayGoalSong(plays, roster + [spot], songs) == PlayGoalSong(plays, roster, songs)
  {
    var g := GoalScan.LatestGoal(plays);
    if g.Some? {
      var p := plays[g.value];
      Roster.LastMatchIgnoresOtherIds(roster, spot, p.scorer);
      var a1 := AssistId(p.assist1);
      var a2 := AssistId(p.assist2);
      if a1 != -1 {
        Roster.LastMatchIgnoresOtherIds(roster, spot, a1);
      }
      if a2 != -1 {
        Roster.LastMatchIgnoresOtherIds(roster, spot, a2);
      }
    }
  }
}
