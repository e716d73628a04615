/** The score line printed after a poll (`printScoreUpdate`). */
module Report {

  /** Which line is printed, with the values it shows; `Silent` prints nothing. */
  datatype Message =
    | GameOver(teamScore: int, opponentAbbrev: string, opponentScore: int)
    | OpponentScored(opponentName: string, teamScore: int, opponentAbbrev: string, opponentScore: int)
    | Silent

  function PrintScoreUpdate(opponentAbbrev: string, opponentName: string, opponentScore: int,
                            teamScore: int, teamScored: bool, isFinal: bool): (m: Message)
    ensures m.GameOver? <==> isFinal
    ensures m.OpponentScored? <==> !isFinal && !teamScored
    ensures m.Silent? <==> !isFinal && teamScored
    ensures !m.Silent? ==> m.teamScore == teamScore && m.opponentAbbrev == opponentAbbrev
                           && m.opponentScore == opponentScore
    ensures m.OpponentScored? ==> m.opponentName == opponentName
  {
    if isFinal then GameOver(teamScore, opponentAbbrev, opponentScore)
    else if !teamScored then OpponentScored(opponentName, teamScore, opponentAbbrev, opponentScore)
    else Silent
  }
}
