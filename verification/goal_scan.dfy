/**
 The backward scan that locates the latest goal in a play list after the
 monitored team's score went up. The program indexes the list with negative
 (Python) indices `i = -1, -2, ...`; here index `i` is the element
 `plays[|plays| + i]`. The program re-fetches the list and restarts when the
 scan runs past four plays; the model scans one fixed list and reports that
 restart as `Refetch`.

 `ScanAsWritten` follows the code as written; `LatestGoal` is the corrected
 scan the rest of the model uses.
 */
module GoalScan {
  import opened Feed

  /** How many of the latest plays one round of the scan looks at. */
  const Window: int := 4

  /** Where the as-written scan ends: an index, an out-of-range index, or a restart. */
  datatype ScanOutcome = At(index: nat) | IndexError | Refetch

  /** The index the code reads the goal from once the loop has ended with counter `i`. */
  function Exit(plays: seq<Play>, i: int): (r: ScanOutcome)
    requires 0 < |plays| && -5 < i <= -1
    requires i <= -2 ==> |plays| + i + 1 >= 0
    ensures r.At? && r.index < |plays|
  {
    var j := if i == -1 then -2 else i;
    At(|plays| + j + 1)
  }

  /**
   The while loop: `kind` is the last type read, `i` the counter. Each round
   reads the play at `i`, decrements `i`, and at `-5` resets it to `-1`
   (where the program would also re-fetch the list).
   */
  function ScanLoop(plays: seq<Play>, i: int, kind: string): (r: ScanOutcome)
    requires 0 < |plays| && -5 < i <= -1
    requires i <= -2 ==> |plays| + i + 1 >= 0
    ensures r.At? ==> r.index < |plays|
    decreases i + 5
  {
    if kind == GoalKind then Exit(plays, i)
    else if |plays| + i < 0 then IndexError
    else
      var kind' := plays[|plays| + i].kind;
      if i - 1 <= -5 then
        if kind' == GoalKind then Exit(plays, -1) else Refetch
      else ScanLoop(plays, i - 1, kind')
  }

  /** The scan as written: read the last play, then loop. */
  function ScanAsWritten(plays: seq<Play>): (r: ScanOutcome)
    ensures r.At? ==> r.index < |plays|
  {
    if |plays| == 0 then IndexError
    else ScanLoop(plays, -1, plays[|plays| - 1].kind)
  }

  /** `plays[k]` is a goal among the last `Window` plays and no later play is a goal. */
  ghost predicate LatestGoalAt(plays: seq<Play>, k: int) {
    0 <= k < |plays| && |plays| - Window <= k && IsGoal(plays[k])
    && forall j :: k < j < |plays| ==> !IsGoal(plays[j])
  }

  /** The scan below `hi`: the last goal among `plays[lo..hi]`, where `lo` is the window's start. */
  function LatestGoalBelow(plays: seq<Play>, hi: nat): (r: Option<nat>)
    requires hi <= |plays|
    ensures r.Some? ==> |plays| - Window <= r.value < hi && IsGoal(plays[r.value])
                        && forall j :: r.value < j < hi ==> !IsGoal(plays[j])
    ensures r.None? <==> forall j :: 0 <= j < hi && |plays| - Window <= j ==> !IsGoal(plays[j])
    decreases hi
  {
    if hi == 0 || hi <= |plays| - Window then None
    else if IsGoal(plays[hi - 1]) then Some(hi - 1)
    else LatestGoalBelow(plays, hi - 1)
  }

  /**
   The corrected scan: the latest goal among the last `Window` plays, or
   `None` where the program would re-fetch the list (or, on a list shorter
   than `Window`, fail with an index error).
   */
  function LatestGoal(plays: seq<Play>): (r: Option<nat>)
    ensures r.Some? ==> LatestGoalAt(plays, r.value)
    ensures r.None? <==> forall j :: 0 <= j < |plays| && |plays| - Window <= j ==> !IsGoal(plays[j])
  {
    LatestGoalBelow(plays, |plays|)
  }

  /**
   What the as-written scan does, case by case: it finds a goal among the
   last three plays, but a goal that is fourth from the end makes it return
   the LAST play instead.
   */
  lemma AsWrittenCases(plays: seq<Play>)
    ensures var n := |plays|;
      ScanAsWritten(plays) ==
        if n == 0 then IndexError
        else if IsGoal(plays[n - 1]) then At(n - 1)
        else if n < 2 then IndexError
        else if IsGoal(plays[n - 2]) then At(n - 2)
        else if n < 3 then IndexError
        else if IsGoal(plays[n - 3]) then At(n - 3)
        else if n < 4 then IndexError
        else if IsGoal(plays[n - 4]) then At(n - 1)
        else Refetch
  {
  }

  /** The discrepancy: with the goal fourth from the end, the as-written scan picks a play that is no goal. */
  lemma AsWrittenMisreportsFourthFromLast(plays: seq<Play>)
    requires |plays| >= 4 && IsGoal(plays[|plays| - 4])
    requires !IsGoal(plays[|plays| - 3]) && !IsGoal(plays[|plays| - 2]) && !IsGoal(plays[|plays| - 1])
    ensures ScanAsWritten(plays) == At(|plays| - 1) && !IsGoal(plays[|plays| - 1])
    ensures LatestGoal(plays) == Some(|plays| - 4)
  {
  }

  /** A concrete input: one goal followed by three shots. */
  lemma GoalThenThreeShots(goal: Play, shot: Play)
    requires goal.kind == GoalKind && shot.kind == ShotOnGoal
    ensures ScanAsWritten([goal, shot, shot, shot]) == At(3)
    ensures LatestGoal([goal, shot, shot, shot]) == Some(0)
  {
  }

  /** Wherever the as-written scan does land on a goal, the corrected scan lands on the same one. */
  lemma CorrectedAgreesOnGoals(plays: seq<Play>)
    requires ScanAsWritten(plays).At? && IsGoal(plays[ScanAsWritten(plays).index])
    ensures LatestGoal(plays) == Some(ScanAsWritten(plays).index)
  {
  }
}
