# sabresGoalLamp: the decision logic of the goal monitor

The goal monitor polls the NHL web API for the Buffalo Sabres (team id 7). Each
day it looks up whether the team plays. If so, it catches up on the plays made
so far. Then it polls the live game until the game is final. On every poll it
compares two reads of the game and decides:

- whether the Sabres scored;
- whether the opponent scored;
- whether the game is over;
- which new plays are Sabres shots on goal.

For a Sabres goal it finds the latest goal in the play list. It resolves the
scorer and assists against the roster and picks the scorer's goal song.

This project models those decisions as pure Dafny definitions over immutable
records. The fetched JSON (schedule week, live-game reads, roster, song map)
becomes parameters. The Python program's crashes become `Err` results:
`IndexError`, `KeyError`, and a name used before it is assigned.

Modules, following the parts of `sabresGoalCheck.py`:

- `Feed`: records (plays, snapshots, roster entries) and constants: team id 7,
  `"shot-on-goal"`, `"goal"`, `"FINAL"` and `"default"`.
- `Schedule`: `checkForGame`.
- `Roster`: the roster loop, where later matching entries overwrite earlier ones.
- `GoalScan`: the backward scan for the latest goal in `playGoalSong`, both as
  written and corrected.
- `GoalSong`: the rest of `playGoalSong`.
- `Poll`: `duringGameUpdate`.
- `CatchUp`: the catch-up branch of `startGameUpdate`.
- `Cli`: `argumentHandling`.
- `Report`: the message choice in `printScoreUpdate`.

Behaviour of the code worth knowing:

- **Unresolved ids.** A scorer id missing from the roster does not just drop the
  name from the notice. `scorerName` is then never assigned, so the call fails.
  A listed assist that does not resolve fails the same way. This includes a
  second assist listed without a first.
- **Missing `"default"` song.** The song lookup reads `songs["default"]` before it
  looks up the name. A song map without `"default"` fails even for a scorer
  whose name is mapped.
- **Which read the shot scan uses.** When the Sabres scored, the code reads the
  game a third time. The new-play scan then reads that third play list, not the
  second one. It fails if the third list is shorter than the second.
- **Opponent shots are dropped.** The poll does not classify the opponent's
  shots. It keeps only Sabres shots on goal.
- **Several entries for one date.** The daily lookup does not stop at the first
  day with the right date. If that day has no Sabres game, it goes on to later
  entries with the same date.
- **Short URLs.** `url[-10:]` is the whole URL when the URL is shorter than
  ten characters.

## Model

| member | source | states |
|---|---|---|
| Schedule.DateOf | sabresGoalCheck.py:49 | the date compared against is a suffix of the URL, of length ten or the whole URL when shorter |
| Schedule.ScanGames | sabresGoalCheck.py:52-57 | the inner loop returns the first game of the day with the team on either side, and nothing exactly when no game has it |
| Schedule.ScanDays | sabresGoalCheck.py:48-57 | the nested scan returns the first team game among the games of all days with the date, in feed order; nothing exactly when none exists |
| Schedule.CheckForGame | sabresGoalCheck.py:46-72 | the sentinel exactly when no game on the URL's date involves the team; otherwise the first such game's id and start time, team side `awayTeam` exactly when the away id is the team's, opponent on the other side, the two sides being exactly {awayTeam, homeTeam} |
| Schedule.CandidatesFromDate | sabresGoalCheck.py:48-51 | every game the lookup may pick belongs to a day whose date equals the URL's date |
| Schedule.FoundIsOnTheDate | sabresGoalCheck.py:48-70 | a reported game is scheduled on the URL's date and has the team on the reported side |
| Schedule.OtherDateIsNoGame | sabresGoalCheck.py:48-49 | a week without the URL's date yields the sentinel |
| Schedule.DayGameIsCandidate | sabresGoalCheck.py:48-52 | every game of a day whose date equals the URL's date is among the games the lookup scans |
| Schedule.TeamGameOnDateIsFound | sabresGoalCheck.py:48-70 | a game on the URL's date with the team on either side makes the lookup find a game |
| Schedule.AwayGameOnDate | sabresGoalCheck.py:48-70 | the only game of the date, with the team away, is reported with its id and start time, the team on `awayTeam` and the opponent on `homeTeam` |
| Roster.Overwrite | sabresGoalCheck.py:203-206 | the overwriting roster loop yields the last entry with the id, or leaves the previous value when no entry has it |
| Roster.LastMatch | sabresGoalCheck.py:203-214 | a lookup gives nothing exactly when no entry has the id, and otherwise the last entry that has it |
| Roster.LastMatchIgnoresOtherIds | sabresGoalCheck.py:203-214 | adding an entry with another id does not change a lookup |
| GoalScan.Exit | sabresGoalCheck.py:194-198 | the index the goal is read from after the loop lies inside the list |
| GoalScan.ScanLoop | sabresGoalCheck.py:187-192 | the as-written loop, when it ends at an index, ends inside the list |
| GoalScan.ScanAsWritten | sabresGoalCheck.py:185-198 | the as-written scan, when it returns an index, returns one inside the list |
| GoalScan.AsWrittenCases | sabresGoalCheck.py:185-198 | the as-written scan finds a goal among the last three plays, fails on a short list, restarts when none of the last four is a goal, and returns the LAST play when the goal is fourth from the end |
| GoalScan.AsWrittenMisreportsFourthFromLast | sabresGoalCheck.py:187-195 | with the only goal of the window fourth from the end, the as-written scan returns a play that is not a goal while the corrected scan returns the goal |
| GoalScan.GoalThenThreeShots | sabresGoalCheck.py:185-198 | on a goal followed by three shots the as-written scan returns the last shot and the corrected scan the goal |
| GoalScan.LatestGoalBelow | sabresGoalCheck.py:185-192 | the corrected scan below a bound returns the latest goal of the window below it, and nothing exactly when the window has none there |
| GoalScan.LatestGoal | sabresGoalCheck.py:185-198 | the corrected scan returns the latest goal among the last four plays, and nothing exactly when none of them is a goal (where the program re-fetches, or fails on a list of fewer than four plays) |
| GoalScan.CorrectedAgreesOnGoals | sabresGoalCheck.py:185-198 | whenever the as-written scan lands on a goal, the corrected scan returns the same play |
| GoalSong.AssistId | sabresGoalCheck.py:199-200 | an absent assist field reads as -1, a present one as its value |
| GoalSong.GoalSongFor | sabresGoalCheck.py:217 | the song is the scorer's when the name is mapped and the default otherwise, always a value of the map; no song exactly when the map lacks `default` |
| GoalSong.AssistsFor | sabresGoalCheck.py:207-225 | an assist id of -1 is never looked up; on success, two assists exactly when the second id is listed and one exactly when only the first is, each the last roster entry with its id; failure exactly when a listed assist (or a missing first assist before a second) does not resolve |
| GoalSong.PlayGoalSong | sabresGoalCheck.py:185-237 | no notice exactly when no goal is in the window; with a goal found: failure with the scorer's id exactly when the scorer is not on the roster; otherwise failure exactly when the map lacks `default` or a listed assist does not resolve (that assist failure), and a notice in every other case; in a notice the scorer is the last roster entry with the scorer id, the assists are those the assist rule gives for the goal's ids, the goal record holds the goal's position, the scorer's number and the goal's sortOrder, and the song follows the name-or-default rule |
| GoalSong.MinusOneIdsAreNeverLookedUp | sabresGoalCheck.py:199-214 | roster entries with id -1 never change the notice while the scorer's id is another one |
| Poll.TeamShotsBound | sabresGoalCheck.py:271-278 | at most one shot mark per inspected play |
| Poll.TeamShotsSound | sabresGoalCheck.py:276-278 | every shot mark comes from a Sabres shot on goal among the inspected plays |
| Poll.TeamShotsComplete | sabresGoalCheck.py:276-278 | every Sabres shot on goal among the inspected plays is marked |
| Poll.TeamShotsAppend | sabresGoalCheck.py:271-278 | marks keep the plays' order: the marks of a concatenation are the concatenated marks |
| Poll.ScanNewPlays | sabresGoalCheck.py:271-278 | the scan returns the Sabres shots on goal among exactly the indices numPlays to newNumPlays-1, in order, each with its sortOrder, at most one per new play |
| Poll.DuringGameUpdate | sabresGoalCheck.py:239-280 | team-scored and opponent-scored are strict score increases between the two reads and game-over is state FINAL; without new plays nothing fails and the shots are empty and the goal record the default (-1,-1,-1,-1) whatever the scores did; with new plays the shots are those of the new range, read from the third read and with the goal notice's record when the team scored; an unchanged game reports no event |
| Poll.OnlyNewPlaysMatter | sabresGoalCheck.py:271-278 | two play lists that agree on the new range yield the same shots |
| Poll.ShotsOfBothTeams | sabresGoalCheck.py:276-278 | of a Sabres shot and an opponent shot among the new plays, only the Sabres shot is kept, in either order |
| CatchUp.StartGameUpdate | sabresGoalCheck.py:104-130 | before the start the result is the waiting sentinel; otherwise the Sabres shots and the Sabres goals of the play list in order, each goal with the scorer number carried after it |
| CatchUp.Partition | sabresGoalCheck.py:114-126 | the shots, the goals and the ignored plays add up to the play count, no play counted twice |
| CatchUp.ShotCoordsSound | sabresGoalCheck.py:116-119 | every shot comes from a Sabres shot on goal of the list, with its position |
| CatchUp.ShotCoordsComplete | sabresGoalCheck.py:116-119 | every Sabres shot on goal of the list is among the shots |
| CatchUp.GoalMarksSound | sabresGoalCheck.py:120-126 | every goal comes from a Sabres goal of the list, with its position, its sortOrder and the scorer number carried after it |
| CatchUp.GoalMarksComplete | sabresGoalCheck.py:120-126 | every Sabres goal of the list yields its goal, with that number |
| CatchUp.ShotCoordsAppend | sabresGoalCheck.py:115-119 | shots keep the plays' order |
| CatchUp.GoalMarksPrefix | sabresGoalCheck.py:120-126 | later plays only append goals: the goals of a prefix are a prefix of the goals |
| CatchUp.CarriedNumberDefault | sabresGoalCheck.py:110-126 | the scorer number stays -1 until a Sabres goal's scorer is found on the roster |
| CatchUp.CarriedNumberIsLatestResolved | sabresGoalCheck.py:120-126 | the scorer number is that of the latest Sabres goal whose scorer is on the roster; a goal whose scorer is not on it reuses the previous number |
| Cli.FirstIndex | sabresGoalCheck.py:319-323 | `args.index`: nothing exactly when the flag is absent, otherwise a position holding the flag with no earlier occurrence |
| Cli.ArgumentValue | sabresGoalCheck.py:318-324 | the element after the first occurrence of the flag; nothing when the flag is absent or last |
| Cli.FirstValueWins | sabresGoalCheck.py:318-321 | a flag given twice takes the value after its first occurrence |
| Report.PrintScoreUpdate | sabresGoalCheck.py:301-304 | the game-over line exactly when the game is final; the opponent-scored line exactly when it is not final and the Sabres did not score; no line otherwise; each line carries the scores and names given |

## Left out

- HTTP requests. Each fetched JSON document is a parameter. This includes the
  three reads in `duringGameUpdate` and the schedule and roster reads.
- The re-fetch inside the backward goal scan (sabresGoalCheck.py:190-192). The
  model scans one fixed list. Where the program would re-fetch and start over,
  the model returns `Refetch` (as written) or `NoGoalInWindow` (corrected).
  `NoGoalInWindow` also covers short lists without a goal, where the code
  raises `IndexError` instead. With a list that never changes, the program
  would loop forever there.
- Converting the start time to local time (sabresGoalCheck.py:37-43, 66-67).
  It depends on the host's time zone and on library date arithmetic. The
  lookup returns the feed's `startTimeUTC` unchanged.
- The countdown and all sleeps. `CatchUp.StartGameUpdate` takes "has the start
  time passed" as a boolean.
- Audio playback, every `print`, the rink plot and the GUI
  (sabresGoalCheck.py:327-376). These are side-effect sinks. The goal notice's
  song and assists are returned instead of played or printed.
- Report.PrintScoreUpdate: chooses the line and its values but does not format
  the text.
- pandas and numpy containers. Rows are sequences of small records.
- `main`'s endless daily loop, the `eval` of the `-h` value and the headless
  switch (sabresGoalCheck.py:378-465). The loop does not terminate, and `eval`
  runs arbitrary code.
- The JSON is assumed to have the fields the code reads. A `KeyError` for a
  missing field is not modelled, except for `"default"` in the song map and
  for list indices.
- GoalSong.PlayGoalSong: uses the corrected goal scan `GoalScan.LatestGoal`, as
  noted under Findings, so it differs from the code in two cases. With the goal
  fourth from the end, it reports that goal, while the code reads the last play.
  With a list of fewer than four plays and no goal, it reports `NoGoalInWindow`,
  while the code raises `IndexError` (`GoalScan.AsWrittenCases` states this).
- Poll.DuringGameUpdate: builds its goal notice with GoalSong.PlayGoalSong, so it
  inherits the two differences above.

## Findings

| source | as written | input that shows it | evidently intended | confidence | as-written member | corrected member |
|---|---|---|---|---|---|---|
| sabresGoalCheck.py:185-195 | the scan reads the last four plays and then resets `i` to -1; a goal read fourth from the end ends the loop with `i == -1`, which the adjustment turns into the last play | plays `[goal, shot, shot, shot]`: the scan returns index 3, a shot, so the scorer is read from a play that is not a goal | return the goal at index 0 | high (not executed) | GoalScan.AsWrittenMisreportsFourthFromLast | GoalScan.LatestGoal |
