/**
 The daily game lookup: find, in a week of the league schedule, the first game
 of the requested day in which the monitored team plays, and which side of it
 the team holds.
 */
module Schedule {
  import opened Feed

  datatype Game = Game(id: int, awayId: int, homeId: int, startTimeUtc: string)

  /** One entry of the schedule's `gameWeek`. */
  datatype Day = Day(date: string, games: seq<Game>)

  /**
   A game of the monitored team: its id, the side the team holds, the side
   the opponent holds, and the start time as the feed gives it.
   */
  datatype GameRef = GameRef(id: int, team: Side, opponent: Side, startTimeUtc: string)

  /** `NoGame` is the sentinel `['-1', -1, -1, '-1']` the caller tests for. */
  datatype Lookup = NoGame | Found(ref: GameRef)

  predicate Involves(g: Game) {
    g.awayId == TeamId || g.homeId == TeamId
  }

  /** The date in the schedule URL: its last ten characters, or all of it when shorter. */
  function DateOf(url: string): (d: string)
    ensures |d| == if |url| < 10 then |url| else 10
    ensures url == url[..|url| - |d|] + d
  {
    if |url| < 10 then url else url[|url| - 10..]
  }

  /** The games of every day dated `date`, in feed order. */
  function Candidates(days: seq<Day>, date: string): seq<Game>
  {
    if |days| == 0 then []
    else (if days[0].date == date then days[0].games else []) + Candidates(days[1..], date)
  }

  /** `gs[k]` involves the team and no game before it does. */
  ghost predicate FirstInvolving(gs: seq<Game>, k: int) {
    0 <= k < |gs| && Involves(gs[k]) && forall j :: 0 <= j < k ==> !Involves(gs[j])
  }

  lemma FirstInvolvingExtend(gs: seq<Game>, tail: seq<Game>, g: Game)
    requires exists k :: FirstInvolving(gs, k) && gs[k] == g
    ensures exists k :: FirstInvolving(gs + tail, k) && (gs + tail)[k] == g
  {
    var k :| FirstInvolving(gs, k) && gs[k] == g;
    assert FirstInvolving(gs + tail, k);
  }

  lemma FirstInvolvingShift(prefix: seq<Game>, gs: seq<Game>, g: Game)
    requires forall j :: 0 <= j < |prefix| ==> !Involves(prefix[j])
    requires exists k :: FirstInvolving(gs, k) && gs[k] == g
    ensures exists k :: FirstInvolving(prefix + gs, k) && (prefix + gs)[k] == g
  {
    var k :| FirstInvolving(gs, k) && gs[k] == g;
    assert (prefix + gs)[|prefix| + k] == g;
    assert FirstInvolving(prefix + gs, |prefix| + k);
  }

  /** The inner loop: the first game of one day that involves the team. */
  function ScanGames(games: seq<Game>): (r: Option<Game>)
    ensures r.None? <==> forall k :: 0 <= k < |games| ==> !Involves(games[k])
    ensures r.Some? ==> exists k :: FirstInvolving(games, k) && games[k] == r.value
  {
    if |games| == 0 then None
    else if Involves(games[0]) then
      assert FirstInvolving(games, 0);
      Some(games[0])
    else
      var r := ScanGames(games[1..]);
      assert games == [games[0]] + games[1..];
      if r.Some? then FirstInvolvingShift([games[0]], games[1..], r.value); r
      else r
  }

  /** The outer loop: the days in order, scanning only those dated `date`. */
  function ScanDays(days: seq<Day>, date: string): (r: Option<Game>)
    ensures r.None? <==> forall k :: 0 <= k < |Candidates(days, date)| ==> !Involves(Candidates(days, date)[k])
    ensures r.Some? ==> exists k :: FirstInvolving(Candidates(days, date), k) && Candidates(days, date)[k] == r.value
  {
    if |days| == 0 then None
    else
      var here := if days[0].date == date then days[0].games else [];
      var rest := Candidates(days[1..], date);
      assert Candidates(days, date) == here + rest;
      var today := if days[0].date == date then ScanGames(days[0].games) else None;
      assert today.None? ==> forall j :: 0 <= j < |here| ==> !Involves(here[j]);
      if today.Some? then
        FirstInvolvingExtend(here, rest, today.value);
        today
      else
        var r := ScanDays(days[1..], date);
        if r.Some? then FirstInvolvingShift(here, rest, r.value); r
        else r
  }

  /** The reference the lookup reports for a game of the team. */
  function RefFor(g: Game): GameRef {
    if g.awayId == TeamId then GameRef(g.id, Away, Home, g.startTimeUtc)
    else GameRef(g.id, Home, Away, g.startTimeUtc)
  }

  /**
   `checkForGame`: the first game involving the team among the games of the
   days dated like the URL's last ten characters, or `NoGame`.
   */
  function CheckForGame(days: seq<Day>, url: string): (r: Lookup)
    ensures var c := Candidates(days, DateOf(url));
            r.NoGame? <==> forall k :: 0 <= k < |c| ==> !Involves(c[k])
    ensures var c := Candidates(days, DateOf(url));
            r.Found? ==> exists k :: FirstInvolving(c, k)
                                     && c[k].id == r.ref.id
                                     && c[k].startTimeUtc == r.ref.startTimeUtc
                                     && (r.ref.team == Away <==> c[k].awayId == TeamId)
                                     && (r.ref.team == Home ==> c[k].homeId == TeamId)
    ensures r.Found? ==> r.ref.team != r.ref.opponent
                         && {r.ref.team.Key(), r.ref.opponent.Key()} == {"awayTeam", "homeTeam"}
  {
    match ScanDays(days, DateOf(url))
    case None => NoGame
    case Some(g) => Found(RefFor(g))
  }

  /** Every candidate game comes from a day whose date is the one asked for. */
  lemma {:induction false} CandidatesFromDate(days: seq<Day>, date: string, k: int)
    requires 0 <= k < |Candidates(days, date)|
    ensures exists d :: 0 <= d < |days| && days[d].date == date && Candidates(days, date)[k] in days[d].games
  {
    var here := if days[0].date == date then days[0].games else [];
    var rest := Candidates(days[1..], date);
    assert Candidates(days, date) == here + rest;
    if k < |here| {
      assert days[0].date == date && Candidates(days, date)[k] == days[0].games[k];
    } else {
      CandidatesFromDate(days[1..], date, k - |here|);
      var d :| 0 <= d < |days[1..]| && days[1..][d].date == date && rest[k - |here|] in days[1..][d].games;
      assert days[d + 1] == days[1..][d];
    }
  }

  /** Conversely, every game of a day dated `date` is a candidate. */
  lemma {:induction false} DayGameIsCandidate(days: seq<Day>, date: string, d: int, g: Game)
    requires 0 <= d < |days| && days[d].date == date && g in days[d].games
    ensures g in Candidates(days, date)
  {
    var here := if days[0].date == date then days[0].games else [];
    assert Candidates(days, date) == here + Candidates(days[1..], date);
    if d > 0 {
      assert days[1..][d - 1] == days[d];
      DayGameIsCandidate(days[1..], date, d - 1, g);
    }
  }

  /** A game on the URL's date with the team on either side is found. */
  lemma TeamGameOnDateIsFound(days: seq<Day>, url: string, d: int, g: Game)
    requires 0 <= d < |days| && days[d].date == DateOf(url) && g in days[d].games && Involves(g)
    ensures CheckForGame(days, url).Found?
  {
    DayGameIsCandidate(days, DateOf(url), d, g);
  }

  /** The only game of the date, with the team away: found, with the team on the away side. */
  lemma AwayGameOnDate(days: seq<Day>, url: string, d: int, g: Game)
    requires 0 <= d < |days| && days[d].date == DateOf(url) && days[d].games == [g] && g.awayId == TeamId
    requires forall e :: 0 <= e < |days| && e != d ==> days[e].date != DateOf(url)
    ensures CheckForGame(days, url) == Found(GameRef(g.id, Away, Home, g.startTimeUtc))
  {
    var c := Candidates(days, DateOf(url));
    TeamGameOnDateIsFound(days, url, d, g);
    forall k | 0 <= k < |c|
      ensures c[k] == g
    {
      CandidatesFromDate(days, DateOf(url), k);
    }
  }

  /** A game the lookup reports was scheduled on the URL's date and has the team on the reported side. */
  lemma FoundIsOnTheDate(days: seq<Day>, url: string)
    ensures var r := CheckForGame(days, url);
            r.Found? ==> exists d, g :: 0 <= d < |days| && days[d].date == DateOf(url) && g in days[d].games
                                        && g.id == r.ref.id
                                        && (if r.ref.team == Away then g.awayId else g.homeId) == TeamId
  {
    var c := Candidates(days, DateOf(url));
    var r := CheckForGame(days, url);
    if r.Found? {
      var k :| FirstInvolving(c, k) && c[k].id == r.ref.id
               && (r.ref.team == Away <==> c[k].awayId == TeamId)
               && (r.ref.team == Home ==> c[k].homeId == TeamId);
      CandidatesFromDate(days, DateOf(url), k);
      var d :| 0 <= d < |days| && days[d].date == DateOf(url) && c[k] in days[d].games;
    }
  }

  /** Without a day dated like the URL there is nothing to find. */
  lemma {:induction false} NoDateNoCandidates(days: seq<Day>, date: string)
    requires forall d :: 0 <= d < |days| ==> days[d].date != date
    ensures Candidates(days, date) == []
  {
    if |days| > 0 {
      NoDateNoCandidates(days[1..], date);
    }
  }

  /** A week whose days all carry other dates yields the sentinel. */
  lemma OtherDateIsNoGame(days: seq<Day>, url: string)
    requires forall d :: 0 <= d < |days| ==> days[d].date != DateOf(url)
    ensures CheckForGame(days, url) == NoGame
  {
    NoDateNoCandidates(days, DateOf(url));
  }
}
