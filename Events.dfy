/** The canonical event record and the baseball adapter of `SportsHub`:
    mapping the upstream status vocabulary, flattening the schedule response
    into events, and keeping the games of the followed teams. */
module Events {
  import opened Common
  import opened Text

  /** A canonical event. Absent fields are `None`; `start` is the instant the
      event begins, in milliseconds. */
  datatype Event = Event(
    id: string,
    sport: Option<string>,
    league: Option<string>,
    promotion: Option<string>,
    teamA: Option<string>,
    teamB: Option<string>,
    fighterA: Option<string>,
    fighterB: Option<string>,
    start: int,
    status: string,
    venue: Option<string>)

  /** A string field is truthy in JavaScript when it is present and non-empty. */
  predicate Truthy(field: Option<string>) {
    field.Some? && field.value != ""
  }

  /** A followed team from the team fixture; `sportType` is its `type` tag. */
  datatype Team = Team(id: int, team: string, sportType: string)

  // ---------------------------------------------------------------- status

  /** The six canonical statuses. */
  datatype GameStatus = Scheduled | Live | Final | Postponed | Cancelled | Delayed {
    function Label(): string {
      match this
      case Scheduled => "Scheduled"
      case Live => "Live"
      case Final => "Final"
      case Postponed => "Postponed"
      case Cancelled => "Cancelled"
      case Delayed => "Delayed"
    }
  }

  /** The `status` object of an upstream game. */
  datatype MLBStatus = MLBStatus(
    detailedState: Option<string>,
    statusCode: Option<string>,
    abstractGameState: Option<string>)

  /** `status.detailedState || status.statusCode`. */
  function EffectiveState(s: MLBStatus): Option<string> {
    if Truthy(s.detailedState) then s.detailedState else s.statusCode
  }

  /** The detailed-state vocabulary and the canonical status of each word. */
  const DetailedTable: map<string, GameStatus> := map[
    "In Progress" := Live, "I" := Live,
    "Final" := Final, "F" := Final,
    "Postponed" := Postponed, "P" := Postponed,
    "Cancelled" := Cancelled, "C" := Cancelled,
    "Delayed" := Delayed, "D" := Delayed]

  /** `getMLBGameStatus`: the coarse state decides when it is `Live` or
      `Final`; otherwise the effective detailed state is looked up in the
      table, and anything not in it is `Scheduled`. */
  function GetMLBGameStatus(s: MLBStatus): (r: GameStatus)
    ensures s.abstractGameState == Some("Live") ==> r == Live
    ensures s.abstractGameState == Some("Final") ==> r == Final
    ensures s.abstractGameState != Some("Live") && s.abstractGameState != Some("Final") ==>
      r == match EffectiveState(s)
           case Some(w) => if w in DetailedTable then DetailedTable[w] else Scheduled
           case None => Scheduled
  {
    var state := EffectiveState(s);
    var abstractState := s.abstractGameState;
    if abstractState == Some("Live") then Live
    else if abstractState == Some("Final") then Final
    else if state == Some("In Progress") || state == Some("I") then Live
    else if state == Some("Final") || state == Some("F") then Final
    else if state == Some("Postponed") || state == Some("P") then Postponed
    else if state == Some("Cancelled") || state == Some("C") then Cancelled
    else if state == Some("Delayed") || state == Some("D") then Delayed
    else Scheduled
  }

  /** A truthy detailed state hides the status code completely. */
  lemma StatusCodeIgnoredWhenDetailed(s: MLBStatus, code: Option<string>)
    requires Truthy(s.detailedState)
    ensures GetMLBGameStatus(s.(statusCode := code)) == GetMLBGameStatus(s)
  {
  }

  // ---------------------------------------------------------------- schedule

  /** One upstream game of the schedule response. `venueName` is
      `game.venue?.name`; `gameDate` is its start instant. */
  datatype MLBGame = MLBGame(
    gamePk: nat,
    awayName: string,
    homeName: string,
    gameDate: int,
    status: MLBStatus,
    venueName: Option<string>)

  datatype ScheduleDate = ScheduleDate(games: Option<seq<MLBGame>>)

  /** The schedule response `{ dates: [ { games: [...] } ] }`. */
  datatype Schedule = Schedule(dates: Option<seq<ScheduleDate>>)

  /** The canonical record of one upstream game. */
  function GameEvent(g: MLBGame): Event {
    Event(
      id := "mlb_" + NatToString(g.gamePk),
      sport := Some("Baseball"),
      league := Some("MLB"),
      promotion := None,
      teamA := Some(g.awayName),
      teamB := Some(g.homeName),
      fighterA := None,
      fighterB := None,
      start := g.gameDate,
      status := GetMLBGameStatus(g.status).Label(),
      venue := Some(if Truthy(g.venueName) then g.venueName.value else "TBD"))
  }

  /** The games of the dates `ds`, date after date; a date without `games`
      contributes nothing. */
  function GamesOfDates(ds: seq<ScheduleDate>): seq<MLBGame> {
    if ds == [] then [] else GamesOfDates(ds[..|ds| - 1]) + ds[|ds| - 1].games.GetOr([])
  }

  /** Every game of the response in order; no `dates` means no games. */
  function ScheduledGames(data: Schedule): seq<MLBGame> {
    match data.dates
    case None => []
    case Some(ds) => GamesOfDates(ds)
  }

  /** The number of games the dates hold, counted from the front. */
  function TotalGames(ds: seq<ScheduleDate>): nat {
    if ds == [] then 0
    else (match ds[0].games case Some(gs) => |gs| case None => 0) + TotalGames(ds[1..])
  }

  lemma {:induction false} GamesOfDatesCount(ds: seq<ScheduleDate>)
    ensures |GamesOfDates(ds)| == TotalGames(ds)
  {
    if ds != [] {
      var last := |ds| - 1;
      GamesOfDatesCount(ds[..last]);
      if |ds| > 1 {
        GamesOfDatesCount(ds[1..]);
        GamesOfDatesCount(ds[1..][..last - 1]);
        assert ds[1..][..last - 1] == ds[..last][1..];
        GamesOfDatesCount(ds[..last][1..]);
        assert ds[..last][0] == ds[0];
        assert ds[1..][last - 1] == ds[last];
      } else {
        assert ds[..last] == [] && ds[1..] == [];
      }
    }
  }

  /** The canonical records of all scheduled games, in order. */
  function NormalizedGames(data: Schedule): seq<Event> {
    var gs := ScheduledGames(data);
    seq(|gs|, k requires 0 <= k < |gs| => GameEvent(gs[k]))
  }

  /** `normalizeMLBData`: two nested loops that push one record per game. */
  method NormalizeMLBData(data: Schedule) returns (games: seq<Event>)
    ensures |games| == |ScheduledGames(data)|
    ensures forall k :: 0 <= k < |games| ==> games[k] == GameEvent(ScheduledGames(data)[k])
  {
    games := [];
    if data.dates.Some? {
      var ds := data.dates.value;
      for i := 0 to |ds|
        invariant |games| == |GamesOfDates(ds[..i])|
        invariant forall k :: 0 <= k < |games| ==> games[k] == GameEvent(GamesOfDates(ds[..i])[k])
      {
        ghost var before := GamesOfDates(ds[..i]);
        assert ds[..i + 1][..i] == ds[..i];
        assert GamesOfDates(ds[..i + 1]) == before + ds[i].games.GetOr([]);
        if ds[i].games.Some? {
          var gs := ds[i].games.value;
          for j := 0 to |gs|
            invariant |games| == |before| + j
            invariant forall k :: 0 <= k < |games| ==> games[k] == GameEvent((before + gs)[k])
          {
            games := games + [GameEvent(gs[j])];
          }
        }
      }
      assert ds[..|ds|] == ds;
    }
  }

  /** The records the normaliser builds carry the baseball constants, both
      team names, and the venue name, or `TBD` when it is missing or empty. */
  lemma NormalizedRecord(data: Schedule, k: nat)
    requires k < |ScheduledGames(data)|
    ensures var g := ScheduledGames(data)[k];
            var e := NormalizedGames(data)[k];
            && e.id == "mlb_" + NatToString(g.gamePk)
            && e.sport == Some("Baseball") && e.league == Some("MLB")
            && e.teamA == Some(g.awayName) && e.teamB == Some(g.homeName)
            && e.start == g.gameDate
            && e.status == GetMLBGameStatus(g.status).Label()
            && e.venue == Some(if Truthy(g.venueName) then g.venueName.value else "TBD")
  {
  }

  /** Distinct upstream game keys give distinct event ids. */
  lemma NormalizedIdsDistinct(data: Schedule, i: nat, j: nat)
    requires i < j < |ScheduledGames(data)|
    requires ScheduledGames(data)[i].gamePk != ScheduledGames(data)[j].gamePk
    ensures NormalizedGames(data)[i].id != NormalizedGames(data)[j].id
  {
    var a := ScheduledGames(data)[i].gamePk;
    var b := ScheduledGames(data)[j].gamePk;
    if NormalizedGames(data)[i].id == NormalizedGames(data)[j].id {
      assert ("mlb_" + NatToString(a))[4..] == NatToString(a);
      assert ("mlb_" + NatToString(b))[4..] == NatToString(b);
      NatToStringInjective(a, b);
    }
  }

  // ---------------------------------------------------------------- teams

  /** The game `g` involves a followed team: some team's lower-cased name
      occurs in the lower-cased name of either side. */
  ghost predicate InvolvesFollowedTeam(g: Event, teams: seq<Team>) {
    exists t :: t in teams &&
      (IsSubstring(Lower(t.team), Lower(g.teamA.GetOr(""))) ||
       IsSubstring(Lower(t.team), Lower(g.teamB.GetOr(""))))
  }

  /** `filterGamesForTeams`: keeps, in order, the games that involve a
      followed team. Every game must name both sides. */
  function FilterGamesForTeams(games: seq<Event>, teams: seq<Team>): (r: seq<Event>)
    requires forall g :: g in games ==> g.teamA.Some? && g.teamB.Some?
    ensures IsSubsequence(r, games)
    ensures forall g :: multiset(r)[g] == if InvolvesFollowedTeam(g, teams) then multiset(games)[g] else 0
    ensures forall g :: g in r <==> g in games && InvolvesFollowedTeam(g, teams)
    ensures teams == [] ==> r == []
  {
    var names := seq(|teams|, i requires 0 <= i < |teams| => Lower(teams[i].team));
    var keep := (g: Event) =>
      exists name :: name in names &&
        (Includes(Lower(g.teamA.GetOr("")), name) || Includes(Lower(g.teamB.GetOr("")), name));
    assert forall g :: keep(g) <==> InvolvesFollowedTeam(g, teams) by {
      forall g ensures keep(g) <==> InvolvesFollowedTeam(g, teams) {
        if keep(g) {
          var name :| name in names &&
            (Includes(Lower(g.teamA.GetOr("")), name) || Includes(Lower(g.teamB.GetOr("")), name));
          var i :| 0 <= i < |teams| && names[i] == name;
          assert teams[i] in teams;
        }
        if InvolvesFollowedTeam(g, teams) {
          var t :| t in teams &&
            (IsSubstring(Lower(t.team), Lower(g.teamA.GetOr(""))) ||
             IsSubstring(Lower(t.team), Lower(g.teamB.GetOr(""))));
          var i :| 0 <= i < |teams| && teams[i] == t;
          assert names[i] in names;
        }
      }
    }
    Keep(games, keep)
  }

  /** The followed teams of the baseball league. */
  function MlbTeams(teams: seq<Team>): seq<Team> {
    Keep(teams, (t: Team) => t.sportType == "mlb")
  }

  /** What `fetchEventsFromAPIs` returns: nothing when no baseball team is
      followed; otherwise the followed teams' games of the schedule (none
      when the request failed). */
  function ApiEvents(teams: seq<Team>, response: Option<Schedule>): seq<Event> {
    var mlb := MlbTeams(teams);
    if mlb == [] then []
    else
      var games := match response case Some(d) => NormalizedGames(d) case None => [];
      FilterGamesForTeams(games, mlb)
  }

  /** `fetchMLBGames`: `None` stands for a failed request, a non-2xx answer
      or an unreadable body, all of which yield no games. */
  method FetchMLBGames(response: Option<Schedule>) returns (games: seq<Event>)
    ensures response.None? ==> games == []
    ensures response.Some? ==> games == NormalizedGames(response.value)
  {
    if response.None? {
      return [];
    }
    games := NormalizeMLBData(response.value);
  }

  /** `fetchEventsFromAPIs`: the baseball adapter is asked only when some
      baseball team is followed. */
  method FetchEventsFromAPIs(teams: seq<Team>, response: Option<Schedule>) returns (events: seq<Event>)
    ensures events == ApiEvents(teams, response)
    ensures forall e :: e in events ==> e.sport == Some("Baseball")
  {
    events := [];
    var mlbTeams := MlbTeams(teams);
    if |mlbTeams| > 0 {
      var mlbGames := FetchMLBGames(response);
      var filtered := FilterGamesForTeams(mlbGames, mlbTeams);
      events := events + filtered;
    }
  }
}
