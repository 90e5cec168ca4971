/** The two normalisers of the `APIHelpers` object, which nothing calls. They
    are written with optional chaining, `flatMap`, `map` and `|| []`, and they
    differ from the class's own normaliser: no venue, and a lower-case `live`
    status decided by the detailed state alone. */
module APIHelpers {
  import opened Common
  import opened Text
  import opened Events

  // ---------------------------------------------------------------- baseball

  /** The record `normalizeMLBData` builds for one game. */
  function LegacyGameEvent(g: MLBGame): Event {
    Event(
      id := "mlb_" + NatToString(g.gamePk),
      sport := Some("Baseball"),
      league := Some("MLB"),
      promotion := None,
      teamA := Some(g.awayName),
      teamB := Some(g.homeName),
      fighterA := None,
      fighterB := None,
      start := g.gameDate,
      status := if g.status.detailedState == Some("In Progress") then "live" else "Scheduled",
      venue := None)
  }

  /** The records of the games `gs`, in order (`games?.map(...)`): the
      baseball constants, away team as side A, the start instant, `live`
      exactly for a game in progress and `Scheduled` otherwise, no venue. */
  function LegacyRecords(gs: seq<MLBGame>): (r: seq<Event>)
    ensures |r| == |gs|
    ensures forall k :: 0 <= k < |gs| ==>
              && r[k].id == "mlb_" + NatToString(gs[k].gamePk)
              && r[k].sport == Some("Baseball") && r[k].league == Some("MLB")
              && r[k].teamA == Some(gs[k].awayName) && r[k].teamB == Some(gs[k].homeName)
              && r[k].start == gs[k].gameDate
              && (r[k].status == "live" <==> gs[k].status.detailedState == Some("In Progress"))
              && (r[k].status == "live" || r[k].status == "Scheduled")
              && r[k].venue == None
  {
    seq(|gs|, k requires 0 <= k < |gs| => LegacyGameEvent(gs[k]))
  }

  /** The records of `gs`, each wrapped as a present value. */
  function SomeRecords(gs: seq<MLBGame>): (r: seq<Option<Event>>)
    ensures |r| == |gs|
    ensures forall k :: 0 <= k < |gs| ==> r[k] == Some(LegacyGameEvent(gs[k]))
  {
    seq(|gs|, k requires 0 <= k < |gs| => Some(LegacyGameEvent(gs[k])))
  }

  lemma SomeRecordsAppend(a: seq<MLBGame>, b: seq<MLBGame>)
    ensures SomeRecords(a + b) == SomeRecords(a) + SomeRecords(b)
  {
  }

  /** The entry is not `undefined`. */
  predicate IsDefined(x: Option<Event>) {
    x.Some?
  }

  /** What the `flatMap` callback yields for one date, flattened one level:
      the records of its games, or, for a date without `games`, the single
      value `undefined` (`None`), since `flatMap` only flattens arrays. */
  function DateEntries(d: ScheduleDate): seq<Option<Event>> {
    match d.games
    case Some(gs) => SomeRecords(gs)
    case None => [None]
  }

  function FlatMapDates(ds: seq<ScheduleDate>): seq<Option<Event>> {
    if ds == [] then [] else FlatMapDates(ds[..|ds| - 1]) + DateEntries(ds[|ds| - 1])
  }

  /** `APIHelpers.normalizeMLBData` as written: `data.dates?.flatMap(...) || []`. */
  function NormalizeMLBDataAsWritten(data: Schedule): seq<Option<Event>> {
    match data.dates
    case None => []
    case Some(ds) => FlatMapDates(ds)
  }

  /** A response with one date and no `games` under it yields one `undefined`
      entry instead of no events. */
  lemma DateWithoutGamesYieldsUndefined()
    ensures var data := Schedule(Some([ScheduleDate(None)]));
            && ScheduledGames(data) == []
            && NormalizeMLBDataAsWritten(data) == [None]
  {
    var ds := [ScheduleDate(None)];
    assert ds[..0] == [];
    assert GamesOfDates(ds) == GamesOfDates([]) + [];
  }

  /** The corrected helper: the records of every scheduled game, a date
      without `games` contributing nothing. */
  function NormalizeMLBData(data: Schedule): (r: seq<Event>)
    ensures |r| == |ScheduledGames(data)|
    ensures forall k :: 0 <= k < |r| ==> r[k] == LegacyGameEvent(ScheduledGames(data)[k])
  {
    LegacyRecords(ScheduledGames(data))
  }

  /** The entries the written helper yields are the corrected records with an
      `undefined` mixed in for every date without `games`: dropping those
      gives the corrected list back. */
  lemma {:induction false} AsWrittenDropsToCorrected(ds: seq<ScheduleDate>)
    ensures Keep(FlatMapDates(ds), IsDefined) == SomeRecords(GamesOfDates(ds))
  {
    if ds != [] {
      var front := ds[..|ds| - 1];
      var d := ds[|ds| - 1];
      AsWrittenDropsToCorrected(front);
      KeepAppend(FlatMapDates(front), DateEntries(d), IsDefined);
      var gs := d.games.GetOr([]);
      SomeRecordsAppend(GamesOfDates(front), gs);
      match d.games
      case None =>
        assert DateEntries(d) == [None];
        assert Keep(DateEntries(d), IsDefined) == [] by {
          assert DateEntries(d)[1..] == [];
        }
      case Some(_) =>
        KeepAllDefined(DateEntries(d));
    }
  }

  /** Keeping the present entries of a list that has no `undefined` changes
      nothing. */
  lemma {:induction false} KeepAllDefined(s: seq<Option<Event>>)
    requires forall k :: 0 <= k < |s| ==> s[k].Some?
    ensures Keep(s, IsDefined) == s
  {
    if s != [] {
      KeepAllDefined(s[1..]);
    }
  }

  /** Where every date has `games`, the written helper yields exactly the
      corrected records. */
  lemma AsWrittenAgreesWhenGamesPresent(data: Schedule)
    requires data.dates.Some? ==> forall d :: d in data.dates.value ==> d.games.Some?
    ensures NormalizeMLBDataAsWritten(data) == SomeRecords(ScheduledGames(data))
  {
    if data.dates.Some? {
      var ds := data.dates.value;
      AsWrittenDropsToCorrected(ds);
      NoUndefined(ds);
      KeepAllDefined(FlatMapDates(ds));
    }
  }

  lemma {:induction false} NoUndefined(ds: seq<ScheduleDate>)
    requires forall d :: d in ds ==> d.games.Some?
    ensures forall k :: 0 <= k < |FlatMapDates(ds)| ==> FlatMapDates(ds)[k].Some?
  {
    if ds != [] {
      var front := ds[..|ds| - 1];
      assert forall d :: d in front ==> d in ds;
      assert ds[|ds| - 1] in ds;
      NoUndefined(front);
    }
  }

  /** The helper and the class's normaliser build the same identity, sport,
      league, sides and start for every game; only status and venue differ. */
  lemma AgreesWithPipeline(data: Schedule, k: nat)
    requires k < |ScheduledGames(data)|
    ensures var a := NormalizeMLBData(data)[k];
            var b := NormalizedGames(data)[k];
            && a.id == b.id && a.sport == b.sport && a.league == b.league
            && a.teamA == b.teamA && a.teamB == b.teamB && a.start == b.start
            && a.venue == None && b.venue.Some?
  {
  }

  /** The helper's in-progress status is not among the six labels of the
      canonical vocabulary, which spells it `Live`. */
  lemma LiveSpelledDifferently(g: MLBGame)
    requires g.status.detailedState == Some("In Progress")
    ensures forall s: GameStatus :: LegacyGameEvent(g).status != s.Label()
  {
    assert "live"[0] != "Live"[0];
  }

  // ---------------------------------------------------------------- basketball

  /** One game of the basketball API: `id`, the two teams' `full_name`, the
      start instant and the status word. */
  datatype NBAGame = NBAGame(id: nat, visitorName: string, homeName: string, date: int, status: string)

  /** The response `{ data: [...] }`. */
  datatype NBAResponse = NBAResponse(data: Option<seq<NBAGame>>)

  function NBAGameEvent(g: NBAGame): Event {
    Event(
      id := "nba_" + NatToString(g.id),
      sport := Some("Basketball"),
      league := Some("NBA"),
      promotion := None,
      teamA := Some(g.visitorName),
      teamB := Some(g.homeName),
      fighterA := None,
      fighterB := None,
      start := g.date,
      status := if g.status == "Final" then "Completed" else "Scheduled",
      venue := None)
  }

  /** `normalizeNBAData`: one record per game in order, with id `nba_` and
      the game id, the visitors as side A, `Completed` for a final game and
      `Scheduled` otherwise, and no venue; no `data` gives no events. */
  function NormalizeNBAData(resp: NBAResponse): (r: seq<Event>)
    ensures resp.data.None? ==> r == []
    ensures resp.data.Some? ==> |r| == |resp.data.value|
    ensures resp.data.Some? ==> forall k :: 0 <= k < |r| ==>
              && r[k].id == "nba_" + NatToString(resp.data.value[k].id)
              && r[k].teamA == Some(resp.data.value[k].visitorName)
              && r[k].teamB == Some(resp.data.value[k].homeName)
              && r[k].start == resp.data.value[k].date
              && (r[k].status == "Completed" <==> resp.data.value[k].status == "Final")
              && (r[k].status == "Completed" || r[k].status == "Scheduled")
              && r[k].sport == Some("Basketball") && r[k].league == Some("NBA")
              && r[k].venue == None
  {
    match resp.data
    case None => []
    case Some(gs) => seq(|gs|, k requires 0 <= k < |gs| => NBAGameEvent(gs[k]))
  }

  /** Different game ids give different event ids, and a basketball id never
      equals a baseball one. */
  lemma NBAIdsDistinct(a: NBAGame, b: NBAGame, g: MLBGame)
    ensures a.id != b.id ==> NBAGameEvent(a).id != NBAGameEvent(b).id
    ensures NBAGameEvent(a).id != LegacyGameEvent(g).id
  {
    if a.id != b.id && NBAGameEvent(a).id == NBAGameEvent(b).id {
      assert NBAGameEvent(a).id[4..] == NatToString(a.id);
      assert NBAGameEvent(b).id[4..] == NatToString(b.id);
      NatToStringInjective(a.id, b.id);
    }
    assert NBAGameEvent(a).id[0] != LegacyGameEvent(g).id[0];
  }
}
