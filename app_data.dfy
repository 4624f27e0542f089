/** How the web app (app.js) reads the statistics file that the fetch script
    (scripts/fetch-data.js) writes: the app's game table, the
    `drawnResults` blocks built by `buildDrawnResults`, and
    `parseStatistics`, which picks the blocks for the game's period. */
module AppData {
  import opened Support
  import opened NumberStats
  import opened History

  // ----- the app's game table -----

  datatype Game = LottoGame | EuroMillionsGame

  /** The keys of the app's GAME_CONFIG. */
  function GameKey(g: Game): string
  {
    match g
    case LottoGame => "lotto"
    case EuroMillionsGame => "euromillions"
  }

  /** The lookup GAME_CONFIG[key]: a game for its own key and no other. */
  function GameOfKey(key: string): (g: Option<Game>)
    ensures g.Some? ==> GameKey(g.value) == key
    ensures forall h: Game :: GameKey(h) == key ==> g == Some(h)
  {
    if key == "lotto" then Some(LottoGame)
    else if key == "euromillions" then Some(EuroMillionsGame)
    else None
  }

  /** The numbers of each game: 6 of 45, and 5 of 50 with 2 of 12 stars. */
  function ConfigOf(g: Game): (cfg: GameConfig)
    ensures cfg.hasStars <==> g == EuroMillionsGame
  {
    match g
    case LottoGame => Lotto
    case EuroMillionsGame => EuroMillions
  }

  /** The statistics period the app looks for first. */
  function PeriodFilter(g: Game): string
  {
    match g
    case LottoGame => "2011-Today"
    case EuroMillionsGame => "2016-Today"
  }

  // ----- the statistics file -----

  /** One block of `drawnResults`; a missing period is the empty text. */
  datatype DrawnResult = DrawnResult(
    gameName: string,
    period: string,
    statistics: seq<NumberStat>,
    mostDrawnResults: seq<string>,
    leastDrawnResults: seq<string>,
    drawCount: int,
    selectionType: string)

  /** The period the fetch script writes on every block. */
  const OfficialPeriod: string := "Official statistics (Loterie Nationale)"

  /** `buildDrawnResults`: one block of the statistics file. */
  function BuildDrawnResults(gameName: string, statistics: seq<NumberStat>, drawCount: int,
                             mostDrawnResults: seq<string>, leastDrawnResults: seq<string>,
                             selectionType: string): DrawnResult
  {
    DrawnResult(gameName, OfficialPeriod, statistics, mostDrawnResults, leastDrawnResults, drawCount, selectionType)
  }

  /** The `drawnResults` list the fetch script writes for a game: the main
      block, then a star block (with the main draw count and empty lists)
      for a game with stars. */
  function FetchedResults(cfg: GameConfig, gameName: string, main: Extracted, stars: seq<NumberStat>): (rs: seq<DrawnResult>)
    ensures |rs| == if cfg.hasStars then 2 else 1
  {
    [BuildDrawnResults(gameName, main.statistics, main.drawCount, main.mostDrawnResults, main.leastDrawnResults, "main")]
    + (if cfg.hasStars then [BuildDrawnResults(gameName, stars, main.drawCount, [], [], "star")] else [])
  }

  // ----- parseStatistics -----

  /** A block of the given kind whose period (non-empty) contains the
      filter, or of the given kind at all when there is no filter. */
  predicate Matches(r: DrawnResult, kind: string, filter: Option<string>)
  {
    r.selectionType == kind && (filter.None? || (r.period != "" && Contains(r.period, filter.value)))
  }

  /** Array.prototype.find, as an index. */
  function FirstMatch(rs: seq<DrawnResult>, kind: string, filter: Option<string>): (r: Option<nat>)
    ensures r.Some? ==> r.value < |rs| && Matches(rs[r.value], kind, filter)
    ensures r.Some? ==> forall j :: 0 <= j < r.value ==> !Matches(rs[j], kind, filter)
    ensures r.None? ==> forall j :: 0 <= j < |rs| ==> !Matches(rs[j], kind, filter)
  {
    if rs == [] then None
    else if Matches(rs[0], kind, filter) then Some(0)
    else match FirstMatch(rs[1..], kind, filter)
      case None => None
      case Some(i) => Some(i + 1)
  }

  /** The first block of the kind for the period, else the first block of
      the kind. */
  function Block(rs: seq<DrawnResult>, kind: string, filter: string): Option<nat>
  {
    var exact := FirstMatch(rs, kind, Some(filter));
    if exact.Some? then exact else FirstMatch(rs, kind, None)
  }

  /** A block is found exactly when one of the kind exists; it is the first
      one for the period when there is one, and otherwise the first one of
      the kind. */
  lemma BlockFacts(rs: seq<DrawnResult>, kind: string, filter: string)
    ensures Block(rs, kind, filter).None? <==> forall j :: 0 <= j < |rs| ==> rs[j].selectionType != kind
    ensures var b := Block(rs, kind, filter);
      b.Some? ==> b.value < |rs| && rs[b.value].selectionType == kind
    ensures var b := Block(rs, kind, filter);
      (exists j :: 0 <= j < |rs| && Matches(rs[j], kind, Some(filter))) ==>
        b.Some? && Matches(rs[b.value], kind, Some(filter))
        && forall j :: 0 <= j < b.value ==> !Matches(rs[j], kind, Some(filter))
    ensures var b := Block(rs, kind, filter);
      (forall j :: 0 <= j < |rs| ==> !Matches(rs[j], kind, Some(filter))) && b.Some? ==>
        forall j :: 0 <= j < b.value ==> rs[j].selectionType != kind
  {
    var b := Block(rs, kind, filter);
    if b.None? {
      forall j | 0 <= j < |rs| ensures rs[j].selectionType != kind {
        assert !Matches(rs[j], kind, None);
      }
    } else if FirstMatch(rs, kind, Some(filter)).None? {
      forall j | 0 <= j < b.value ensures rs[j].selectionType != kind {
        assert !Matches(rs[j], kind, None);
      }
    }
  }

  /** What `parseStatistics` returns; the star statistics are null (None)
      for a game without stars or a file without a star block. */
  datatype Parsed = Parsed(
    mainStats: seq<NumberStat>,
    starStats: Option<seq<NumberStat>>,
    drawCount: int,
    mostDrawnResults: seq<string>,
    leastDrawnResults: seq<string>)

  /** The app shows this many numbers at each end of the frequency list. */
  const ShownResults: nat := 5

  const NoDrawStatisticsMessage: string := "Cannot read properties of undefined (reading 'drawnResults')"
  const NoPeriodMessage: string := "Could not find statistics for the specified period"

  /** `parseStatistics` over the `drawStatistics` list of the file, for the
      game whose numbers and period filter are given (ConfigOf(g) and
      PeriodFilter(g) for the app's games). */
  function ParseStatistics(drawStatistics: seq<seq<DrawnResult>>, cfg: GameConfig, periodFilter: string): Result<Parsed>
  {
    if drawStatistics == [] then Err(NoDrawStatisticsMessage)
    else
      var rs := drawStatistics[0];
      match Block(rs, "main", periodFilter)
      case None => Err(NoPeriodMessage)
      case Some(m) =>
        var stars := if cfg.hasStars then Block(rs, "star", periodFilter) else None;
        Ok(Parsed(
          rs[m].statistics,
          if stars.Some? then Some(rs[stars.value].statistics) else None,
          rs[m].drawCount,
          Take(rs[m].mostDrawnResults, ShownResults),
          Take(rs[m].leastDrawnResults, ShownResults)))
  }

  /** It fails exactly when the file has no draw statistics or no main
      block; otherwise everything but the star statistics comes from one
      main block, the lists cut to their first five, and there are star
      statistics exactly for a game with stars and a file with a star
      block. */
  lemma ParseStatisticsFacts(drawStatistics: seq<seq<DrawnResult>>, cfg: GameConfig, periodFilter: string)
    ensures var r := ParseStatistics(drawStatistics, cfg, periodFilter);
      r.Err? <==> drawStatistics == [] || forall j :: 0 <= j < |drawStatistics[0]| ==> drawStatistics[0][j].selectionType != "main"
    ensures var r := ParseStatistics(drawStatistics, cfg, periodFilter);
      r.Ok? ==>
        exists m :: 0 <= m < |drawStatistics[0]| && (
          var b := drawStatistics[0][m];
          && b.selectionType == "main"
          && r.value.mainStats == b.statistics
          && r.value.drawCount == b.drawCount
          && |r.value.mostDrawnResults| == Min(ShownResults, |b.mostDrawnResults|)
          && r.value.mostDrawnResults == b.mostDrawnResults[..|r.value.mostDrawnResults|]
          && |r.value.leastDrawnResults| == Min(ShownResults, |b.leastDrawnResults|)
          && r.value.leastDrawnResults == b.leastDrawnResults[..|r.value.leastDrawnResults|])
    ensures var r := ParseStatistics(drawStatistics, cfg, periodFilter);
      r.Ok? ==>
        (r.value.starStats.Some? <==>
          cfg.hasStars && exists j :: 0 <= j < |drawStatistics[0]| && drawStatistics[0][j].selectionType == "star")
  {
    if drawStatistics != [] {
      var rs := drawStatistics[0];
      BlockFacts(rs, "main", periodFilter);
      BlockFacts(rs, "star", periodFilter);
      var b := Block(rs, "main", periodFilter);
      if b.Some? {
        assert rs[b.value].selectionType == "main";
      }
    }
  }

  /** No period of the fetch script holds a digit, so the app's period
      filter never matches the file and it always takes the first main and
      star blocks. */
  lemma OfficialPeriodNeverMatches(game: Game)
    ensures !Contains(OfficialPeriod, PeriodFilter(game))
  {
    var p := OfficialPeriod;
    assert forall i :: 0 <= i < |p| ==> !IsDigit(p[i]);
    NoCharNoContains(p, PeriodFilter(game), 0);
  }

  /** The only block of its kind is the one found. */
  lemma {:induction false} OnlyBlock(rs: seq<DrawnResult>, kind: string, filter: string, i: nat)
    requires i < |rs| && rs[i].selectionType == kind
    requires forall j :: 0 <= j < |rs| && j != i ==> rs[j].selectionType != kind
    ensures Block(rs, kind, filter) == Some(i)
  {
    BlockFacts(rs, kind, filter);
  }

  /** Reading back what the fetch script writes for a game gives its main
      statistics, draw count and the first five of each list, and the star
      statistics exactly for a game with stars, whatever the period filter. */
  lemma {:induction false} FetchedRoundTrip(cfg: GameConfig, periodFilter: string, gameName: string, main: Extracted, stars: seq<NumberStat>)
    ensures ParseStatistics([FetchedResults(cfg, gameName, main, stars)], cfg, periodFilter)
      == Ok(Parsed(
        main.statistics,
        if cfg.hasStars then Some(stars) else None,
        main.drawCount,
        Take(main.mostDrawnResults, ShownResults),
        Take(main.leastDrawnResults, ShownResults)))
  {
    var rs := FetchedResults(cfg, gameName, main, stars);
    OnlyBlock(rs, "main", periodFilter, 0);
    if cfg.hasStars {
      OnlyBlock(rs, "star", periodFilter, 1);
    }
  }
}
