/** The gold-layer fact table and the task that loads it (`load_fact_table`): project each
    silver row into the account's perspective, stamp it with the run's execution date, left
    join it to the dimensions, and merge it with the previous snapshot keeping the latest row
    per game URL. */
module Facts {
  import opened Wrappers
  import opened Calendar
  import opened Transform
  import opened Relational
  import opened Dimensions

  /** The account whose games the pipeline loads; "my" columns are this player's side. */
  const MyUsername: string := "Rhythmbear1"

  datatype FactRow = FactRow(
    game_url: string, game_date: CalendarDate, start_time: DateTime, end_time: DateTime,
    game_duration_secs: int, time_control: string,
    my_color: string, my_username: string, opponent_username: string,
    my_rating: int, opponent_rating: int, my_result: string, opponent_result: string,
    game_fen: string, opening_url: string, game_pgn: string, moves: int, last_updated: int)

  /** One side of a game: who played it, at what rating, with what result. */
  datatype Player = Player(username: string, rating: int, result: string)

  function WhiteOf(g: SilverGame): Player {
    Player(g.info.pgn_white_user, g.info.white_rating, g.info.white_result)
  }

  function BlackOf(g: SilverGame): Player {
    Player(g.info.pgn_black_user, g.info.black_rating, g.info.black_result)
  }

  function Mine(r: FactRow): Player {
    Player(r.my_username, r.my_rating, r.my_result)
  }

  function Theirs(r: FactRow): Player {
    Player(r.opponent_username, r.opponent_rating, r.opponent_result)
  }

  /** `date_diff('seconds', start_time, end_time)`. */
  function DurationSecs(start: DateTime, end: DateTime): int {
    EpochSeconds(end) - EpochSeconds(start)
  }

  /** The projection of one silver row. The perspective is decided by the white username
      alone: when it is the account, "my" side is white, otherwise it is black. */
  function ProjectFact(g: SilverGame, udfs: Udfs, execDate: int): (r: FactRow)
    ensures r.game_url == g.info.game_url && r.game_date == g.info.game_date
    ensures r.last_updated == execDate
    ensures r.start_time == g.start_time && r.end_time == g.end_time
    ensures r.game_fen == g.info.pgn_current_position && r.opening_url == g.info.pgn_eco_url
    ensures r.game_pgn == g.info.pgn_trans && r.moves == udfs.getPgnDepth(g.info.pgn_trans)
    ensures r.game_duration_secs == EpochSeconds(g.end_time) - EpochSeconds(g.start_time)
    ensures r.time_control == udfs.formatTimeControl(g.info.time_control)
    ensures r.my_color == "white" <==> g.info.pgn_white_user == MyUsername
    ensures r.my_color == "white" ==> Mine(r) == WhiteOf(g) && Theirs(r) == BlackOf(g)
    ensures r.my_color != "white" ==> r.my_color == "black" && Mine(r) == BlackOf(g) && Theirs(r) == WhiteOf(g)
    ensures MyUsername in {g.info.pgn_white_user, g.info.pgn_black_user} ==> r.my_username == MyUsername
  {
    var white := g.info.pgn_white_user == MyUsername;
    FactRow(
      g.info.game_url, g.info.game_date, g.start_time, g.end_time,
      DurationSecs(g.start_time, g.end_time),
      udfs.formatTimeControl(g.info.time_control),
      if white then "white" else "black",
      if white then g.info.pgn_white_user else g.info.pgn_black_user,
      if white then g.info.pgn_black_user else g.info.pgn_white_user,
      if white then g.info.white_rating else g.info.black_rating,
      if white then g.info.black_rating else g.info.white_rating,
      if white then g.info.white_result else g.info.black_result,
      if white then g.info.black_result else g.info.white_result,
      g.info.pgn_current_position, g.info.pgn_eco_url, g.info.pgn_trans,
      udfs.getPgnDepth(g.info.pgn_trans), execDate)
  }

  function ProjectBatch(batch: seq<SilverGame>, udfs: Udfs, execDate: int): (r: seq<FactRow>)
    ensures |r| == |batch|
    ensures forall i :: 0 <= i < |batch| ==> r[i] == ProjectFact(batch[i], udfs, execDate)
  {
    seq(|batch|, i requires 0 <= i < |batch| => ProjectFact(batch[i], udfs, execDate))
  }

  /** A game that ends later than it starts has a positive duration, whichever days the two
      timestamps fall on. */
  lemma DurationPositive(g: SilverGame, udfs: Udfs, execDate: int)
    requires Before(g.start_time, g.end_time)
    ensures ProjectFact(g, udfs, execDate).game_duration_secs > 0
  {
    EpochSecondsMonotonic(g.start_time, g.end_time);
  }

  /** A game started at 23:58:00 and ended at 00:03:00 on the next day lasted 300 seconds:
      the end timestamp is built from the end date, not from the start date. */
  lemma CrossMidnightDuration(e: ExtractedGame, udfs: Udfs, execDate: int)
    requires e.info.end_game_date == NextDay(e.info.game_date)
    requires e.start_time == TimeOfDay(23, 58, 0) && e.end_time == TimeOfDay(0, 3, 0)
    ensures ProjectFact(CombineTimes(e), udfs, execDate).game_duration_secs == 300
  {
  }

  // ----- LEFT JOIN with the dimensions ---------------------------------------------

  /** The four dimension snapshots the fact task reads. */
  datatype GoldDimensions = GoldDimensions(
    dates: seq<DateRow>, openings: seq<OpeningRow>, results: seq<ResultRow>, timeControls: seq<TimeControlRow>)

  /** `SELECT fact.* FROM fct LEFT JOIN dim_date ... LEFT JOIN dim_openings ... LEFT JOIN
      dim_results (twice) ... LEFT JOIN dim_time_control ...`. */
  function FactJoin(facts: seq<FactRow>, dims: GoldDimensions): (r: seq<FactRow>)
    ensures multiset(facts) <= multiset(r)
    ensures forall x :: x in r <==> x in facts
  {
    var byDate := LeftJoin(facts, dims.dates, (f: FactRow) => f.game_date, (d: DateRow) => d.game_date);
    var byOpening := LeftJoin(byDate, dims.openings, (f: FactRow) => f.opening_url, (o: OpeningRow) => o.pgn_eco_url);
    var byMyResult := LeftJoin(byOpening, dims.results, (f: FactRow) => f.my_result, (x: ResultRow) => x.result_code);
    var byTheirResult := LeftJoin(byMyResult, dims.results, (f: FactRow) => f.opponent_result, (x: ResultRow) => x.result_code);
    LeftJoin(byTheirResult, dims.timeControls, (f: FactRow) => f.time_control, (t: TimeControlRow) => t.time_control)
  }

  predicate DateKeysUnique(dims: GoldDimensions) {
    UniqueKeys(dims.dates, (d: DateRow) => d.game_date)
  }

  predicate OpeningKeysUnique(dims: GoldDimensions) {
    UniqueKeys(dims.openings, (o: OpeningRow) => o.pgn_eco_url)
  }

  predicate ResultKeysUnique(dims: GoldDimensions) {
    UniqueKeys(dims.results, (x: ResultRow) => x.result_code)
  }

  predicate TimeControlKeysUnique(dims: GoldDimensions) {
    UniqueKeys(dims.timeControls, (t: TimeControlRow) => t.time_control)
  }

  /** Against dimensions whose join keys are unique, the joins return the batch unchanged:
      no row dropped, none repeated, same order. */
  lemma FactJoinUniqueKeys(facts: seq<FactRow>, dims: GoldDimensions)
    requires DateKeysUnique(dims) && OpeningKeysUnique(dims) && ResultKeysUnique(dims) && TimeControlKeysUnique(dims)
    ensures FactJoin(facts, dims) == facts
  {
    LeftJoinUniqueKeys(facts, dims.dates, (f: FactRow) => f.game_date, (d: DateRow) => d.game_date);
    LeftJoinUniqueKeys(facts, dims.openings, (f: FactRow) => f.opening_url, (o: OpeningRow) => o.pgn_eco_url);
    LeftJoinUniqueKeys(facts, dims.results, (f: FactRow) => f.my_result, (x: ResultRow) => x.result_code);
    LeftJoinUniqueKeys(facts, dims.results, (f: FactRow) => f.opponent_result, (x: ResultRow) => x.result_code);
    LeftJoinUniqueKeys(facts, dims.timeControls, (f: FactRow) => f.time_control, (t: TimeControlRow) => t.time_control);
  }

  /** With unique date, opening and result keys the first four joins change nothing, and
      the result is the time-control join alone. */
  lemma FactJoinIsTimeControlJoin(facts: seq<FactRow>, dims: GoldDimensions)
    requires DateKeysUnique(dims) && OpeningKeysUnique(dims) && ResultKeysUnique(dims)
    ensures FactJoin(facts, dims)
      == LeftJoin(facts, dims.timeControls, (f: FactRow) => f.time_control, (t: TimeControlRow) => t.time_control)
  {
    LeftJoinUniqueKeys(facts, dims.dates, (f: FactRow) => f.game_date, (d: DateRow) => d.game_date);
    LeftJoinUniqueKeys(facts, dims.openings, (f: FactRow) => f.opening_url, (o: OpeningRow) => o.pgn_eco_url);
    LeftJoinUniqueKeys(facts, dims.results, (f: FactRow) => f.my_result, (x: ResultRow) => x.result_code);
    LeftJoinUniqueKeys(facts, dims.results, (f: FactRow) => f.opponent_result, (x: ResultRow) => x.result_code);
  }

  // ----- ROW_NUMBER() OVER (PARTITION BY game_url ORDER BY last_updated DESC) = 1 ----

  /** Some row of `rows` belongs to the game `url`. */
  predicate HasUrl(rows: seq<FactRow>, url: string) {
    exists i :: 0 <= i < |rows| && rows[i].game_url == url
  }

  /** `o` is a row of `rows` and no row of its game in `rows` is more recent. */
  predicate IsLatest(rows: seq<FactRow>, o: FactRow) {
    o in rows && forall x :: x in rows && x.game_url == o.game_url ==> x.last_updated <= o.last_updated
  }

  /** No two rows belong to one game. */
  predicate DistinctUrls(rows: seq<FactRow>) {
    forall i, j :: 0 <= i < j < |rows| ==> rows[i].game_url != rows[j].game_url
  }

  function Urls(rows: seq<FactRow>): (us: seq<string>)
    ensures |us| == |rows| && forall i :: 0 <= i < |rows| ==> us[i] == rows[i].game_url
  {
    seq(|rows|, i requires 0 <= i < |rows| => rows[i].game_url)
  }

  /** The row ranked first in the partition of `url`: one with the latest `last_updated`.
      Ties are left open by the source; this model keeps the first such row in input order. */
  function LatestFor(rows: seq<FactRow>, url: string): (r: FactRow)
    requires HasUrl(rows, url)
    ensures r.game_url == url && IsLatest(rows, r)
  {
    assert rows == [rows[0]] + rows[1..];
    if rows[0].game_url == url then
      if HasUrl(rows[1..], url) then
        var best := LatestFor(rows[1..], url);
        if best.last_updated > rows[0].last_updated then best else rows[0]
      else rows[0]
    else
      assert HasUrl(rows[1..], url) by {
        var i :| 0 <= i < |rows| && rows[i].game_url == url;
        assert rows[1..][i - 1] == rows[i];
      }
      LatestFor(rows[1..], url)
  }

  /** The partition heads for the URLs `us`, in the order of `us`. */
  function LatestEach(rows: seq<FactRow>, us: seq<string>): (r: seq<FactRow>)
    requires forall u :: u in us ==> HasUrl(rows, u)
    ensures |r| == |us|
    ensures forall i :: 0 <= i < |us| ==> r[i].game_url == us[i] && IsLatest(rows, r[i])
  {
    if us == [] then [] else [LatestFor(rows, us[0])] + LatestEach(rows, us[1..])
  }

  lemma UrlsHaveRows(rows: seq<FactRow>)
    ensures forall u :: u in Urls(rows) ==> HasUrl(rows, u)
    ensures forall x :: x in rows ==> x.game_url in Urls(rows)
  {
    forall x | x in rows ensures x.game_url in Urls(rows) {
      var k :| 0 <= k < |rows| && rows[k] == x;
      assert Urls(rows)[k] == x.game_url;
    }
  }

  /** The partition heads for distinct URLs are the latest rows of distinct games, one for
      each of those URLs. */
  lemma LatestEachHeads(rows: seq<FactRow>, us: seq<string>)
    requires forall u :: u in us ==> HasUrl(rows, u)
    requires NoDup(us)
    ensures var r := LatestEach(rows, us);
      && (forall o :: o in r ==> IsLatest(rows, o))
      && DistinctUrls(r)
      && (forall u :: u in us ==> HasUrl(r, u))
  {
    var r := LatestEach(rows, us);
    forall o | o in r ensures IsLatest(rows, o) {
      var i :| 0 <= i < |r| && r[i] == o;
    }
    forall u | u in us ensures HasUrl(r, u) {
      var i :| 0 <= i < |us| && us[i] == u;
      assert r[i].game_url == u;
    }
  }

  /** The deduplication: one row per game of the input, each a row of the input with the
      latest `last_updated` of its game, and no game of the input missing. */
  function KeepLatest(rows: seq<FactRow>): (r: seq<FactRow>)
    ensures forall o :: o in r ==> IsLatest(rows, o)
    ensures DistinctUrls(r)
    ensures forall x :: x in rows ==> HasUrl(r, x.game_url)
  {
    UrlsHaveRows(rows);
    var us := Distinct(Urls(rows));
    LatestEachHeads(rows, us);
    LatestEach(rows, us)
  }

  /** The merge with the previous snapshot: `UNION ALL` then the deduplication when the
      snapshot exists; otherwise the joined batch as it is. */
  function MergeFacts(prev: Option<seq<FactRow>>, batch: seq<FactRow>): (r: seq<FactRow>)
    ensures prev.Some? ==> (
      && DistinctUrls(r)
      && (forall o :: o in r ==> IsLatest(prev.value + batch, o))
      && (forall x :: x in prev.value + batch ==> HasUrl(r, x.game_url)))
    ensures prev.None? ==> r == batch
  {
    match prev
    case Some(p) => KeepLatest(p + batch)
    case None => batch
  }

  /** The whole fact task. Without a snapshot it writes the joined batch, whose rows are
      exactly the projections of the silver rows (repeated when a dimension key matches
      twice); with one, one row per game, each the latest of its game among the stored
      and the new rows, and no game of the batch missing. */
  function LoadFactTable(prev: Option<seq<FactRow>>, silver: seq<SilverGame>, dims: GoldDimensions, udfs: Udfs, execDate: int): (r: seq<FactRow>)
    ensures prev.None? ==> forall x :: x in r <==> ProjectedFrom(silver, udfs, execDate, x)
    ensures prev.Some? ==> (
      && DistinctUrls(r)
      && (forall g :: g in silver ==> HasUrl(r, g.info.game_url))
      && (forall x :: x in prev.value ==> HasUrl(r, x.game_url))
      && (forall o :: o in r ==> IsLatest(prev.value + FactJoin(ProjectBatch(silver, udfs, execDate), dims), o)))
  {
    var batch := FactJoin(ProjectBatch(silver, udfs, execDate), dims);
    JoinedBatchRows(silver, dims, udfs, execDate);
    BatchHoldsEveryGame(silver, dims, udfs, execDate);
    MergeFacts(prev, batch)
  }

  /** Every silver row's projection is a row of the joined batch. */
  lemma BatchHoldsEveryGame(silver: seq<SilverGame>, dims: GoldDimensions, udfs: Udfs, execDate: int)
    ensures forall g :: g in silver ==> ProjectFact(g, udfs, execDate) in FactJoin(ProjectBatch(silver, udfs, execDate), dims)
  {
    JoinedBatchRows(silver, dims, udfs, execDate);
    forall g | g in silver ensures ProjectFact(g, udfs, execDate) in FactJoin(ProjectBatch(silver, udfs, execDate), dims) {
      assert ProjectedFrom(silver, udfs, execDate, ProjectFact(g, udfs, execDate));
    }
  }

  // ----- properties of the whole task ----------------------------------------------

  /** `x` is the projection of some silver row of the batch. */
  predicate ProjectedFrom(silver: seq<SilverGame>, udfs: Udfs, execDate: int, x: FactRow) {
    exists g :: g in silver && x == ProjectFact(g, udfs, execDate)
  }

  /** The joined batch holds exactly the projected batch rows. */
  lemma JoinedBatchRows(silver: seq<SilverGame>, dims: GoldDimensions, udfs: Udfs, execDate: int)
    ensures forall x :: x in FactJoin(ProjectBatch(silver, udfs, execDate), dims) <==> ProjectedFrom(silver, udfs, execDate, x)
  {
    var facts := ProjectBatch(silver, udfs, execDate);
    forall x | x in facts ensures ProjectedFrom(silver, udfs, execDate, x) {
      var i :| 0 <= i < |facts| && facts[i] == x;
      assert silver[i] in silver;
    }
    forall x | ProjectedFrom(silver, udfs, execDate, x) ensures x in facts {
      var g :| g in silver && x == ProjectFact(g, udfs, execDate);
      var i :| 0 <= i < |silver| && silver[i] == g;
      assert facts[i] == x;
    }
  }

  /** A row superseded by a later row of the same game is gone after the merge, and
      exactly one row of that game remains. */
  lemma SupersededRowDropped(prev: seq<FactRow>, batch: seq<FactRow>, stale: FactRow, newer: FactRow)
    requires stale in prev + batch && newer in prev + batch
    requires stale.game_url == newer.game_url && stale.last_updated < newer.last_updated
    ensures var r := MergeFacts(Some(prev), batch);
      && stale !in r
      && (exists k :: 0 <= k < |r| && r[k].game_url == stale.game_url
           && forall j :: 0 <= j < |r| && j != k ==> r[j].game_url != stale.game_url)
  {
    var all := prev + batch;
    var r := KeepLatest(all);
    assert !IsLatest(all, stale) by {
      assert newer in all && newer.game_url == stale.game_url;
    }
    assert HasUrl(r, stale.game_url);
    var k :| 0 <= k < |r| && r[k].game_url == stale.game_url;
    OnlyRowOfItsGame(r, k);
  }

  /** In rows of distinct games, row `k` is the only row of its game. */
  lemma OnlyRowOfItsGame(r: seq<FactRow>, k: int)
    requires DistinctUrls(r) && 0 <= k < |r|
    ensures forall j :: 0 <= j < |r| && j != k ==> r[j].game_url != r[k].game_url
  {
    forall j | 0 <= j < |r| && j != k ensures r[j].game_url != r[k].game_url {
      if j < k { assert r[j].game_url != r[k].game_url; } else { assert r[k].game_url != r[j].game_url; }
    }
  }

  /** With a snapshot whose rows all predate this run: one row per game; every row is
      either this run's projection of a batch game or a stored row of a game the batch does
      not hold; and no game of the batch or the snapshot is lost. */
  lemma NewerRunWins(prev: seq<FactRow>, silver: seq<SilverGame>, dims: GoldDimensions, udfs: Udfs, execDate: int)
    requires forall o :: o in prev ==> o.last_updated < execDate
    ensures var r := LoadFactTable(Some(prev), silver, dims, udfs, execDate);
      && DistinctUrls(r)
      && (forall o :: o in r ==>
            ProjectedFrom(silver, udfs, execDate, o)
            || (o in prev && forall g :: g in silver ==> g.info.game_url != o.game_url))
      && (forall g :: g in silver ==> HasUrl(r, g.info.game_url))
      && (forall x :: x in prev ==> HasUrl(r, x.game_url))
  {
    var batch := FactJoin(ProjectBatch(silver, udfs, execDate), dims);
    JoinedBatchRows(silver, dims, udfs, execDate);
    forall x | x in batch ensures x.last_updated == execDate {
      var g :| g in silver && x == ProjectFact(g, udfs, execDate);
    }
    MergeNewerBatch(prev, batch, execDate);
    forall g | g in silver ensures ProjectFact(g, udfs, execDate) in batch {
      assert ProjectedFrom(silver, udfs, execDate, ProjectFact(g, udfs, execDate));
    }
  }

  /** Merging a batch of rows stamped `execDate` into a snapshot whose rows all predate it:
      one row per game; a row is kept from the snapshot only when the batch has no row of
      its game; and no game of either side is lost. */
  lemma MergeNewerBatch(prev: seq<FactRow>, batch: seq<FactRow>, execDate: int)
    requires forall x :: x in prev ==> x.last_updated < execDate
    requires forall x :: x in batch ==> x.last_updated == execDate
    ensures var r := MergeFacts(Some(prev), batch);
      && DistinctUrls(r)
      && (forall o :: o in r ==> o in batch || (o in prev && forall x :: x in batch ==> x.game_url != o.game_url))
      && (forall x :: x in batch ==> HasUrl(r, x.game_url))
      && (forall x :: x in prev ==> HasUrl(r, x.game_url))
  {
    var all := prev + batch;
    var r := KeepLatest(all);
    forall o | o in r && o !in batch ensures o in prev && forall x :: x in batch ==> x.game_url != o.game_url {
      assert IsLatest(all, o);
      forall x | x in batch ensures x.game_url != o.game_url {
        assert x in all;
      }
    }
    forall x | x in batch || x in prev ensures HasUrl(r, x.game_url) {
      assert x in all;
    }
  }

  /** The first run against dimensions with unique keys writes the projected batch as it is:
      one row per silver row, in order. */
  lemma FirstRunUniqueKeys(silver: seq<SilverGame>, dims: GoldDimensions, udfs: Udfs, execDate: int)
    requires DateKeysUnique(dims) && OpeningKeysUnique(dims) && ResultKeysUnique(dims) && TimeControlKeysUnique(dims)
    ensures LoadFactTable(None, silver, dims, udfs, execDate) == ProjectBatch(silver, udfs, execDate)
  {
    FactJoinUniqueKeys(ProjectBatch(silver, udfs, execDate), dims);
  }

  /** As written, the first load of the time-control dimension keeps one row per game, so
      two games of the same time control and class are two matching rows for each of them:
      on a first run both games come out twice, and the fact table holds two rows per game. */
  lemma FirstRunDuplicatesGames(g: SilverGame, otherUrl: string, dims: GoldDimensions, udfs: Udfs, execDate: int)
    requires otherUrl != g.info.game_url
    requires DateKeysUnique(dims) && OpeningKeysUnique(dims) && ResultKeysUnique(dims)
    requires dims.timeControls == LoadDimTimeControl(None, [g, g.(info := g.info.(game_url := otherUrl))], udfs)
    ensures var f1 := ProjectFact(g, udfs, execDate);
      var f2 := ProjectFact(g.(info := g.info.(game_url := otherUrl)), udfs, execDate);
      LoadFactTable(None, [g, g.(info := g.info.(game_url := otherUrl))], dims, udfs, execDate) == [f1, f1, f2, f2]
  {
    var h := g.(info := g.info.(game_url := otherUrl));
    var f1 := ProjectFact(g, udfs, execDate);
    var f2 := ProjectFact(h, udfs, execDate);
    var tc := TimeControlOf(g, udfs);
    ProjectPair(g, h, udfs, execDate);
    SameTimeControlPair(g, h, udfs);
    FactJoinIsTimeControlJoin([f1, f2], dims);
    LeftJoinDoubleMatch(f1, f2, tc, (f: FactRow) => f.time_control, (t: TimeControlRow) => t.time_control);
  }

  lemma ProjectPair(g: SilverGame, h: SilverGame, udfs: Udfs, execDate: int)
    ensures ProjectBatch([g, h], udfs, execDate) == [ProjectFact(g, udfs, execDate), ProjectFact(h, udfs, execDate)]
  {
  }

  lemma SameTimeControlPair(g: SilverGame, h: SilverGame, udfs: Udfs)
    requires g.info.time_control == h.info.time_control && g.info.time_class == h.info.time_class
    ensures LoadDimTimeControl(None, [g, h], udfs) == [TimeControlOf(g, udfs), TimeControlOf(g, udfs)]
  {
  }

  /** With the DISTINCT first load, a first run over games with distinct URLs writes one row
      per game, as long as each time-control label comes with one time class. */
  lemma CorrectedFirstRunOneRowPerGame(silver: seq<SilverGame>, dims: GoldDimensions, udfs: Udfs, execDate: int)
    requires DateKeysUnique(dims) && OpeningKeysUnique(dims) && ResultKeysUnique(dims)
    requires dims.timeControls == LoadDimTimeControlDistinct(None, silver, udfs)
    requires LabelDeterminesClass(silver, udfs)
    ensures LoadFactTable(None, silver, dims, udfs, execDate) == ProjectBatch(silver, udfs, execDate)
    ensures forall i, j :: 0 <= i < j < |silver| && silver[i].info.game_url != silver[j].info.game_url ==>
      LoadFactTable(None, silver, dims, udfs, execDate)[i].game_url != LoadFactTable(None, silver, dims, udfs, execDate)[j].game_url
  {
    FirstTimeControlLoadUniqueLabels(silver, udfs);
    FactJoinUniqueKeys(ProjectBatch(silver, udfs, execDate), dims);
  }

  // ----- the gold tasks together ---------------------------------------------------

  /** The five gold snapshots; None is a blob that does not exist yet. */
  datatype GoldTables = GoldTables(
    openings: Option<seq<OpeningRow>>, dates: Option<seq<DateRow>>, timeControls: Option<seq<TimeControlRow>>,
    results: Option<seq<ResultRow>>, facts: Option<seq<FactRow>>)

  /** The results snapshot after a run: the stored one, or the seed when none exists. */
  function ResultsAfter(t: GoldTables): (r: seq<ResultRow>)
    ensures t.results.Some? ==> r == t.results.value
    ensures t.results.None? ==> r == ResultsSeed()
  {
    match LoadDimResults(t.results) case Some(w) => w case None => t.results.value
  }

  /** The dimension tables of a run's output, as its fact load joins against them. */
  function JoinedDimensions(r: GoldTables): GoldDimensions
    requires r.openings.Some? && r.dates.Some? && r.timeControls.Some? && r.results.Some?
  {
    GoldDimensions(r.dates.value, r.openings.value, r.results.value, r.timeControls.value)
  }

  /** One run of the gold tasks over a silver batch, as the program runs them: the
      dimension loads, then the fact load against the dimensions they leave. Every
      snapshot exists afterwards; stored dimension rows stay; the results are kept or
      seeded; and when a fact snapshot existed, the new one has one row per game, each the
      latest of its game among the stored and the new rows, and loses no game. */
  function RunGoldLoads(t: GoldTables, silver: seq<SilverGame>, udfs: Udfs, names: CalendarNames, execDate: int): (r: GoldTables)
    ensures r.openings.Some? && r.dates.Some? && r.timeControls.Some? && r.results.Some? && r.facts.Some?
    ensures t.results.Some? ==> r.results == t.results
    ensures t.results.None? ==> r.results == Some(ResultsSeed())
    ensures t.openings.Some? ==> forall x :: x in t.openings.value ==> x in r.openings.value
    ensures t.dates.Some? ==> forall x :: x in t.dates.value ==> x in r.dates.value
    ensures t.timeControls.Some? ==> forall x :: x in t.timeControls.value ==> x in r.timeControls.value
    ensures t.facts.Some? ==> (
      && DistinctUrls(r.facts.value)
      && (forall g :: g in silver ==> HasUrl(r.facts.value, g.info.game_url))
      && (forall x :: x in t.facts.value ==> HasUrl(r.facts.value, x.game_url))
      && (forall o :: o in r.facts.value ==>
            IsLatest(t.facts.value + FactJoin(ProjectBatch(silver, udfs, execDate), JoinedDimensions(r)), o)))
  {
    var openings := LoadDimOpenings(t.openings, silver, udfs);
    var dates := LoadDimDate(t.dates, silver, names);
    var timeControls := LoadDimTimeControl(t.timeControls, silver, udfs);
    var dims := GoldDimensions(dates, openings, ResultsAfter(t), timeControls);
    GoldTables(Some(openings), Some(dates), Some(timeControls), Some(ResultsAfter(t)),
      Some(LoadFactTable(t.facts, silver, dims, udfs, execDate)))
  }

  /** The same run with the corrected first time-control load
      (`Dimensions.LoadDimTimeControlDistinct`); it differs from `RunGoldLoads` only there.
      Its time-control snapshot never holds a duplicate row. */
  function RunGoldLoadsCorrected(t: GoldTables, silver: seq<SilverGame>, udfs: Udfs, names: CalendarNames, execDate: int): (r: GoldTables)
    ensures r.openings.Some? && r.dates.Some? && r.timeControls.Some? && r.results.Some? && r.facts.Some?
    ensures NoDup(r.timeControls.value)
    ensures t.timeControls.Some? ==> r == RunGoldLoads(t, silver, udfs, names, execDate)
    ensures t.results.Some? ==> r.results == t.results
    ensures t.results.None? ==> r.results == Some(ResultsSeed())
    ensures t.openings.Some? ==> forall x :: x in t.openings.value ==> x in r.openings.value
    ensures t.dates.Some? ==> forall x :: x in t.dates.value ==> x in r.dates.value
    ensures t.timeControls.Some? ==> forall x :: x in t.timeControls.value ==> x in r.timeControls.value
    ensures t.facts.Some? ==> (
      && DistinctUrls(r.facts.value)
      && (forall g :: g in silver ==> HasUrl(r.facts.value, g.info.game_url))
      && (forall x :: x in t.facts.value ==> HasUrl(r.facts.value, x.game_url))
      && (forall o :: o in r.facts.value ==>
            IsLatest(t.facts.value + FactJoin(ProjectBatch(silver, udfs, execDate), JoinedDimensions(r)), o)))
  {
    var openings := LoadDimOpenings(t.openings, silver, udfs);
    var dates := LoadDimDate(t.dates, silver, names);
    var timeControls := LoadDimTimeControlDistinct(t.timeControls, silver, udfs);
    var dims := GoldDimensions(dates, openings, ResultsAfter(t), timeControls);
    GoldTables(Some(openings), Some(dates), Some(timeControls), Some(ResultsAfter(t)),
      Some(LoadFactTable(t.facts, silver, dims, udfs, execDate)))
  }

  /** The program's very first run over two games that differ only in their URL writes
      each game twice: the Finding on the first time-control load, for a whole run. */
  lemma FirstGoldRunDuplicatesGames(g: SilverGame, otherUrl: string, udfs: Udfs, names: CalendarNames, execDate: int)
    requires otherUrl != g.info.game_url
    ensures var h := g.(info := g.info.(game_url := otherUrl));
      var r := RunGoldLoads(GoldTables(None, None, None, None, None), [g, h], udfs, names, execDate);
      r.facts == Some([ProjectFact(g, udfs, execDate), ProjectFact(g, udfs, execDate),
                       ProjectFact(h, udfs, execDate), ProjectFact(h, udfs, execDate)])
  {
    var h := g.(info := g.info.(game_url := otherUrl));
    var silver := [g, h];
    var dims := FirstRunDimensions(silver, udfs, names);
    FirstGoldRunFacts(silver, udfs, names, execDate);
    SameOpeningPair(g, h);
    FirstDateLoadUniqueDates(silver, names);
    FirstOpeningsLoadUniqueUrls(silver, udfs);
    FirstRunDuplicatesGames(g, otherUrl, dims, udfs, execDate);
  }

  /** The dimensions a first run of the program joins against. */
  function FirstRunDimensions(silver: seq<SilverGame>, udfs: Udfs, names: CalendarNames): GoldDimensions {
    GoldDimensions(LoadDimDate(None, silver, names), LoadDimOpenings(None, silver, udfs),
      ResultsSeed(), LoadDimTimeControl(None, silver, udfs))
  }

  lemma FirstGoldRunFacts(silver: seq<SilverGame>, udfs: Udfs, names: CalendarNames, execDate: int)
    ensures RunGoldLoads(GoldTables(None, None, None, None, None), silver, udfs, names, execDate).facts
      == Some(LoadFactTable(None, silver, FirstRunDimensions(silver, udfs, names), udfs, execDate))
  {
  }

  lemma SameOpeningPair(g: SilverGame, h: SilverGame)
    requires h.info.pgn_eco == g.info.pgn_eco
    ensures UrlDeterminesEco([g, h])
  {
  }

  /** On the very first corrected run, over games with distinct URLs in which an opening
      URL comes with one ECO code and a time-control label with one time class, the fact
      table is the projected batch: one row per game, no game dropped or repeated. */
  lemma CorrectedRunOneRowPerGame(silver: seq<SilverGame>, udfs: Udfs, names: CalendarNames, execDate: int)
    requires UrlDeterminesEco(silver) && LabelDeterminesClass(silver, udfs)
    requires forall i, j :: 0 <= i < j < |silver| ==> silver[i].info.game_url != silver[j].info.game_url
    ensures var r := RunGoldLoadsCorrected(GoldTables(None, None, None, None, None), silver, udfs, names, execDate);
      r.facts == Some(ProjectBatch(silver, udfs, execDate)) && DistinctUrls(r.facts.value)
  {
    var dims := GoldDimensions(LoadDimDate(None, silver, names), LoadDimOpenings(None, silver, udfs),
      ResultsSeed(), LoadDimTimeControlDistinct(None, silver, udfs));
    FirstDateLoadUniqueDates(silver, names);
    FirstOpeningsLoadUniqueUrls(silver, udfs);
    CorrectedFirstRunOneRowPerGame(silver, dims, udfs, execDate);
  }
}
