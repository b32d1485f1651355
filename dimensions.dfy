/** The gold-layer dimension tables and the tasks that load them (`load_dim_openings`,
    `load_dim_date`, `load_dim_time_control`, `load_dim_results`). A snapshot argument of
    None means the dimension's blob does not exist yet. */
module Dimensions {
  import opened Wrappers
  import opened Calendar
  import opened Transform
  import opened Relational

  datatype OpeningRow = OpeningRow(
    pgn_eco_url: string, opening_name: string, opening_family: string,
    opening_variation: string, eco_code: string)

  datatype DateRow = DateRow(
    game_date: CalendarDate, year: int, month: int, month_name: string,
    day: int, weekday: string, quarter: int)

  datatype TimeControlRow = TimeControlRow(time_control: string, time_class: string)

  datatype ResultRow = ResultRow(result_code: string, result: string, description: string)

  /** `strftime('%B', d)` and `strftime('%A', d)`: the engine's month and weekday names,
      which this model does not define. */
  datatype CalendarNames = CalendarNames(monthName: CalendarDate -> string, weekdayName: CalendarDate -> string)

  // ----- openings ------------------------------------------------------------------

  function OpeningOf(g: SilverGame, udfs: Udfs): (r: OpeningRow)
    ensures r.pgn_eco_url == g.info.pgn_eco_url && r.eco_code == g.info.pgn_eco
  {
    var name := udfs.extractOpeningName(g.info.pgn_eco_url);
    OpeningRow(g.info.pgn_eco_url, name, udfs.getOpeningFamily(name), udfs.getOpeningVariation(name), g.info.pgn_eco)
  }

  function OpeningCandidates(batch: seq<SilverGame>, udfs: Udfs): seq<OpeningRow> {
    seq(|batch|, i requires 0 <= i < |batch| => OpeningOf(batch[i], udfs))
  }

  /** The candidate opening rows are exactly the rows of the batch's games. */
  lemma OpeningCandidatesMembers(batch: seq<SilverGame>, udfs: Udfs)
    ensures forall x :: x in OpeningCandidates(batch, udfs) <==> exists g :: g in batch && x == OpeningOf(g, udfs)
  {
    var c := OpeningCandidates(batch, udfs);
    forall x | x in c ensures exists g :: g in batch && x == OpeningOf(g, udfs) {
      var i :| 0 <= i < |c| && c[i] == x;
      assert batch[i] in batch;
    }
    forall g | g in batch ensures OpeningOf(g, udfs) in c {
      var i :| 0 <= i < |batch| && batch[i] == g;
      assert c[i] == OpeningOf(g, udfs);
    }
  }

  /** The openings task: without a snapshot, one copy of each game's opening row; with one,
      the stored rows and the rows of openings not yet stored. Never a duplicate row. */
  function LoadDimOpenings(existing: Option<seq<OpeningRow>>, batch: seq<SilverGame>, udfs: Udfs): (r: seq<OpeningRow>)
    ensures NoDup(r)
    ensures existing.Some? ==> forall x :: x in existing.value ==> x in r
    ensures existing.None? ==> forall x :: x in r <==> exists g :: g in batch && x == OpeningOf(g, udfs)
  {
    OpeningCandidatesMembers(batch, udfs);
    match existing
    case Some(cur) =>
      MergeDimension(cur, batch, (g: SilverGame) => OpeningOf(g, udfs), (g: SilverGame) => g.info.pgn_eco_url, (o: OpeningRow) => o.pgn_eco_url)
    case None =>
      Distinct(OpeningCandidates(batch, udfs))
  }

  // ----- dates -----------------------------------------------------------------------

  /** The `CASE` on the month number: months 1-3 are quarter 1, 4-6 quarter 2, 7-9
      quarter 3, and every other value (10-12, and anything else) quarter 4. */
  function Quarter(month: int): (q: int)
    ensures 1 <= q <= 4
    ensures 1 <= month <= 12 ==> 3 * (q - 1) < month <= 3 * q
    ensures !(1 <= month <= 9) ==> q == 4
  {
    if 1 <= month <= 3 then 1
    else if 4 <= month <= 6 then 2
    else if 7 <= month <= 9 then 3
    else 4
  }

  function DateRowOf(d: CalendarDate, names: CalendarNames): (r: DateRow)
    ensures r.game_date == d && r.year == d.year && r.month == d.month && r.day == d.day
    ensures 1 <= r.quarter <= 4 && 3 * (r.quarter - 1) < r.month <= 3 * r.quarter
  {
    DateRow(d, d.year, d.month, names.monthName(d), d.day, names.weekdayName(d), Quarter(d.month))
  }

  predicate DateLe(a: DateRow, b: DateRow) {
    !DateBefore(b.game_date, a.game_date)
  }

  predicate SortedByDate(rows: seq<DateRow>) {
    forall i, j :: 0 <= i < j < |rows| ==> DateLe(rows[i], rows[j])
  }

  lemma DateLeTotal(a: DateRow, b: DateRow)
    ensures DateLe(a, b) || DateLe(b, a)
  {
  }

  lemma SortedCons(a: DateRow, rest: seq<DateRow>)
    requires SortedByDate(rest)
    requires forall y :: y in rest ==> DateLe(a, y)
    ensures SortedByDate([a] + rest)
  {
    var r := [a] + rest;
    forall i, j | 0 <= i < j < |r| ensures DateLe(r[i], r[j]) {
      if i == 0 {
        assert r[j] == rest[j - 1];
      } else {
        assert r[i] == rest[i - 1] && r[j] == rest[j - 1];
      }
    }
  }

  lemma DateLeTrans(a: DateRow, b: DateRow, c: DateRow)
    requires DateLe(a, b) && DateLe(b, c)
    ensures DateLe(a, c)
  {
  }

  lemma SortedTail(rows: seq<DateRow>)
    requires rows != [] && SortedByDate(rows)
    ensures SortedByDate(rows[1..])
  {
    forall i, j | 0 <= i < j < |rows[1..]| ensures DateLe(rows[1..][i], rows[1..][j]) {
      assert rows[1..][i] == rows[i + 1] && rows[1..][j] == rows[j + 1];
    }
  }

  /** The first row of a sorted table is no later than any row. */
  lemma SortedHeadFirst(rows: seq<DateRow>)
    requires rows != [] && SortedByDate(rows)
    ensures forall y :: y in rows ==> DateLe(rows[0], y)
  {
    forall y | y in rows ensures DateLe(rows[0], y) {
      var k :| 0 <= k < |rows| && rows[k] == y;
      if k == 0 { DateLeTotal(y, y); }
    }
  }

  function InsertByDate(x: DateRow, rows: seq<DateRow>): (r: seq<DateRow>)
    requires SortedByDate(rows)
    ensures SortedByDate(r)
    ensures multiset(r) == multiset(rows) + multiset{x}
    ensures forall y :: y in r ==> y == x || y in rows
  {
    if rows == [] then [x]
    else
      assert rows == [rows[0]] + rows[1..];
      SortedHeadFirst(rows);
      if DateLe(x, rows[0]) then
        forall y | y in rows ensures DateLe(x, y) {
          DateLeTrans(x, rows[0], y);
        }
        SortedCons(x, rows);
        [x] + rows
      else
        DateLeTotal(x, rows[0]);
        SortedTail(rows);
        var rest := InsertByDate(x, rows[1..]);
        assert forall y :: y in rest ==> DateLe(rows[0], y) by {
          forall y | y in rest ensures DateLe(rows[0], y) {
            if y != x { assert y in rows; }
          }
        }
        SortedCons(rows[0], rest);
        [rows[0]] + rest
  }

  /** `ORDER BY game_date`: a permutation of the rows in ascending date order. */
  function SortByDate(rows: seq<DateRow>): (r: seq<DateRow>)
    ensures SortedByDate(r)
    ensures multiset(r) == multiset(rows)
  {
    if rows == [] then []
    else
      assert rows == [rows[0]] + rows[1..];
      InsertByDate(rows[0], SortByDate(rows[1..]))
  }

  function DateCandidates(batch: seq<SilverGame>, names: CalendarNames): seq<DateRow> {
    seq(|batch|, i requires 0 <= i < |batch| => DateRowOf(batch[i].info.game_date, names))
  }

  /** The dates task: without a snapshot, one copy of each game date's row, ordered by
      date; with one, the stored rows and the rows of dates not yet stored. Never a
      duplicate row. */
  function LoadDimDate(existing: Option<seq<DateRow>>, batch: seq<SilverGame>, names: CalendarNames): (r: seq<DateRow>)
    ensures NoDup(r)
    ensures existing.Some? ==> forall x :: x in existing.value ==> x in r
    ensures existing.None? ==> SortedByDate(r)
  {
    DistinctKeepsOrder(SortByDate(DateCandidates(batch, names)), DateLe);
    match existing
    case Some(cur) =>
      MergeDimension(cur, batch, (g: SilverGame) => DateRowOf(g.info.game_date, names),
        (g: SilverGame) => g.info.game_date, (r: DateRow) => r.game_date)
    case None =>
      Distinct(SortByDate(DateCandidates(batch, names)))
  }

  // ----- time controls ---------------------------------------------------------------

  function TimeControlOf(g: SilverGame, udfs: Udfs): (r: TimeControlRow)
    ensures r.time_class == g.info.time_class
    ensures r.time_control == udfs.formatTimeControl(g.info.time_control)
  {
    TimeControlRow(udfs.formatTimeControl(g.info.time_control), g.info.time_class)
  }

  function TimeControlCandidates(batch: seq<SilverGame>, udfs: Udfs): seq<TimeControlRow> {
    seq(|batch|, i requires 0 <= i < |batch| => TimeControlOf(batch[i], udfs))
  }

  /** As the task is written: the merge compares the RAW `time_control` of each batch row
      with the FORMATTED labels stored in the snapshot, and the first load has no DISTINCT. */
  function LoadDimTimeControl(existing: Option<seq<TimeControlRow>>, batch: seq<SilverGame>, udfs: Udfs): (r: seq<TimeControlRow>)
    ensures existing.Some? ==> NoDup(r) && forall x :: x in existing.value ==> x in r
    ensures existing.Some? ==> forall x :: x in r <==> (
      || x in existing.value
      || exists g :: g in batch && g.info.time_control !in Column(existing.value, (c: TimeControlRow) => c.time_control)
           && x == TimeControlOf(g, udfs))
    ensures existing.None? ==> |r| == |batch| && forall i :: 0 <= i < |batch| ==> r[i] == TimeControlOf(batch[i], udfs)
  {
    match existing
    case Some(cur) =>
      MergeDimension(cur, batch, (g: SilverGame) => TimeControlOf(g, udfs),
        (g: SilverGame) => g.info.time_control, (r: TimeControlRow) => r.time_control)
    case None =>
      TimeControlCandidates(batch, udfs)
  }

  /** The first load with the DISTINCT the other dimensions' first loads have; the merge
      is unchanged. */
  function LoadDimTimeControlDistinct(existing: Option<seq<TimeControlRow>>, batch: seq<SilverGame>, udfs: Udfs): (r: seq<TimeControlRow>)
    ensures NoDup(r)
    ensures forall x :: x in r <==> x in LoadDimTimeControl(existing, batch, udfs)
    ensures existing.None? ==> forall x :: x in r <==> exists g :: g in batch && x == TimeControlOf(g, udfs)
    ensures existing.Some? ==> r == LoadDimTimeControl(existing, batch, udfs)
  {
    match existing
    case Some(_) => LoadDimTimeControl(existing, batch, udfs)
    case None =>
      var c := TimeControlCandidates(batch, udfs);
      forall x | x in c ensures exists g :: g in batch && x == TimeControlOf(g, udfs) {
        var i :| 0 <= i < |c| && c[i] == x;
        assert batch[i] in batch;
      }
      forall g | g in batch ensures TimeControlOf(g, udfs) in c {
        var i :| 0 <= i < |batch| && batch[i] == g;
        assert c[i] == TimeControlOf(g, udfs);
      }
      Distinct(c)
  }

  /** Within the batch, games whose time controls format to one label share a time class. */
  predicate LabelDeterminesClass(batch: seq<SilverGame>, udfs: Udfs) {
    forall g, h :: g in batch && h in batch && TimeControlOf(g, udfs).time_control == TimeControlOf(h, udfs).time_control ==>
      g.info.time_class == h.info.time_class
  }

  /** When, within a batch, a formatted label always comes with the same time class, the
      corrected first load has one row per label. */
  lemma FirstTimeControlLoadUniqueLabels(batch: seq<SilverGame>, udfs: Udfs)
    requires LabelDeterminesClass(batch, udfs)
    ensures UniqueKeys(LoadDimTimeControlDistinct(None, batch, udfs), (t: TimeControlRow) => t.time_control)
  {
    var r := LoadDimTimeControlDistinct(None, batch, udfs);
    forall i, j | 0 <= i < j < |r| ensures r[i].time_control != r[j].time_control {
      assert r[i] in r && r[j] in r;
      var g :| g in batch && r[i] == TimeControlOf(g, udfs);
      var h :| h in batch && r[j] == TimeControlOf(h, udfs);
      assert r[i] != r[j];
    }
  }

  // ----- results ---------------------------------------------------------------------

  /** The row of the seed table that holds `code` (15 when none does). The seed's codes
      differ already in their length or their first character, so that is all this
      looks at; it serves to show the codes distinct without comparing them pairwise. */
  function SeedPosition(code: string): nat {
    if |code| == 0 then 15
    else if |code| == 3 && code[0] == 'w' then 0
    else if |code| == 10 && code[0] == 'c' then 1
    else if |code| == 6 && code[0] == 'a' then 2
    else if |code| == 10 && code[0] == 'r' then 3
    else if |code| == 7 && code[0] == 't' then 4
    else if |code| == 8 && code[0] == 'r' then 5
    else if |code| == 9 && code[0] == 's' then 6
    else if |code| == 4 && code[0] == 'l' then 7
    else if |code| == 12 && code[0] == 'i' then 8
    else if |code| == 6 && code[0] == '5' then 9
    else if |code| == 9 && code[0] == 'a' then 10
    else if |code| == 13 && code[0] == 'k' then 11
    else if |code| == 10 && code[0] == 't' then 12
    else if |code| == 18 && code[0] == 't' then 13
    else if |code| == 19 && code[0] == 'b' then 14
    else 15
  }

  /** Row `i` of the fixed table of result codes that the results task writes on its
      first run. */
  function SeedRow(i: nat): (r: ResultRow)
    requires i < 15
    ensures SeedPosition(r.result_code) == i
    ensures r.result in {"Win", "Loss", "Draw"}
  {
    if i == 0 then ResultRow("win", "Win", "Win")
    else if i == 1 then ResultRow("checkmated", "Loss", "Checkmated")
    else if i == 2 then ResultRow("agreed", "Draw", "Draw agreed")
    else if i == 3 then ResultRow("repetition", "Draw", "Draw by repetition")
    else if i == 4 then ResultRow("timeout", "Win", "Timeout")
    else if i == 5 then ResultRow("resigned", "Loss", "Resigned")
    else if i == 6 then ResultRow("stalemate", "Draw", "Stalemate")
    else if i == 7 then ResultRow("lose", "Loss", "Lose")
    else if i == 8 then ResultRow("insufficient", "Draw", "Insufficient material")
    else if i == 9 then ResultRow("50move", "Draw", "Draw by 50-move rule")
    else if i == 10 then ResultRow("abandoned", "Draw", "Abandoned")
    else if i == 11 then ResultRow("kingofthehill", "Win", "Opponent king reached the hill")
    else if i == 12 then ResultRow("threecheck", "Win", "Checked for the 3rd time")
    else if i == 13 then ResultRow("timevsinsufficient", "Draw", "Draw by timeout vs insufficient material")
    else ResultRow("bughousepartnerlose", "Loss", "Bughouse partner lost")
  }

  /** The fixed table of result codes: fifteen rows whose codes are pairwise distinct and
      whose outcome is always one of win, loss or draw. */
  function ResultsSeed(): (rows: seq<ResultRow>)
    ensures |rows| == 15
    ensures UniqueKeys(rows, (r: ResultRow) => r.result_code)
    ensures forall i :: 0 <= i < |rows| ==> rows[i].result in {"Win", "Loss", "Draw"}
  {
    seq(15, i requires 0 <= i < 15 => SeedRow(i))
  }

  /** What the results task writes: the seed table when the blob is absent, and nothing
      (None) when it exists, since the upload sits inside the `else`. */
  function LoadDimResults(existing: Option<seq<ResultRow>>): (written: Option<seq<ResultRow>>)
    ensures existing.Some? ==> written.None?
    ensures existing.None? ==> written == Some(ResultsSeed())
  {
    match existing
    case Some(_) => None
    case None => Some(ResultsSeed())
  }

  // ----- properties of the loads ---------------------------------------------------

  /** With a snapshot, the openings load keeps every stored row, adds a row for each opening
      URL not yet stored and none for a stored URL, and holds no duplicate row. */
  lemma OpeningsMerge(cur: seq<OpeningRow>, batch: seq<SilverGame>, udfs: Udfs)
    ensures var r := LoadDimOpenings(Some(cur), batch, udfs);
      && NoDup(r)
      && (forall x :: x in cur ==> x in r)
      && (forall g :: g in batch && g.info.pgn_eco_url !in Column(cur, (o: OpeningRow) => o.pgn_eco_url) ==> OpeningOf(g, udfs) in r)
      && (forall x :: x in r && x.pgn_eco_url in Column(cur, (o: OpeningRow) => o.pgn_eco_url) ==> x in cur)
      && Column(r, (o: OpeningRow) => o.pgn_eco_url)
           == Column(cur, (o: OpeningRow) => o.pgn_eco_url) + (set g | g in batch :: g.info.pgn_eco_url)
  {
    MergeFirstWriteWins(cur, batch, (g: SilverGame) => OpeningOf(g, udfs),
      (g: SilverGame) => g.info.pgn_eco_url, (o: OpeningRow) => o.pgn_eco_url);
  }

  /** The first openings load is the merge into an empty snapshot. */
  lemma OpeningsFirstLoadIsMergeIntoEmpty(batch: seq<SilverGame>, udfs: Udfs)
    ensures LoadDimOpenings(None, batch, udfs) == LoadDimOpenings(Some([]), batch, udfs)
  {
    var f := (g: SilverGame) => OpeningOf(g, udfs);
    var key := (g: SilverGame) => g.info.pgn_eco_url;
    SelectNotInNothingStored(batch, f, key);
    assert Column([], (o: OpeningRow) => o.pgn_eco_url) == {};
    var c := OpeningCandidates(batch, udfs);
    assert SelectNotIn(batch, f, key, {}) == c;
    var d := Distinct(c);
    assert d + [] == d;
  }

  /** Within the batch, games with one opening URL share an ECO code. */
  predicate UrlDeterminesEco(batch: seq<SilverGame>) {
    forall g, h :: g in batch && h in batch && g.info.pgn_eco_url == h.info.pgn_eco_url ==>
      g.info.pgn_eco == h.info.pgn_eco
  }

  /** When, within a batch, an opening URL always comes with the same ECO code, the first
      openings load has one row per URL: the other columns are computed from the URL. */
  lemma FirstOpeningsLoadUniqueUrls(batch: seq<SilverGame>, udfs: Udfs)
    requires UrlDeterminesEco(batch)
    ensures UniqueKeys(LoadDimOpenings(None, batch, udfs), (o: OpeningRow) => o.pgn_eco_url)
  {
    var c := OpeningCandidates(batch, udfs);
    var r := LoadDimOpenings(None, batch, udfs);
    forall i, j | 0 <= i < j < |r| ensures r[i].pgn_eco_url != r[j].pgn_eco_url {
      assert r[i] in c && r[j] in c;
      var a :| 0 <= a < |c| && c[a] == r[i];
      var b :| 0 <= b < |c| && c[b] == r[j];
      assert batch[a] in batch && batch[b] in batch;
      assert r[i] != r[j];
    }
  }

  /** With a snapshot, the date load keeps every stored row, adds the row of each game date
      not yet stored and none for a stored date, and holds no duplicate row. */
  lemma DatesMerge(cur: seq<DateRow>, batch: seq<SilverGame>, names: CalendarNames)
    ensures var r := LoadDimDate(Some(cur), batch, names);
      && NoDup(r)
      && (forall x :: x in cur ==> x in r)
      && (forall g :: g in batch && g.info.game_date !in Column(cur, (d: DateRow) => d.game_date) ==> DateRowOf(g.info.game_date, names) in r)
      && (forall x :: x in r && x.game_date in Column(cur, (d: DateRow) => d.game_date) ==> x in cur)
      && Column(r, (d: DateRow) => d.game_date)
           == Column(cur, (d: DateRow) => d.game_date) + (set g | g in batch :: g.info.game_date)
  {
    MergeFirstWriteWins(cur, batch, (g: SilverGame) => DateRowOf(g.info.game_date, names),
      (g: SilverGame) => g.info.game_date, (d: DateRow) => d.game_date);
  }

  lemma DateBeforeTotal(a: Date, b: Date)
    requires a != b && !DateBefore(b, a)
    ensures DateBefore(a, b)
  {
  }

  /** The candidate date rows are exactly the rows of the batch's game dates. */
  lemma DateCandidatesMembers(batch: seq<SilverGame>, names: CalendarNames)
    ensures forall x :: x in DateCandidates(batch, names) <==> exists g :: g in batch && x == DateRowOf(g.info.game_date, names)
  {
    var c := DateCandidates(batch, names);
    forall x | x in c ensures exists g :: g in batch && x == DateRowOf(g.info.game_date, names) {
      var i :| 0 <= i < |c| && c[i] == x;
      assert batch[i] in batch;
    }
    forall g | g in batch ensures DateRowOf(g.info.game_date, names) in c {
      var i :| 0 <= i < |batch| && batch[i] == g;
      assert c[i] == DateRowOf(g.info.game_date, names);
    }
  }

  /** Sorting keeps the rows. */
  lemma SortByDateMembers(rows: seq<DateRow>)
    ensures forall x :: x in SortByDate(rows) <==> x in rows
  {
    var sorted := SortByDate(rows);
    forall x ensures x in sorted <==> x in rows {
      assert x in sorted <==> x in multiset(sorted);
      assert x in rows <==> x in multiset(rows);
    }
  }

  /** The first date load holds each game date of the batch exactly once, in strictly
      ascending order, with the attributes of that date. */
  lemma DatesFirstLoad(batch: seq<SilverGame>, names: CalendarNames)
    ensures var r := LoadDimDate(None, batch, names);
      && (forall x :: x in r <==> exists g :: g in batch && x == DateRowOf(g.info.game_date, names))
      && (forall i, j :: 0 <= i < j < |r| ==> DateBefore(r[i].game_date, r[j].game_date))
  {
    var c := DateCandidates(batch, names);
    var sorted := SortByDate(c);
    var r := Distinct(sorted);
    DateCandidatesMembers(batch, names);
    SortByDateMembers(c);
    DistinctKeepsOrder(sorted, DateLe);
    forall i, j | 0 <= i < j < |r| ensures DateBefore(r[i].game_date, r[j].game_date) {
      assert DateLe(r[i], r[j]) && r[i] != r[j];
      assert r[i] in c && r[j] in c;
      DateBeforeTotal(r[i].game_date, r[j].game_date);
    }
  }

  /** The first date load has one row per date. */
  lemma FirstDateLoadUniqueDates(batch: seq<SilverGame>, names: CalendarNames)
    ensures UniqueKeys(LoadDimDate(None, batch, names), (d: DateRow) => d.game_date)
  {
    DatesFirstLoad(batch, names);
  }

  /** The time-control filter compares each raw code with the stored formatted labels. When
      no raw code of the batch is a stored label, it filters nothing: every row of the batch
      is offered to the UNION, which then drops the rows already stored. */
  lemma TimeControlFilterComparesRawCodes(cur: seq<TimeControlRow>, batch: seq<SilverGame>, udfs: Udfs)
    requires forall g :: g in batch ==> g.info.time_control !in Column(cur, (r: TimeControlRow) => r.time_control)
    ensures var r := LoadDimTimeControl(Some(cur), batch, udfs);
      && NoDup(r)
      && forall x :: x in r <==> x in cur || exists g :: g in batch && x == TimeControlOf(g, udfs)
  {
  }

  /** Because of that comparison, a label already stored does not keep out a batch row with
      the same label and another time class: the merged snapshot then holds two rows for one
      label, unlike the other dimensions, where the first row written for a key wins. */
  lemma TimeControlLabelCanRepeat(g: SilverGame, udfs: Udfs, otherClass: string)
    requires udfs.formatTimeControl(g.info.time_control) != g.info.time_control
    requires otherClass != g.info.time_class
    ensures var stored := TimeControlRow(udfs.formatTimeControl(g.info.time_control), otherClass);
      var r := LoadDimTimeControl(Some([stored]), [g], udfs);
      stored in r && TimeControlOf(g, udfs) in r && stored != TimeControlOf(g, udfs)
      && stored.time_control == TimeControlOf(g, udfs).time_control
  {
    var stored := TimeControlRow(udfs.formatTimeControl(g.info.time_control), otherClass);
    var labels := Column([stored], (r: TimeControlRow) => r.time_control);
    assert forall x :: x in labels ==> x == stored.time_control;
    assert g.info.time_control !in labels;
  }
}
