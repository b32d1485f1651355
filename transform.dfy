/** The bronze-to-silver step (`transform_json_to_fact_table`): the query that flattens
    each stored game and pulls fields out of its notation text, followed by the step that
    turns the start and end times of day into timestamps. */
module Transform {
  import opened Wrappers
  import opened Text
  import opened Calendar
  import opened Pgn
  import opened Relational

  /** One side of a game as the games API reports it. */
  datatype Side = Side(rating: int, result: string)

  /** One element of the JSON array stored in the bronze layer (the fields the query reads). */
  datatype RawGame = RawGame(
    url: string, time_control: string, rated: bool, time_class: string, rules: string,
    white: Side, black: Side, pgn: string)

  /** The user-defined functions the queries call. Their module is not part of this model,
      so they are parameters with no assumed behaviour. */
  datatype Udfs = Udfs(
    addMoveNumbers: seq<string> -> string,
    extractOpeningName: string -> string,
    getOpeningFamily: string -> string,
    getOpeningVariation: string -> string,
    formatTimeControl: string -> string,
    getPgnDepth: string -> int)

  /** Every column of a per-batch row except `start_time` and `end_time`. */
  datatype GameInfo = GameInfo(
    game_url: string, time_control: string, rated: bool, time_class: string, rules: string,
    white_rating: int, white_result: string, black_rating: int, black_result: string,
    pgn_event: string, pgn_site: string, game_date: CalendarDate,
    pgn_white_user: string, pgn_black_user: string, pgn_result: string,
    pgn_current_position: string, pgn_timezone: string, pgn_eco: string, pgn_eco_url: string,
    end_game_date: CalendarDate, pgn_raw: string, pgn_trans: string)

  /** A row as the query returns it: start and end are times of day. */
  datatype ExtractedGame = ExtractedGame(info: GameInfo, start_time: ClockTime, end_time: ClockTime)

  /** A row of the silver table: start and end have been replaced by timestamps. */
  datatype SilverGame = SilverGame(info: GameInfo, start_time: DateTime, end_time: DateTime)

  /** `STRPTIME(REPLACE(text, '.', '/'), '%Y/%m/%d')::DATE`. */
  function ParseTagDate(text: string): Option<CalendarDate> {
    ParseDate(ReplaceChar(text, '.', '/'))
  }

  /** The four date and time columns of one game: game date, end date, start time, end
      time; None when one of them cannot be parsed. */
  function Clock(pgn: string): Option<(CalendarDate, CalendarDate, ClockTime, ClockTime)> {
    var date := ParseTagDate(ExtractTag(pgn, "Date"));
    var endDate := ParseTagDate(ExtractTag(pgn, "EndDate"));
    var start := ParseTime(ExtractTag(pgn, "StartTime"));
    var end := ParseTime(ExtractTag(pgn, "EndTime"));
    if date.None? || endDate.None? || start.None? || end.None? then None
    else Some((date.value, endDate.value, start.value, end.value))
  }

  /** The string columns of one game, given its two dates. */
  function InfoOf(g: RawGame, udfs: Udfs, date: CalendarDate, endDate: CalendarDate): GameInfo {
    var moves := Moves(g.pgn);
    GameInfo(
      g.url, g.time_control, g.rated, g.time_class, g.rules,
      g.white.rating, g.white.result, g.black.rating, g.black.result,
      ExtractTag(g.pgn, "Event"), ExtractTag(g.pgn, "Site"), date,
      ExtractTag(g.pgn, "White"), ExtractTag(g.pgn, "Black"), ExtractTag(g.pgn, "Result"),
      ExtractTag(g.pgn, "CurrentPosition"), ExtractTag(g.pgn, "Timezone"),
      ExtractTag(g.pgn, "ECO"), ExtractTag(g.pgn, "ECOUrl"),
      endDate, PgnRaw(g.pgn), udfs.addMoveNumbers(moves))
  }

  /** The query applied to one game. It fails (None) exactly when one of the four date
      and time columns cannot be parsed; the string tags never fail. */
  function ExtractGame(g: RawGame, udfs: Udfs): Option<ExtractedGame> {
    match Clock(g.pgn)
    case None => None
    case Some((date, endDate, start, end)) => Some(ExtractedGame(InfoOf(g, udfs, date, endDate), start, end))
  }

  /** The column reassignment after the query: start is the game date at the start time,
      end is the end date at the end time. Only those two columns change. */
  function CombineTimes(e: ExtractedGame): (s: SilverGame)
    ensures s.info == e.info
    ensures s.start_time.date == e.info.game_date && s.start_time.time == e.start_time
    ensures s.end_time.date == e.info.end_game_date && s.end_time.time == e.end_time
  {
    SilverGame(e.info, DateTime(e.info.game_date, e.start_time), DateTime(e.info.end_game_date, e.end_time))
  }

  /** Both steps on one game: it passes exactly when its four date and time columns parse,
      and then it starts at the game date and start time, ends at the end date and end
      time, and keeps the game's other columns. */
  function SilverRow(g: RawGame, udfs: Udfs): (r: Option<SilverGame>)
    ensures r.Some? <==> Clock(g.pgn).Some?
    ensures r.Some? ==> var c := Clock(g.pgn).value;
      && r.value.start_time == DateTime(c.0, c.2) && r.value.end_time == DateTime(c.1, c.3)
      && r.value.info == InfoOf(g, udfs, c.0, c.1)
  {
    match ExtractGame(g, udfs)
    case Some(e) => Some(CombineTimes(e))
    case None => None
  }

  /** The whole step on one batch: one silver row per stored game, in order, or a failure
      of the batch when any game's dates or times do not parse (see `Relational.MapAll`). */
  function TransformBatch(raws: seq<RawGame>, udfs: Udfs): (r: Option<seq<SilverGame>>)
    ensures r.Some? <==> forall i :: 0 <= i < |raws| ==> Clock(raws[i].pgn).Some?
    ensures r.Some? ==> |r.value| == |raws| && forall i :: 0 <= i < |raws| ==> Some(r.value[i]) == SilverRow(raws[i], udfs)
  {
    MapAll(raws, g => SilverRow(g, udfs))
  }

  /** `blob` holds the tag `[key "v"]` at `i`, and no earlier `[key "`. */
  predicate FirstTagAt(blob: string, key: string, v: string, i: int) {
    OccursAt(blob, i, TagOpening(key) + v + "\"")
      && forall j :: 0 <= j < i ==> !OccursAt(blob, j, TagOpening(key))
  }

  /** A date tag in notation form reads back as its date. */
  lemma DateTagRead(blob: string, key: string, d: CalendarDate, i: int)
    requires FirstTagAt(blob, key, NotationDate(d), i)
    ensures ParseTagDate(ExtractTag(blob, key)) == Some(d)
  {
    NotationDateCharacters(d);
    TagValueRead(blob, key, i, NotationDate(d));
    ParseNotationDate(d);
  }

  /** A time tag in notation form reads back as its time. */
  lemma TimeTagRead(blob: string, key: string, t: ClockTime, i: int)
    requires FirstTagAt(blob, key, NotationTime(t), i)
    ensures ParseTime(ExtractTag(blob, key)) == Some(t)
  {
    NotationTimeCharacters(t);
    TagValueRead(blob, key, i, NotationTime(t));
    ParseNotationTime(t);
  }

  /** A game whose notation text carries the four date and time tags as chess.com writes
      them (`YYYY.MM.DD` and `HH:MM:SS`) passes the step, and its silver row starts at
      the game date and start time and ends at the end date and end time. */
  lemma HeaderTimesRead(g: RawGame, udfs: Udfs, d: CalendarDate, ed: CalendarDate, st: ClockTime, et: ClockTime,
                        i1: int, i2: int, i3: int, i4: int)
    requires FirstTagAt(g.pgn, "Date", NotationDate(d), i1)
    requires FirstTagAt(g.pgn, "EndDate", NotationDate(ed), i2)
    requires FirstTagAt(g.pgn, "StartTime", NotationTime(st), i3)
    requires FirstTagAt(g.pgn, "EndTime", NotationTime(et), i4)
    ensures SilverRow(g, udfs).Some?
    ensures SilverRow(g, udfs).value.start_time == DateTime(d, st)
    ensures SilverRow(g, udfs).value.end_time == DateTime(ed, et)
    ensures SilverRow(g, udfs).value.info.game_url == g.url
  {
    ClockRead(g.pgn, d, ed, st, et, i1, i2, i3, i4);
  }

  lemma ClockRead(pgn: string, d: CalendarDate, ed: CalendarDate, st: ClockTime, et: ClockTime,
                  i1: int, i2: int, i3: int, i4: int)
    requires FirstTagAt(pgn, "Date", NotationDate(d), i1)
    requires FirstTagAt(pgn, "EndDate", NotationDate(ed), i2)
    requires FirstTagAt(pgn, "StartTime", NotationTime(st), i3)
    requires FirstTagAt(pgn, "EndTime", NotationTime(et), i4)
    ensures Clock(pgn) == Some((d, ed, st, et))
  {
    DateTagRead(pgn, "Date", d, i1);
    DateTagRead(pgn, "EndDate", ed, i2);
    TimeTagRead(pgn, "StartTime", st, i3);
    TimeTagRead(pgn, "EndTime", et, i4);
  }

  /** For a game whose notation text is a well-formed rendered move text, the two move
      columns of its silver row hold exactly the moves of that text: joined by spaces, and
      handed to the move-numbering function. */
  lemma SilverMovesFromRender(g: RawGame, udfs: Udfs, es: seq<MoveEntry>, tail: string)
    requires g.pgn == Render(es, tail) && WellFormed(es) && NoMoveMark(tail)
    ensures SilverRow(g, udfs).Some? ==> SilverRow(g, udfs).value.info.pgn_raw == Join(MovesOf(es), " ")
    ensures SilverRow(g, udfs).Some? ==> SilverRow(g, udfs).value.info.pgn_trans == udfs.addMoveNumbers(MovesOf(es))
  {
    MovesOfRender(es, tail);
  }
}
