# Chess games ETL: a Dafny model of the transform and gold-layer loads

The pipeline pulls one month of a player's chess.com games and stores the raw JSON in
a *bronze* blob. It then flattens each game into a *silver* Parquet row, pulling the
tags and the moves out of the game's notation (PGN) text. Finally it maintains a
*gold* star schema: four dimension tables (openings, dates, time controls, results)
and one fact table of games seen from the account `Rhythmbear1`.

This project models the domain logic of those steps as functions over sequences of
rows. It proves what the steps promise:

- **Blob names.** Each month gets its own blob, and no silver name equals a bronze name.
- **Tags.** A tag is read leftmost, with the shortest match; a missing tag reads as `''`.
- **Dates and times.** chess.com's date and time notation reads back as the date and time it denotes.
- **Moves.** The move scanner returns exactly the moves of a well-formed move text.
- **Timestamps.** A game's start and end are built from two dates, so a game that crosses midnight gets the right duration.
- **Dimension merges.** They never change or drop a stored row, and they never write a duplicate row. The openings and dates merges add the rows of every key not yet stored and leave the rows of stored keys alone; run again on the same batch, they add nothing. A new key can get more than one row when the batch gives it different attribute values. The time-control merge compares raw codes with stored labels, so a stored label can get a second row.
- **Fact perspective.** The "my"/"opponent" columns come from opposite sides of the board.
- **LEFT JOINs.** They never drop a fact row, and they change nothing when the dimension keys are unique.
- **Fact merge.** When a fact snapshot exists, the merge keeps exactly one row per game URL: a row with the latest `last_updated`. Without a snapshot, the joined batch is written as it is.

Modules, in dependency order:

| file | module | models |
|---|---|---|
| `wrappers.dfy` | `Wrappers` | `Option` |
| `text.dfy` | `Text` | decimal rendering, Python's `:02`, `REPLACE`, splitting |
| `calendar.dfy` | `Calendar` | proleptic Gregorian dates, times of day, timestamps, `STRPTIME` for `%Y/%m/%d` and `%H:%M:%S` |
| `pgn.dfy` | `Pgn` | `REGEXP_EXTRACT(pgn, '\[Key "(.*?)"', 1)` and `REGEXP_EXTRACT_ALL(pgn, '\. (.*?) {\[', 1)` |
| `transform.dfy` | `Transform` | the bronze-to-silver query and the timestamp columns |
| `relational.dfy` | `Relational` | `DISTINCT`, `UNION`, `NOT IN`, `LEFT JOIN`, and a query that fails as a whole |
| `dimensions.dfy` | `Dimensions` | the four dimension loads |
| `facts.dfy` | `Facts` | the fact projection, joins and keep-latest merge |
| `blobnames.dfy` | `BlobNames` | bronze and silver blob names |

The user-defined SQL functions live in a module that is not part of this model. They
are `add_move_numbers`, `extract_opening_name`, `get_opening_family`,
`get_opening_variation`, `format_time_control` and `get_pgn_depth`. The model takes
them as parameters (`Transform.Udfs`) and assumes nothing about them. Likewise,
`strftime('%B')` and `strftime('%A')` are parameters (`Dimensions.CalendarNames`).
The existence of a blob becomes an `Option` snapshot, and the execution date becomes
an integer parameter.

Three behaviours of the code matter for what follows:

- **Unparseable dates and times.** A `STRPTIME` that fails aborts the whole query, so
  `Transform.TransformBatch` fails the whole batch rather than skipping the game.
- **Time-control key.** The merge filter compares each game's *raw* `time_control` code
  with the stored *formatted* labels (`Dimensions.TimeControlFilterComparesRawCodes`,
  `Dimensions.TimeControlLabelCanRepeat`).
- **First time-control load.** The first openings and dates loads select `DISTINCT`
  rows (python_scripts.py lines 276 and 352). The time-control one does not, while the
  fact task's docstring (lines 495-496) promises deduplication that keeps the most recent
  record of each game (see Findings).
  `Facts.RunGoldLoads` is the run as written; `Facts.RunGoldLoadsCorrected` is the same
  run with a `DISTINCT` first time-control load.

## Model

| member | source | states |
|---|---|---|
| BlobNames.BronzeBlobNameInjective | airflow/dags/utils/python_scripts.py:70 | two (year, month) pairs with months 1..12 that give the same bronze blob name are the same pair |
| BlobNames.SilverBlobNameInjective | airflow/dags/utils/python_scripts.py:166 | two (year, month) pairs with months 1..12 that give the same silver blob name are the same pair |
| BlobNames.YearMonthInjective | airflow/dags/utils/python_scripts.py:165-166 | the `{year}-{month:02}` label determines the year and the month |
| BlobNames.SilverIsNotBronze | airflow/dags/utils/python_scripts.py:165-166 | the destination blob of the transform is never a bronze blob |
| BlobNames.JanuaryIsPadded | airflow/dags/utils/python_scripts.py:70 | month 1 of 2024 is written `2024-01` |
| BlobNames.BronzeBlobName | airflow/dags/utils/python_scripts.py:70 | the bronze blob name of a month; its contract is `BlobNames.BronzeBlobNameInjective` and `BlobNames.JanuaryIsPadded` |
| BlobNames.SilverBlobName | airflow/dags/utils/python_scripts.py:166 | the silver blob name of a month; its contract is `BlobNames.SilverBlobNameInjective` and `BlobNames.SilverIsNotBronze` |
| Text.NatToString | airflow/dags/utils/python_scripts.py:70 | the decimal rendering is non-empty, all digits, one digit exactly below 10, and starts with `0` only for zero (no leading zeros) |
| Text.NatToStringRoundTrip | airflow/dags/utils/python_scripts.py:70 | the digits of a rendering denote the number rendered |
| Text.NatToStringInjective | airflow/dags/utils/python_scripts.py:70 | different numbers have different renderings |
| Text.Pad2 | airflow/dags/utils/python_scripts.py:70 | `:02` gives two digits denoting the value for 0..99, and the plain rendering for values of two or more digits and negative values |
| Text.ReplaceChar | airflow/dags/utils/python_scripts.py:181 | `REPLACE` keeps the length and replaces exactly the occurrences of the character |
| Text.Split | airflow/dags/utils/python_scripts.py:181 | splitting yields at least one piece and no piece holds the separator |
| Text.SplitNoSeparator | airflow/dags/utils/python_scripts.py:181 | a text without the separator splits into itself |
| Text.SplitAtFirst | airflow/dags/utils/python_scripts.py:181 | splitting at the first separator yields the head, then the pieces of the rest |
| Calendar.SecondsOfDay | airflow/dags/utils/python_scripts.py:189-190 | a valid time of day is 0..86399 seconds past midnight |
| Calendar.NextDay | airflow/dags/utils/python_scripts.py:539 | the next calendar date has the next day number |
| Calendar.DayNumberMonotonic | airflow/dags/utils/python_scripts.py:539 | a date earlier in the calendar has a smaller day number |
| Calendar.EpochSecondsMonotonic | airflow/dags/utils/python_scripts.py:539 | an earlier timestamp has fewer epoch seconds |
| Calendar.ParseNotationDate | airflow/dags/utils/python_scripts.py:181 | a notation date `YYYY.MM.DD` with dots replaced by slashes parses as `%Y/%m/%d` to that date |
| Calendar.NotationDateNeedsReplace | airflow/dags/utils/python_scripts.py:181 | without the replacement a notation date does not parse |
| Calendar.ParseNotationTime | airflow/dags/utils/python_scripts.py:189-190 | a notation time `HH:MM:SS` parses as `%H:%M:%S` to that time |
| Calendar.NotationDateCharacters | airflow/dags/utils/python_scripts.py:181 | notation dates hold only digits and dots |
| Calendar.NotationTimeCharacters | airflow/dags/utils/python_scripts.py:189-190 | notation times hold only digits and colons |
| Calendar.ParseDate | airflow/dags/utils/python_scripts.py:181-191 | `STRPTIME` with `%Y/%m/%d` on the game and end dates: a parsed date is a valid calendar date; `Calendar.ParseNotationDate` and `Calendar.NotationDateNeedsReplace` state what it does to notation dates |
| Calendar.ParseTime | airflow/dags/utils/python_scripts.py:189-190 | `STRPTIME` with `%H:%M:%S`: a parsed time is a valid time of day; `Calendar.ParseNotationTime` states what it does to notation times |
| Pgn.FindTag | airflow/dags/utils/python_scripts.py:179-191 | the search finds the leftmost `[Key "` from a position whose value closes on its line, and its closing quote |
| Pgn.TagMatch | airflow/dags/utils/python_scripts.py:179-191 | the pattern matches exactly when some `[Key "` is followed by a closing quote on its line; the captured value holds no quote and no line break |
| Pgn.TagMatchIsLeftmost | airflow/dags/utils/python_scripts.py:179-191 | the captured value is the shortest one after the leftmost matching opening |
| Pgn.TagValueRead | airflow/dags/utils/python_scripts.py:179-191 | a well-formed tag `[Key "v"]` with no earlier `[Key "` reads exactly `v` |
| Pgn.AbsentTagIsEmpty | airflow/dags/utils/python_scripts.py:179-191 | a text without `[Key "` extracts the empty string |
| Pgn.ExtractTag | airflow/dags/utils/python_scripts.py:179-191 | `REGEXP_EXTRACT` of one tag; its contract is `Pgn.TagValueRead`, `Pgn.TagMatchIsLeftmost` and `Pgn.AbsentTagIsEmpty` |
| Pgn.FindStop | airflow/dags/utils/python_scripts.py:192-193 | the end of a move is the first ` {[` on the line, if any |
| Pgn.Moves | airflow/dags/utils/python_scripts.py:192-193 | every move the scanner returns is a capture that holds no line break and no ` {[` |
| Pgn.MovesOfRender | airflow/dags/utils/python_scripts.py:192-193 | on a well-formed rendered move text the scanner returns exactly its moves, in order |
| Pgn.PgnRaw | airflow/dags/utils/python_scripts.py:192-193 | the `pgn_raw` column; its contract is `Pgn.MovesOfRender` and `Transform.SilverMovesFromRender` |
| Transform.CombineTimes | airflow/dags/utils/python_scripts.py:198-205 | start is the game date at the start time, end is the end date at the end time, and the other columns are unchanged |
| Transform.SilverRow | airflow/dags/utils/python_scripts.py:169-205 | a game passes exactly when its four date and time tags parse; it then starts at the game date and start time, ends at the end date and end time, and keeps its other columns |
| Transform.TransformBatch | airflow/dags/utils/python_scripts.py:169-205 | the batch passes exactly when every game's dates and times parse, and then holds each game's silver row, in order |
| Transform.DateTagRead | airflow/dags/utils/python_scripts.py:181 | a date tag written `YYYY.MM.DD` reads back as its date |
| Transform.TimeTagRead | airflow/dags/utils/python_scripts.py:189-190 | a time tag written `HH:MM:SS` reads back as its time |
| Transform.ClockRead | airflow/dags/utils/python_scripts.py:181-191 | a text carrying the four date and time tags in chess.com notation yields exactly those two dates and two times |
| Transform.HeaderTimesRead | airflow/dags/utils/python_scripts.py:181-205 | a game whose four date and time tags are in chess.com notation yields a silver row with those timestamps and its URL |
| Transform.SilverMovesFromRender | airflow/dags/utils/python_scripts.py:192-193 | when the game passes, `pgn_raw` is the moves of the text joined by spaces, and `pgn_trans` is the numbering function applied to them |
| Relational.MapAll | airflow/dags/utils/python_scripts.py:169-195 | the query succeeds exactly when every game parses, and then yields one row per game, in order |
| Relational.Distinct | airflow/dags/utils/python_scripts.py:276 | `DISTINCT` has no duplicates and the same rows, and leaves a duplicate-free table as it is |
| Relational.Union | airflow/dags/utils/python_scripts.py:269 | `UNION` holds each row of either side once |
| Relational.DistinctKeepsOrder | airflow/dags/utils/python_scripts.py:364 | removing duplicates keeps an ordered table ordered |
| Relational.SelectNotIn | airflow/dags/utils/python_scripts.py:265-268 | the filter keeps exactly the source rows whose key is not stored |
| Relational.SelectNotInNothingStored | airflow/dags/utils/python_scripts.py:265-268 | with nothing stored the filter keeps every row, in order |
| Relational.MergeDimension | airflow/dags/utils/python_scripts.py:256-273 | the merge has no duplicates, keeps every stored row, admits every unstored candidate, and holds nothing else |
| Relational.MergeIdempotent | airflow/dags/utils/python_scripts.py:256-273 | merging the same batch again adds nothing |
| Relational.MergeFirstWriteWins | airflow/dags/utils/python_scripts.py:256-273 | with matching keys, every row with a stored key is the stored row, and the keys are the stored keys plus the batch keys |
| Relational.LeftJoin | airflow/dags/utils/python_scripts.py:566-573 | `SELECT fact.* ... LEFT JOIN` drops no row and yields no other row |
| Relational.LeftJoinMultiplicity | airflow/dags/utils/python_scripts.py:566-573 | each row comes out exactly as many times as it goes in, times the number of dimension rows matching its key, or once when none matches |
| Relational.UniqueKeysMatchAtMostOnce | airflow/dags/utils/python_scripts.py:566-573 | a dimension with unique keys matches a fact row at most once |
| Relational.LeftJoinUniqueKeys | airflow/dags/utils/python_scripts.py:566-573 | against unique keys the join returns its input unchanged |
| Relational.LeftJoinDoubleMatch | airflow/dags/utils/python_scripts.py:566-573 | two rows against a dimension holding their match twice come out twice each |
| Dimensions.OpeningOf | airflow/dags/utils/python_scripts.py:258-262 | the opening row of a game carries its ECO URL and ECO code |
| Dimensions.OpeningsMerge | airflow/dags/utils/python_scripts.py:256-273 | with a snapshot: no duplicates, stored rows kept, each new opening URL added, stored URLs unchanged, URL set is stored plus batch |
| Dimensions.OpeningsFirstLoadIsMergeIntoEmpty | airflow/dags/utils/python_scripts.py:274-282 | the first openings load equals the merge into an empty snapshot |
| Dimensions.LoadDimOpenings | airflow/dags/utils/python_scripts.py:256-282 | never a duplicate row; a snapshot's rows are kept; a first load holds exactly the batch's opening rows |
| Dimensions.Quarter | airflow/dags/utils/python_scripts.py:334-338 | the quarter is 1..4, the month lies in its three-month span, and a month outside 1..9 is quarter 4 |
| Dimensions.DateRowOf | airflow/dags/utils/python_scripts.py:328-338 | the date row carries the date's year, month, day and quarter |
| Dimensions.InsertByDate | airflow/dags/utils/python_scripts.py:364 | insertion keeps the table sorted by date and adds exactly the new row |
| Dimensions.SortByDate | airflow/dags/utils/python_scripts.py:364 | `ORDER BY game_date` yields a sorted permutation |
| Dimensions.DatesMerge | airflow/dags/utils/python_scripts.py:325-348 | with a snapshot: no duplicates, stored rows kept, each new date added, stored dates unchanged, date set is stored plus batch |
| Dimensions.DatesFirstLoad | airflow/dags/utils/python_scripts.py:350-366 | the first date load holds each batch date's row once, in strictly ascending date order |
| Dimensions.FirstOpeningsLoadUniqueUrls | airflow/dags/utils/python_scripts.py:274-282 | when an opening URL comes with one ECO code, the first openings load has one row per URL |
| Dimensions.FirstDateLoadUniqueDates | airflow/dags/utils/python_scripts.py:350-366 | the first date load has one row per date |
| Dimensions.LoadDimDate | airflow/dags/utils/python_scripts.py:325-366 | never a duplicate row; a snapshot's rows are kept; a first load is ordered by date |
| Dimensions.TimeControlOf | airflow/dags/utils/python_scripts.py:405 | the time-control row carries the formatted label and the game's time class |
| Dimensions.LoadDimTimeControl | airflow/dags/utils/python_scripts.py:402-418 | as written: a merge has no duplicate and holds exactly the snapshot's rows plus the rows of the batch games whose RAW time control is not among the stored formatted labels; a first load holds one row per game, in order, duplicates included |
| Dimensions.TimeControlFilterComparesRawCodes | airflow/dags/utils/python_scripts.py:402-411 | when no raw code equals a stored label, the filter admits every batch row |
| Dimensions.TimeControlLabelCanRepeat | airflow/dags/utils/python_scripts.py:402-411 | a stored label does not keep out a batch row with that label and another class |
| Dimensions.LoadDimTimeControlDistinct | airflow/dags/utils/python_scripts.py:413-418 | the corrected first load has no duplicates and the same rows as written |
| Dimensions.FirstTimeControlLoadUniqueLabels | airflow/dags/utils/python_scripts.py:413-418 | when a label comes with one class, the corrected first load has unique labels |
| Dimensions.ResultsSeed | airflow/dags/utils/python_scripts.py:454-486 | the seed has 15 rows with distinct codes, each a win, a loss or a draw |
| Dimensions.SeedRow | airflow/dags/utils/python_scripts.py:454-486 | each seed row's outcome is a win, a loss or a draw, and its code identifies its row |
| Dimensions.LoadDimResults | airflow/dags/utils/python_scripts.py:450-488 | with a snapshot nothing is written, and without one exactly the seed table is written |
| Facts.ResultsAfter | airflow/dags/utils/python_scripts.py:450-488 | the results snapshot after a run is the stored one, or the seed when none was stored |
| Facts.ProjectFact | airflow/dags/utils/python_scripts.py:533-564 | the account is white exactly when the white user is the account; "mine" is that side and "opponent" the other; the account is "me" when it played; the timestamps, duration, formatted time control, position, opening URL, moves text and move count are carried over; stamped with the execution date |
| Facts.ProjectBatch | airflow/dags/utils/python_scripts.py:533-564 | one projected row per silver row, in order |
| Facts.DurationPositive | airflow/dags/utils/python_scripts.py:539 | a game that ends after it starts has a positive duration |
| Facts.CrossMidnightDuration | airflow/dags/utils/python_scripts.py:198-205 | 23:58:00 to 00:03:00 on the next day is 300 seconds |
| Facts.FactJoin | airflow/dags/utils/python_scripts.py:566-573 | the five joins drop no fact row and yield no other row |
| Facts.FactJoinUniqueKeys | airflow/dags/utils/python_scripts.py:566-573 | with unique dimension keys the joins return the batch unchanged |
| Facts.FactJoinIsTimeControlJoin | airflow/dags/utils/python_scripts.py:566-573 | with unique date, opening and result keys only the time-control join can repeat rows |
| Facts.LatestFor | airflow/dags/utils/python_scripts.py:584-593 | the partition head is a row of that game with no more recent row of that game |
| Facts.KeepLatest | airflow/dags/utils/python_scripts.py:584-597 | one row per game URL, each the latest of its game, and no game lost |
| Facts.LatestEachHeads | airflow/dags/utils/python_scripts.py:584-593 | the partition heads for distinct URLs are latest rows of distinct games, one for each URL |
| Facts.JoinedBatchRows | airflow/dags/utils/python_scripts.py:533-573 | the joined batch holds exactly the projections of the silver rows |
| Facts.SupersededRowDropped | airflow/dags/utils/python_scripts.py:576-598 | a row with a later row of the same game is dropped, and exactly one row of that game remains |
| Facts.NewerRunWins | airflow/dags/utils/python_scripts.py:576-598 | after a run newer than the snapshot: one row per game, batch games carry this run's rows, other games keep their stored rows, no game lost |
| Facts.MergeNewerBatch | airflow/dags/utils/python_scripts.py:576-597 | merging rows stamped later than every stored row: one row per game, a stored row survives only when the batch has no row of its game, no game of either side lost |
| Facts.MergeFacts | airflow/dags/utils/python_scripts.py:576-601 | with a snapshot: one row per game, each the latest of its game among stored and new rows, no game lost; without one: the batch as it is |
| Facts.LoadFactTable | airflow/dags/utils/python_scripts.py:533-601 | without a snapshot the rows are exactly the projections of the silver rows; with one, one row per game, each the latest of its game among the stored and the joined rows, and every stored game and every batch game present |
| Facts.FirstRunUniqueKeys | airflow/dags/utils/python_scripts.py:600-601 | without a snapshot and with unique dimension keys, the fact table is the projected batch |
| Facts.FirstRunDuplicatesGames | airflow/dags/utils/python_scripts.py:413-418 | as written, two games sharing a time control on a first run give two fact rows each |
| Facts.RunGoldLoads | airflow/dags/utils/python_scripts.py:256-601 | the program's run: every snapshot exists afterwards; stored opening, date and time-control rows stay; the results are kept or seeded; with a fact snapshot, one row per game, each the latest of its game among the stored rows and the batch joined against the new dimensions, and no stored or batch game lost |
| Facts.RunGoldLoadsCorrected | airflow/dags/utils/python_scripts.py:413-418 | the run with a `DISTINCT` first time-control load: no duplicate time-control row, the same run as written once a time-control snapshot exists, stored dimension rows, results and facts as for the run as written, stated on their own |
| Facts.FirstGoldRunDuplicatesGames | airflow/dags/utils/python_scripts.py:413-418 | the program's first run over two games differing only in URL writes each game's fact row twice |
| Facts.CorrectedRunOneRowPerGame | airflow/dags/utils/python_scripts.py:495-496 | a first corrected run over games with distinct URLs, consistent openings and consistent time controls writes exactly one fact row per game |
| Facts.CorrectedFirstRunOneRowPerGame | airflow/dags/utils/python_scripts.py:413-418 | with the corrected load, a first run gives one fact row per game |

## Left out

- The HTTP fetch from the games API, the Azure blob reads and writes, the temporary files, the XCom hand-offs, the DuckDB initialisation and the Postgres loads are I/O and are not modelled. Blob existence is an `Option` snapshot.
- The user-defined functions (`add_move_numbers`, `format_time_control`, `get_pgn_depth`, the opening-name helpers) are not part of this model; they are opaque parameters.
- `strftime('%B')` and `strftime('%A')` month and weekday names are parameters, not computed.
- Transform.ExtractGame: its contract is stated through `Transform.HeaderTimesRead`, `Transform.SilverMovesFromRender` and `Relational.MapAll` rather than on the function itself.
- Calendar.ParseDate: `STRPTIME` digit-width limits and leading signs are not modelled; a field parses when it is a non-empty run of digits that forms a valid date with year at least 1.
- Calendar.ParseTime: the same for times; a field parses when it is a non-empty run of digits of any width, so `007:00:00` reads as seven o'clock, which `%H` would refuse.
- Pgn.TagMatch: the regular expression's `.` is taken not to match a line break, as in the engine's default mode; other regular-expression options are not modelled.
- SQL NULLs are not modelled: key columns are taken to be non-null, so `NOT IN` behaves as a plain anti-join.
- Facts.LatestFor: the tie-break among rows with the same latest `last_updated` is open in the source; the model keeps the first in input order and proves only maximality.
- `last_updated` is an integer, not a timestamp. The `::TIMESTAMP` cast of the execution date is not modelled.
- The column dropped after `ROW_NUMBER` (`rn`) never exists in the model.
- Row order of SQL results carries no meaning except for `ORDER BY game_date`; the properties are stated on membership and multiplicity.
- Concurrency between the DAG's tasks is not modelled. Each load reads the snapshots it is given.

## Findings

| source | as written | input that shows it | evidently intended | confidence | as-written member | corrected member |
|---|---|---|---|---|---|---|
| airflow/dags/utils/python_scripts.py:413-418 | the first load of `dim_time_control` selects one row per game, with no `DISTINCT` | a first run (no fact and no time-control snapshot) over two games with different URLs but the same time control and time class: the LEFT JOIN on `time_control` matches each game twice, and the fact table gets four rows, two per URL | a `DISTINCT` first load like the other dimensions' (lines 276 and 352), giving one fact row per game, the deduplication the docstring at lines 495-496 promises; `Facts.RunGoldLoadsCorrected` uses it and `Facts.CorrectedRunOneRowPerGame` proves one row per game | not executed | Facts.FirstGoldRunDuplicatesGames | Dimensions.LoadDimTimeControlDistinct |
