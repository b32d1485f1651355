/** Proleptic Gregorian calendar dates, times of day and the timestamps built from them:
    what the engine's DATE, TIME and TIMESTAMP values and `STRPTIME` are taken to be. */
module Calendar {
  import opened Wrappers
  import opened Text

  datatype Date = Date(year: int, month: int, day: int)

  datatype TimeOfDay = TimeOfDay(hour: int, minute: int, second: int)

  predicate IsLeapYear(y: int) {
    y % 4 == 0 && (y % 100 != 0 || y % 400 == 0)
  }

  function DaysInMonth(y: int, m: int): int {
    if m == 2 then (if IsLeapYear(y) then 29 else 28)
    else if m == 4 || m == 6 || m == 9 || m == 11 then 30
    else 31
  }

  function DaysInYear(y: int): int {
    if IsLeapYear(y) then 366 else 365
  }

  predicate IsValidDate(d: Date) {
    d.year >= 1 && 1 <= d.month <= 12 && 1 <= d.day <= DaysInMonth(d.year, d.month)
  }

  predicate IsValidTime(t: TimeOfDay) {
    0 <= t.hour < 24 && 0 <= t.minute < 60 && 0 <= t.second < 60
  }

  /** A DATE value. */
  type CalendarDate = d: Date | IsValidDate(d) witness Date(1970, 1, 1)

  /** A TIME value (whole seconds). */
  type ClockTime = t: TimeOfDay | IsValidTime(t) witness TimeOfDay(0, 0, 0)

  /** A TIMESTAMP value: a date together with a time of day. */
  datatype DateTime = DateTime(date: CalendarDate, time: ClockTime)

  // ----- day numbers -----------------------------------------------------------

  /** Days in the years before `y`, counted from year 1. */
  function DaysBeforeYear(y: int): int
    requires y >= 1
  {
    if y == 1 then 0 else DaysBeforeYear(y - 1) + DaysInYear(y - 1)
  }

  function DaysBeforeMonth(y: int, m: int): int
    requires 1 <= m <= 12
  {
    var common :=
      if m == 1 then 0 else if m == 2 then 31 else if m == 3 then 59
      else if m == 4 then 90 else if m == 5 then 120 else if m == 6 then 151
      else if m == 7 then 181 else if m == 8 then 212 else if m == 9 then 243
      else if m == 10 then 273 else if m == 11 then 304 else 334;
    common + (if m > 2 && IsLeapYear(y) then 1 else 0)
  }

  /** The number of days from 0001-01-01 to `d`. */
  function DayNumber(d: CalendarDate): int {
    DaysBeforeYear(d.year) + DaysBeforeMonth(d.year, d.month) + d.day - 1
  }

  function SecondsOfDay(t: ClockTime): (s: int)
    ensures 0 <= s < 86400
  {
    t.hour * 3600 + t.minute * 60 + t.second
  }

  /** Seconds from 0001-01-01 00:00:00 to `dt`. */
  function EpochSeconds(dt: DateTime): int {
    DayNumber(dt.date) * 86400 + SecondsOfDay(dt.time)
  }

  /** The calendar day after `d`. */
  function NextDay(d: CalendarDate): (n: CalendarDate)
    ensures DayNumber(n) == DayNumber(d) + 1
  {
    if d.day < DaysInMonth(d.year, d.month) then Date(d.year, d.month, d.day + 1)
    else if d.month < 12 then
      DaysBeforeMonthStep(d.year, d.month);
      Date(d.year, d.month + 1, 1)
    else
      Date(d.year + 1, 1, 1)
  }

  lemma DaysBeforeMonthStep(y: int, m: int)
    requires 1 <= m < 12
    ensures DaysBeforeMonth(y, m + 1) == DaysBeforeMonth(y, m) + DaysInMonth(y, m)
  {
  }

  lemma DayOfYearBound(d: CalendarDate)
    ensures DaysBeforeMonth(d.year, d.month) + d.day <= DaysInYear(d.year)
  {
  }

  lemma {:induction false} DaysBeforeMonthMonotonic(y: int, a: int, b: int)
    requires 1 <= a < b <= 12
    ensures DaysBeforeMonth(y, a) + DaysInMonth(y, a) <= DaysBeforeMonth(y, b)
    decreases b - a
  {
    DaysBeforeMonthStep(y, a);
    if a + 1 < b {
      DaysBeforeMonthMonotonic(y, a + 1, b);
    }
  }

  lemma {:induction false} DaysBeforeYearMonotonic(a: int, b: int)
    requires 1 <= a < b
    ensures DaysBeforeYear(a) + DaysInYear(a) <= DaysBeforeYear(b)
    decreases b - a
  {
    if a + 1 < b {
      DaysBeforeYearMonotonic(a + 1, b);
    }
  }

  /** `a` is an earlier calendar day than `b`. */
  predicate DateBefore(a: Date, b: Date) {
    a.year < b.year
    || (a.year == b.year && a.month < b.month)
    || (a.year == b.year && a.month == b.month && a.day < b.day)
  }

  /** Day numbers count days: an earlier date has a smaller day number. */
  lemma DayNumberMonotonic(a: CalendarDate, b: CalendarDate)
    requires DateBefore(a, b)
    ensures DayNumber(a) < DayNumber(b)
  {
    if a.year < b.year {
      DayOfYearBound(a);
      DaysBeforeYearMonotonic(a.year, b.year);
    } else if a.month < b.month {
      DaysBeforeMonthMonotonic(a.year, a.month, b.month);
    }
  }

  /** `a` is an earlier instant than `b`. */
  predicate Before(a: DateTime, b: DateTime) {
    DateBefore(a.date, b.date)
    || (a.date == b.date && SecondsOfDay(a.time) < SecondsOfDay(b.time))
  }

  lemma EpochSecondsMonotonic(a: DateTime, b: DateTime)
    requires Before(a, b)
    ensures EpochSeconds(a) < EpochSeconds(b)
  {
    if DateBefore(a.date, b.date) {
      DayNumberMonotonic(a.date, b.date);
    }
  }

  // ----- STRPTIME ----------------------------------------------------------------

  /** A non-empty run of decimal digits. */
  predicate IsNumeral(s: string) {
    |s| > 0 && AllDigits(s)
  }

  /** `STRPTIME(s, '%Y/%m/%d')::DATE`: None when `s` is not a valid date in that form. */
  function ParseDate(s: string): (r: Option<CalendarDate>)
    ensures r.Some? ==> IsValidDate(r.value)
  {
    var f := Split(s, '/');
    if |f| == 3 && IsNumeral(f[0]) && IsNumeral(f[1]) && IsNumeral(f[2]) then
      var d := Date(DigitsValue(f[0]), DigitsValue(f[1]), DigitsValue(f[2]));
      if IsValidDate(d) then Some(d) else None
    else None
  }

  /** `STRPTIME(s, '%H:%M:%S')::TIME`: None when `s` is not a valid time in that form. */
  function ParseTime(s: string): (r: Option<ClockTime>)
    ensures r.Some? ==> IsValidTime(r.value)
  {
    var f := Split(s, ':');
    if |f| == 3 && IsNumeral(f[0]) && IsNumeral(f[1]) && IsNumeral(f[2]) then
      var t := TimeOfDay(DigitsValue(f[0]), DigitsValue(f[1]), DigitsValue(f[2]));
      if IsValidTime(t) then Some(t) else None
    else None
  }

  /** A date written the way game notation writes it: `YYYY.MM.DD`. */
  function NotationDate(d: CalendarDate): string {
    NatToString(d.year) + "." + Pad2(d.month) + "." + Pad2(d.day)
  }

  /** A time written `HH:MM:SS`. */
  function NotationTime(t: ClockTime): string {
    Pad2(t.hour) + ":" + Pad2(t.minute) + ":" + Pad2(t.second)
  }

  lemma ThreeParts(a: string, b: string, c: string, sep: char)
    requires sep !in a && sep !in b && sep !in c
    ensures Split(a + [sep] + b + [sep] + c, sep) == [a, b, c]
  {
    assert a + [sep] + b + [sep] + c == a + [sep] + (b + [sep] + c);
    SplitAtFirst(a, sep, b + [sep] + c);
    SplitAtFirst(b, sep, c);
    SplitNoSeparator(c, sep);
  }

  lemma DigitsHaveNo(s: string, c: char)
    requires AllDigits(s) && !IsDigit(c)
    ensures c !in s
  {
  }

  /** Replacing a separator character that occurs only between three parts. */
  lemma ReplaceSeparators(a: string, b: string, c: string, from: char, to: char)
    requires from !in a && from !in b && from !in c
    ensures ReplaceChar(a + [from] + b + [from] + c, from, to) == a + [to] + b + [to] + c
  {
    ReplaceAbsent(a, from, to);
    ReplaceAbsent(b, from, to);
    ReplaceAbsent(c, from, to);
    assert ReplaceChar([from], from, to) == [to];
    ReplaceConcat(a + [from] + b + [from], c, from, to);
    ReplaceConcat(a + [from] + b, [from], from, to);
    ReplaceConcat(a + [from], b, from, to);
    ReplaceConcat(a, [from], from, to);
  }

  /** Three numerals separated by slashes parse to the date they denote, if it is valid. */
  lemma ParseDateParts(a: string, b: string, c: string)
    requires IsNumeral(a) && IsNumeral(b) && IsNumeral(c)
    ensures ParseDate(a + "/" + b + "/" + c)
      == (var d := Date(DigitsValue(a), DigitsValue(b), DigitsValue(c)); if IsValidDate(d) then Some(d) else None)
  {
    DigitsHaveNo(a, '/');
    DigitsHaveNo(b, '/');
    DigitsHaveNo(c, '/');
    ThreeParts(a, b, c, '/');
  }

  /** Reading back a notation date, once its dots are replaced by slashes, gives the date. */
  lemma ParseNotationDate(d: CalendarDate)
    ensures ParseDate(ReplaceChar(NotationDate(d), '.', '/')) == Some(d)
  {
    var y, m, dd := NatToString(d.year), Pad2(d.month), Pad2(d.day);
    DigitsHaveNo(y, '.');
    DigitsHaveNo(m, '.');
    DigitsHaveNo(dd, '.');
    ReplaceSeparators(y, m, dd, '.', '/');
    NatToStringRoundTrip(d.year);
    ParseDateParts(y, m, dd);
  }

  /** Without the replacement a notation date does not parse: it contains no slash. */
  lemma NotationDateNeedsReplace(d: CalendarDate)
    ensures ParseDate(NotationDate(d)) == None
  {
    var y, m, dd := NatToString(d.year), Pad2(d.month), Pad2(d.day);
    DigitsHaveNo(y, '/');
    DigitsHaveNo(m, '/');
    DigitsHaveNo(dd, '/');
    assert '/' !in NotationDate(d);
    SplitNoSeparator(NotationDate(d), '/');
  }

  lemma ParseNotationTime(t: ClockTime)
    ensures ParseTime(NotationTime(t)) == Some(t)
  {
    var h, m, s := Pad2(t.hour), Pad2(t.minute), Pad2(t.second);
    DigitsHaveNo(h, ':');
    DigitsHaveNo(m, ':');
    DigitsHaveNo(s, ':');
    assert NotationTime(t) == h + ":" + m + ":" + s;
    ThreeParts(h, m, s, ':');
  }

  /** Notation dates hold only digits and dots. */
  lemma NotationDateCharacters(d: CalendarDate)
    ensures forall c :: c in NotationDate(d) ==> IsDigit(c) || c == '.'
  {
    assert NotationDate(d) == NatToString(d.year) + "." + Pad2(d.month) + "." + Pad2(d.day);
  }

  /** Notation times hold only digits and colons. */
  lemma NotationTimeCharacters(t: ClockTime)
    ensures forall c :: c in NotationTime(t) ==> IsDigit(c) || c == ':'
  {
    assert NotationTime(t) == Pad2(t.hour) + ":" + Pad2(t.minute) + ":" + Pad2(t.second);
  }
}
