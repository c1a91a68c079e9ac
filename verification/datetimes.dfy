/** GraphQL timestamps: the layout `YYYY-MM-DDTHH:MM:SSZ` read into date and
    time fields (the program's `strptime` with `%Y-%m-%dT%H:%M:%SZ`), and the
    fields placed on a time line of whole seconds counted from
    0001-01-01T00:00:00 in the proleptic Gregorian calendar, the calendar of
    Python's `datetime`.  Comparing the seconds is comparing the datetimes. */
module DateTimes {
  import opened Wrappers
  import opened Text

  datatype DateTime = DateTime(year: int, month: int, day: int, hour: int, minute: int, second: int)

  const SecondsPerDay := 86400

  predicate IsLeapYear(y: int) {
    y % 4 == 0 && (y % 100 != 0 || y % 400 == 0)
  }

  function DaysInYear(y: int): int {
    if IsLeapYear(y) then 366 else 365
  }

  function DaysInMonth(y: int, m: int): int
    requires 1 <= m <= 12
  {
    if m == 2 then (if IsLeapYear(y) then 29 else 28)
    else if m == 4 || m == 6 || m == 9 || m == 11 then 30
    else 31
  }

  /** The ranges `datetime` accepts: years 1 to 9999, real calendar days,
      seconds 0 to 59. */
  predicate Valid(dt: DateTime) {
    && 1 <= dt.year <= 9999
    && 1 <= dt.month <= 12
    && 1 <= dt.day <= DaysInMonth(dt.year, dt.month)
    && 0 <= dt.hour < 24
    && 0 <= dt.minute < 60
    && 0 <= dt.second < 60
  }

  // ---------------------------------------------------------------------------
  // the text layout
  // ---------------------------------------------------------------------------

  /** Four-digit year, two-digit fields, literal `-`, `T`, `:` and a final `Z`. */
  predicate HasLayout(s: string) {
    && |s| == 20
    && s[4] == '-' && s[7] == '-' && s[10] == 'T' && s[13] == ':' && s[16] == ':' && s[19] == 'Z'
    && AllDigits(s[0..4]) && AllDigits(s[5..7]) && AllDigits(s[8..10])
    && AllDigits(s[11..13]) && AllDigits(s[14..16]) && AllDigits(s[17..19])
  }

  function Fields(s: string): DateTime
    requires HasLayout(s)
  {
    DateTime(DigitsValue(s[0..4]), DigitsValue(s[5..7]), DigitsValue(s[8..10]),
             DigitsValue(s[11..13]), DigitsValue(s[14..16]), DigitsValue(s[17..19]))
  }

  /** `_parse_datetime`: `None` where `strptime` raises ValueError. */
  function Parse(s: string): (r: Option<DateTime>)
    ensures r.Some? ==> Valid(r.value)
  {
    if HasLayout(s) && Valid(Fields(s)) then Some(Fields(s)) else None
  }

  /** The same layout written out, as `strftime("%Y-%m-%dT%H:%M:%SZ")`. */
  function Format(dt: DateTime): (s: string)
    requires Valid(dt)
  {
    PadDecimal(dt.year, 4) + "-" + PadDecimal(dt.month, 2) + "-" + PadDecimal(dt.day, 2) + "T"
    + PadDecimal(dt.hour, 2) + ":" + PadDecimal(dt.minute, 2) + ":" + PadDecimal(dt.second, 2) + "Z"
  }

  /** Where each field sits in a formatted timestamp. */
  lemma FormatSlices(dt: DateTime)
    requires Valid(dt)
    ensures |Format(dt)| == 20
    ensures Format(dt)[0..4] == PadDecimal(dt.year, 4)
    ensures Format(dt)[5..7] == PadDecimal(dt.month, 2)
    ensures Format(dt)[8..10] == PadDecimal(dt.day, 2)
    ensures Format(dt)[11..13] == PadDecimal(dt.hour, 2)
    ensures Format(dt)[14..16] == PadDecimal(dt.minute, 2)
    ensures Format(dt)[17..19] == PadDecimal(dt.second, 2)
    ensures HasLayout(Format(dt))
  {
    var y := PadDecimal(dt.year, 4);
    var mo := PadDecimal(dt.month, 2);
    var d := PadDecimal(dt.day, 2);
    var h := PadDecimal(dt.hour, 2);
    var mi := PadDecimal(dt.minute, 2);
    var se := PadDecimal(dt.second, 2);
    var f := Format(dt);
    var p1 := y + "-";
    var p2 := p1 + mo + "-";
    var p3 := p2 + d + "T";
    var p4 := p3 + h + ":";
    var p5 := p4 + mi + ":";
    assert f == p5 + se + "Z";
    assert f[0..4] == y by { assert f[0..4] == p1[0..4]; }
    assert f[5..7] == mo by { assert f[5..7] == p2[5..7]; }
    assert f[8..10] == d by { assert f[8..10] == p3[8..10]; }
    assert f[11..13] == h by { assert f[11..13] == p4[11..13]; }
    assert f[14..16] == mi by { assert f[14..16] == p5[14..16]; }
  }

  /** Every valid datetime is read back from its own text. */
  lemma ParseFormat(dt: DateTime)
    requires Valid(dt)
    ensures Parse(Format(dt)) == Some(dt)
  {
    FormatSlices(dt);
    PadDecimalValue(dt.year, 4);
    PadDecimalValue(dt.month, 2);
    PadDecimalValue(dt.day, 2);
    PadDecimalValue(dt.hour, 2);
    PadDecimalValue(dt.minute, 2);
    PadDecimalValue(dt.second, 2);
  }

  /** A text with the layout is its six digit groups joined by the separators. */
  lemma LayoutPieces(s: string)
    requires HasLayout(s)
    ensures s == s[0..4] + "-" + s[5..7] + "-" + s[8..10] + "T" + s[11..13] + ":" + s[14..16] + ":" + s[17..19] + "Z"
  {
    var t := s[0..4] + "-" + s[5..7] + "-" + s[8..10] + "T" + s[11..13] + ":" + s[14..16] + ":" + s[17..19] + "Z";
    assert |t| == 20;
    forall i | 0 <= i < 20 ensures t[i] == s[i] {
      if i < 4 { assert t[i] == s[0..4][i]; }
      else if 5 <= i < 7 { assert t[i] == s[5..7][i - 5]; }
      else if 8 <= i < 10 { assert t[i] == s[8..10][i - 8]; }
      else if 11 <= i < 13 { assert t[i] == s[11..13][i - 11]; }
      else if 14 <= i < 16 { assert t[i] == s[14..16][i - 14]; }
      else if 17 <= i < 19 { assert t[i] == s[17..19][i - 17]; }
    }
  }

  /** Every accepted text is exactly the rendering of what it parses to:
      the layout admits one spelling per datetime. */
  lemma FormatParse(s: string)
    requires Parse(s).Some?
    ensures Format(Parse(s).value) == s
  {
    assert HasLayout(s);
    LayoutPieces(s);
    PadDigitsValue(s[0..4]);
    PadDigitsValue(s[5..7]);
    PadDigitsValue(s[8..10]);
    PadDigitsValue(s[11..13]);
    PadDigitsValue(s[14..16]);
    PadDigitsValue(s[17..19]);
  }

  // ---------------------------------------------------------------------------
  // the time line
  // ---------------------------------------------------------------------------

  function DaysBeforeYear(y: int): nat
    requires y >= 1
    decreases y
  {
    if y == 1 then 0 else DaysBeforeYear(y - 1) + DaysInYear(y - 1)
  }

  /** Days of year `y` before the first of month `m`. */
  function DaysBeforeMonth(y: int, m: int): nat
    requires 1 <= m <= 12
  {
    [0, 31, 59, 90, 120, 151, 181, 212, 243, 273, 304, 334][m - 1]
    + (if m > 2 && IsLeapYear(y) then 1 else 0)
  }

  /** Days from 0001-01-01 to the date of `dt`. */
  function DayNumber(dt: DateTime): nat
    requires Valid(dt)
  {
    DaysBeforeYear(dt.year) + DaysBeforeMonth(dt.year, dt.month) + dt.day - 1
  }

  function SecondOfDay(dt: DateTime): int {
    dt.hour * 3600 + dt.minute * 60 + dt.second
  }

  /** A datetime as seconds on the time line. */
  function ToSeconds(dt: DateTime): (t: int)
    requires Valid(dt)
    ensures t >= 0
  {
    DayNumber(dt) * SecondsPerDay + SecondOfDay(dt)
  }

  /** Chronological order of two datetimes, field by field. */
  predicate Before(a: DateTime, b: DateTime) {
    || a.year < b.year
    || (a.year == b.year && a.month < b.month)
    || (a.year == b.year && a.month == b.month && a.day < b.day)
    || (a.year == b.year && a.month == b.month && a.day == b.day && SecondOfDay(a) < SecondOfDay(b))
  }

  lemma SecondOfDayOrder(a: DateTime, b: DateTime)
    requires Valid(a) && Valid(b)
    ensures 0 <= SecondOfDay(a) < SecondsPerDay
    ensures SecondOfDay(a) == SecondOfDay(b) <==> (a.hour == b.hour && a.minute == b.minute && a.second == b.second)
  {
    if a.hour < b.hour {
      HourDominates(a, b);
    } else if b.hour < a.hour {
      HourDominates(b, a);
    } else if a.minute != b.minute {
      assert SecondOfDay(a) - SecondOfDay(b) == (a.minute - b.minute) * 60 + a.second - b.second;
    }
  }

  /** An earlier hour means an earlier second of the day. */
  lemma HourDominates(a: DateTime, b: DateTime)
    requires Valid(a) && Valid(b) && a.hour < b.hour
    ensures SecondOfDay(a) < SecondOfDay(b)
  {
    assert SecondOfDay(a) <= a.hour * 3600 + 3599;
    assert a.hour * 3600 + 3600 <= b.hour * 3600;
  }

  /** A date's offset inside its year stays inside the year. */
  lemma DayOfYearInside(dt: DateTime)
    requires Valid(dt)
    ensures DaysBeforeMonth(dt.year, dt.month) + dt.day <= DaysInYear(dt.year)
  {
  }

  /** Month by month, offsets inside one year follow the calendar. */
  lemma DayOfYearOrder(y: int, m1: int, d1: int, m2: int, d2: int)
    requires 1 <= m1 <= 12 && 1 <= d1 <= DaysInMonth(y, m1)
    requires 1 <= m2 <= 12 && 1 <= d2 <= DaysInMonth(y, m2)
    ensures (m1 < m2 || (m1 == m2 && d1 < d2)) <==> DaysBeforeMonth(y, m1) + d1 < DaysBeforeMonth(y, m2) + d2
  {
  }

  /** A whole year ends no later than any later year begins. */
  lemma {:induction false} YearsInOrder(y1: int, y2: int)
    requires 1 <= y1 < y2
    ensures DaysBeforeYear(y1) + DaysInYear(y1) <= DaysBeforeYear(y2)
    decreases y2
  {
    if y2 > y1 + 1 {
      YearsInOrder(y1, y2 - 1);
    }
  }

  lemma DayNumberOrder(a: DateTime, b: DateTime)
    requires Valid(a) && Valid(b)
    ensures DayNumber(a) < DayNumber(b) <==>
      (a.year < b.year || (a.year == b.year && (a.month < b.month || (a.month == b.month && a.day < b.day))))
    ensures DayNumber(a) == DayNumber(b) <==> (a.year == b.year && a.month == b.month && a.day == b.day)
  {
    DayOfYearInside(a);
    DayOfYearInside(b);
    if a.year < b.year {
      YearsInOrder(a.year, b.year);
    } else if b.year < a.year {
      YearsInOrder(b.year, a.year);
    } else {
      DayOfYearOrder(a.year, a.month, a.day, b.month, b.day);
      DayOfYearOrder(a.year, b.month, b.day, a.month, a.day);
    }
  }

  /** Seconds order datetimes exactly as the calendar does, so comparing
      `Timestamp`s is comparing the parsed `datetime`s. */
  lemma ToSecondsOrder(a: DateTime, b: DateTime)
    requires Valid(a) && Valid(b)
    ensures Before(a, b) <==> ToSeconds(a) < ToSeconds(b)
    ensures a == b <==> ToSeconds(a) == ToSeconds(b)
  {
    DayNumberOrder(a, b);
    SecondOfDayOrder(a, b);
    SecondOfDayOrder(b, a);
  }
}
