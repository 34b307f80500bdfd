/**
 * Proleptic Gregorian dates and naive date-times with the range and the
 * arithmetic of Python's datetime module: year 1..9999, date + 1 day,
 * datetime + 1 hour, date.isoformat(), datetime.isoformat() for a fixed
 * offset, datetime.fromisoformat() on YYYY-MM-DD text and
 * strftime("%d/%m/%Y").
 *
 * DayNumber (the day's ordinal, 0001-01-01 being day 1) is the reference
 * the successor operations are proved against.
 */
module Calendar {
  import opened Outcomes
  import opened Text

  const MinYear := 1
  const MaxYear := 9999

  datatype Date = Date(year: int, month: int, day: int)

  /** A naive (zone-less) date and wall-clock time, as datetime without tzinfo. */
  datatype DateTime = DateTime(date: Date, hour: int, minute: int, second: int, microsecond: int)

  predicate IsLeapYear(y: int) {
    y % 4 == 0 && (y % 100 != 0 || y % 400 == 0)
  }

  function DaysInYear(y: int): int {
    if IsLeapYear(y) then 366 else 365
  }

  function DaysInMonth(y: int, m: int): (n: int)
    requires 1 <= m <= 12
    ensures 28 <= n <= 31
  {
    if m == 2 then (if IsLeapYear(y) then 29 else 28)
    else if m == 4 || m == 6 || m == 9 || m == 11 then 30
    else 31
  }

  predicate ValidDate(d: Date) {
    MinYear <= d.year <= MaxYear && 1 <= d.month <= 12 && 1 <= d.day <= DaysInMonth(d.year, d.month)
  }

  predicate ValidDateTime(t: DateTime) {
    ValidDate(t.date) && 0 <= t.hour < 24 && 0 <= t.minute < 60
    && 0 <= t.second < 60 && 0 <= t.microsecond < 1000000
  }

  /** Calendar order: year, then month, then day. */
  predicate DateBefore(a: Date, b: Date) {
    a.year < b.year
    || (a.year == b.year && (a.month < b.month || (a.month == b.month && a.day < b.day)))
  }

  function Midnight(d: Date): DateTime {
    DateTime(d, 0, 0, 0, 0)
  }

  // ---------------------------------------------------------------------------
  // Day ordinals

  /** Days in the months of year y that come before month m. */
  function DaysBeforeMonth(y: int, m: int): int
    requires 1 <= m <= 12
  {
    var common :=
      if m == 1 then 0 else if m == 2 then 31 else if m == 3 then 59 else if m == 4 then 90
      else if m == 5 then 120 else if m == 6 then 151 else if m == 7 then 181 else if m == 8 then 212
      else if m == 9 then 243 else if m == 10 then 273 else if m == 11 then 304 else 334;
    common + (if m > 2 && IsLeapYear(y) then 1 else 0)
  }

  /** Days in the years before year y, counting from year 1. */
  function DaysBeforeYear(y: int): nat
    requires y >= MinYear
  {
    if y == MinYear then 0 else DaysBeforeYear(y - 1) + DaysInYear(y - 1)
  }

  /** The ordinal of a date: 0001-01-01 is day 1, and each next day is one more. */
  function DayNumber(d: Date): int
    requires ValidDate(d)
  {
    DaysBeforeYear(d.year) + DaysBeforeMonth(d.year, d.month) + d.day
  }

  /** Minutes since the start of day 0, for comparing wall-clock times. */
  function MinuteNumber(t: DateTime): int
    requires ValidDateTime(t)
  {
    DayNumber(t.date) * 1440 + t.hour * 60 + t.minute
  }

  lemma MonthStep(y: int, m: int)
    requires 1 <= m < 12
    ensures DaysBeforeMonth(y, m + 1) == DaysBeforeMonth(y, m) + DaysInMonth(y, m)
  {
  }

  lemma DecemberEndsYear(y: int)
    ensures DaysBeforeMonth(y, 12) + DaysInMonth(y, 12) == DaysInYear(y)
  {
  }

  lemma {:induction false} MonthsInOrder(y: int, m1: int, m2: int)
    requires 1 <= m1 < m2 <= 12
    ensures DaysBeforeMonth(y, m1) + DaysInMonth(y, m1) <= DaysBeforeMonth(y, m2)
  {
    if m2 == m1 + 1 {
      MonthStep(y, m1);
    } else {
      MonthsInOrder(y, m1, m2 - 1);
      MonthStep(y, m2 - 1);
    }
  }

  lemma MonthFitsInYear(y: int, m: int)
    requires 1 <= m <= 12
    ensures DaysBeforeMonth(y, m) + DaysInMonth(y, m) <= DaysInYear(y)
  {
    DecemberEndsYear(y);
    if m < 12 {
      MonthsInOrder(y, m, 12);
    }
  }

  lemma {:induction false} YearsInOrder(y1: int, y2: int)
    requires MinYear <= y1 < y2
    ensures DaysBeforeYear(y1) + DaysInYear(y1) <= DaysBeforeYear(y2)
  {
    if y2 > y1 + 1 {
      YearsInOrder(y1, y2 - 1);
    }
  }

  /** A valid date's ordinal lies within its own year's block of ordinals. */
  lemma DayNumberInYear(d: Date)
    requires ValidDate(d)
    ensures DaysBeforeYear(d.year) < DayNumber(d) <= DaysBeforeYear(d.year) + DaysInYear(d.year)
  {
    MonthFitsInYear(d.year, d.month);
  }

  /** Ordinals follow calendar order, so DayNumber is a faithful reference for it. */
  lemma DayNumberOrder(a: Date, b: Date)
    requires ValidDate(a) && ValidDate(b)
    ensures DateBefore(a, b) <==> DayNumber(a) < DayNumber(b)
    ensures a == b <==> DayNumber(a) == DayNumber(b)
  {
    DayNumberInYear(a);
    DayNumberInYear(b);
    if a.year < b.year {
      YearsInOrder(a.year, b.year);
    } else if b.year < a.year {
      YearsInOrder(b.year, a.year);
    } else if a.month < b.month {
      MonthsInOrder(a.year, a.month, b.month);
    } else if b.month < a.month {
      MonthsInOrder(a.year, b.month, a.month);
    }
  }

  // ---------------------------------------------------------------------------
  // Successors

  /**
   * date + timedelta(days=1); None is the OverflowError past 9999-12-31.
   * The result is the day whose ordinal is one more.
   */
  function NextDay(d: Date): (r: Option<Date>)
    requires ValidDate(d)
    ensures r.None? <==> d == Date(MaxYear, 12, 31)
    ensures r.Some? ==> ValidDate(r.value) && DayNumber(r.value) == DayNumber(d) + 1
  {
    if d.day < DaysInMonth(d.year, d.month) then Some(Date(d.year, d.month, d.day + 1))
    else if d.month < 12 then
      MonthStep(d.year, d.month);
      Some(Date(d.year, d.month + 1, 1))
    else if d.year < MaxYear then
      DecemberEndsYear(d.year);
      Some(Date(d.year + 1, 1, 1))
    else None
  }

  /** No valid date lies strictly between a date and its successor. */
  lemma NextDayIsImmediate(d: Date, e: Date)
    requires ValidDate(d) && ValidDate(e) && NextDay(d).Some?
    ensures DateBefore(d, e) <==> (e == NextDay(d).value || DateBefore(NextDay(d).value, e))
  {
    var n := NextDay(d).value;
    DayNumberOrder(d, e);
    DayNumberOrder(n, e);
  }

  /**
   * datetime + timedelta(hours=1): the same minute, second and microsecond one
   * hour later, carrying into the next day; None is the OverflowError.
   */
  function AddHour(t: DateTime): (r: Option<DateTime>)
    requires ValidDateTime(t)
    ensures r.None? <==> t.date == Date(MaxYear, 12, 31) && t.hour == 23
    ensures r.Some? ==> ValidDateTime(r.value) && MinuteNumber(r.value) == MinuteNumber(t) + 60
    ensures r.Some? ==> r.value.second == t.second && r.value.microsecond == t.microsecond
  {
    if t.hour < 23 then Some(t.(hour := t.hour + 1))
    else match NextDay(t.date)
      case None => None
      case Some(n) => Some(DateTime(n, 0, t.minute, t.second, t.microsecond))
  }

  // ---------------------------------------------------------------------------
  // Text forms

  /** date.isoformat(): YYYY-MM-DD. */
  function IsoDate(d: Date): (s: string)
    requires ValidDate(d)
    ensures |s| == 10
  {
    Pad4(d.year) + "-" + Pad2(d.month) + "-" + Pad2(d.day)
  }

  /** "%06d" for the microsecond field. */
  function Pad6(v: int): (r: string)
    requires 0 <= v <= 999999
    ensures |r| == 6 && AllDigits(r) && DigitsValue(r) == v
  {
    DigitsValueConcat(Pad2(v / 10000), Pad4(v % 10000));
    assert Pow10(4) == 10000;
    Pad2(v / 10000) + Pad4(v % 10000)
  }

  /** The offset of Asia/Bangkok, taken as fixed. */
  const BangkokOffset := "+07:00"

  /** The offset of timezone.utc. */
  const UtcOffset := "+00:00"

  /**
   * isoformat() of an aware datetime with the given offset:
   * YYYY-MM-DDTHH:MM:SS, a .ffffff part only when there are microseconds, then the offset.
   */
  function IsoDateTime(t: DateTime, offset: string): (s: string)
    requires ValidDateTime(t) && |offset| == 6
    ensures |s| == (if t.microsecond == 0 then 25 else 32)
    ensures s[..10] == IsoDate(t.date) && s[10] == 'T' && s[|s| - 6..] == offset
    ensures s[11..19] == Pad2(t.hour) + ":" + Pad2(t.minute) + ":" + Pad2(t.second)
    ensures t.microsecond != 0 ==> s[19..26] == "." + Pad6(t.microsecond)
  {
    IsoDate(t.date) + "T" + Pad2(t.hour) + ":" + Pad2(t.minute) + ":" + Pad2(t.second)
    + (if t.microsecond == 0 then "" else "." + Pad6(t.microsecond))
    + offset
  }

  /**
   * fromisoformat() on YYYY-MM-DDTHH:MM:SS[.ffffff] followed by the given
   * offset: the naive wall-clock time the text names, else None (ValueError).
   */
  function ParseIsoDateTime(s: string, offset: string): Option<DateTime> {
    if (|s| == 25 || |s| == 32) && s[10] == 'T' && s[13] == ':' && s[16] == ':'
       && AllDigits(s[11..13]) && AllDigits(s[14..16]) && AllDigits(s[17..19])
       && (|s| == 32 ==> s[19] == '.' && AllDigits(s[20..26]))
       && s[|s| - 6..] == offset
    then
      match ParseIsoDate(s[..10])
      case None => None
      case Some(d) =>
        var micro := if |s| == 32 then DigitsValue(s[20..26]) else 0;
        var t := DateTime(d, DigitsValue(s[11..13]), DigitsValue(s[14..16]), DigitsValue(s[17..19]), micro);
        if ValidDateTime(t) then Some(t) else None
    else None
  }

  /** The isoformat() text of an aware datetime carries every field of its wall-clock time. */
  lemma IsoDateTimeRoundTrip(t: DateTime, offset: string)
    requires ValidDateTime(t) && |offset| == 6
    ensures ParseIsoDateTime(IsoDateTime(t, offset), offset) == Some(t)
  {
    var s := IsoDateTime(t, offset);
    IsoDateRoundTrip(s[..10], t.date);
    assert s[11..13] == s[11..19][..2] == Pad2(t.hour);
    assert s[14..16] == s[11..19][3..5] == Pad2(t.minute);
    assert s[17..19] == s[11..19][6..] == Pad2(t.second);
    if t.microsecond != 0 {
      assert s[20..26] == s[19..26][1..] == Pad6(t.microsecond);
    }
  }

  /** fromisoformat() on date text: YYYY-MM-DD naming a real date, else None (ValueError). */
  function ParseIsoDate(s: string): Option<Date> {
    if |s| == 10 && AllDigits(s[..4]) && s[4] == '-' && AllDigits(s[5..7]) && s[7] == '-'
       && AllDigits(s[8..])
    then
      var d := Date(DigitsValue(s[..4]), DigitsValue(s[5..7]), DigitsValue(s[8..]));
      if ValidDate(d) then Some(d) else None
    else None
  }

  /** fromisoformat() accepts exactly the isoformat() texts of valid dates, and inverts isoformat(). */
  lemma IsoDateRoundTrip(s: string, d: Date)
    ensures ParseIsoDate(s) == Some(d) <==> ValidDate(d) && s == IsoDate(d)
  {
    if ValidDate(d) && s == IsoDate(d) {
      assert s[..4] == Pad4(d.year) && s[5..7] == Pad2(d.month) && s[8..] == Pad2(d.day);
    }
    if ParseIsoDate(s) == Some(d) {
      Pad4OfDigits(s[..4]);
      Pad2OfDigits(s[5..7]);
      Pad2OfDigits(s[8..]);
      assert s == s[..4] + "-" + s[5..7] + "-" + s[8..];
    }
  }

  /** strftime("%d/%m/%Y"): zero-padded day, month and four-digit year. */
  function DisplayDate(d: Date): (s: string)
    requires ValidDate(d)
    ensures |s| == 10 && s[2] == '/' && s[5] == '/'
  {
    Pad2(d.day) + "/" + Pad2(d.month) + "/" + Pad4(d.year)
  }
}
