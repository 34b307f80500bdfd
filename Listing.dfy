/**
 * The read side of the calendar: the month a /show argument names, the
 * half-open UTC range get_events asks for, the stable sort of the listed
 * events by their start text, and how show prints each event's start.
 */
module Listing {
  import opened Outcomes
  import opened Text
  import opened Calendar
  import opened Strptime
  import opened Events

  /** An item of the list answer: its id, its summary and its start as sent. */
  datatype RemoteEvent = RemoteEvent(id: string, summary: string, start: WireTime)

  /** The sort key: the start's "dateTime" text when it has one, else its "date" text. */
  function StartKey(e: RemoteEvent): string {
    match e.start
    case WireDateTime(dateTime, _) => dateTime
    case WireDate(date) => date
  }

  // ---------------------------------------------------------------------------
  // The /show argument

  /**
   * month, year = map(int, arg.split("/")): exactly one '/', and int() of
   * each side; anything else is the ValueError.
   */
  function ParseMonthYear(arg: string): (r: Result<(int, int)>)
    ensures r.Err? ==> r.error == InvalidNumber
  {
    if '/' !in arg then Err(InvalidNumber)
    else
      var i := FirstIndexOf(arg, '/');
      var rest := arg[i + 1..];
      if '/' in rest then Err(InvalidNumber)
      else match (ParseInt(arg[..i]), ParseInt(rest))
        case (Some(month), Some(year)) => Ok((month, year))
        case _ => Err(InvalidNumber)
  }

  lemma NoSlashInIntText(n: int)
    ensures '/' !in IntText(n)
  {
    var t := IntText(n);
    if n < 0 {
      assert forall i :: 1 <= i < |t| ==> t[i] == NatText(-n)[i - 1];
    }
  }

  /** Month and year written as str(month) + "/" + str(year) are read back. */
  lemma MonthYearRoundTrip(month: int, year: int)
    ensures ParseMonthYear(IntText(month) + "/" + IntText(year)) == Ok((month, year))
  {
    var a, b := IntText(month), IntText(year);
    var arg := a + "/" + b;
    NoSlashInIntText(month);
    NoSlashInIntText(year);
    assert arg[|a|] == '/' && arg[..|a|] == a;
    var i := FirstIndexOf(arg, '/');
    assert arg[..i] == a && arg[i + 1..] == b;
    IntTextRoundTrip(month);
    IntTextRoundTrip(year);
  }

  // ---------------------------------------------------------------------------
  // The month query range

  /** The timeMin and timeMax of the list request, both at midnight UTC. */
  datatype QueryRange = QueryRange(timeMin: DateTime, timeMax: DateTime)

  /**
   * From the 1st of the month to the 1st of the next month, December
   * rolling over to January of the next year. DateOutOfRange is the
   * ValueError datetime() raises for a month outside 1..12 or a year
   * outside 1..9999, including the January after December 9999.
   */
  function MonthRange(month: int, year: int): (r: Result<QueryRange>)
    ensures r.Ok? <==> 1 <= month <= 12 && MinYear <= year <= MaxYear && !(month == 12 && year == MaxYear)
    ensures r.Err? ==> r.error == DateOutOfRange
    ensures r.Ok? ==>
      ValidDate(Date(year, month, 1)) && r.value.timeMin == Midnight(Date(year, month, 1))
      && ValidDate(r.value.timeMax.date) && r.value.timeMax == Midnight(r.value.timeMax.date)
      && r.value.timeMax.date.day == 1
      && DayNumber(r.value.timeMax.date) == DayNumber(Date(year, month, 1)) + DaysInMonth(year, month)
  {
    if !(1 <= month <= 12 && MinYear <= year <= MaxYear) then Err(DateOutOfRange)
    else if month == 12 then
      if year == MaxYear then Err(DateOutOfRange)
      else
        DecemberEndsYear(year);
        Ok(QueryRange(Midnight(Date(year, month, 1)), Midnight(Date(year + 1, 1, 1))))
    else
      MonthStep(year, month);
      Ok(QueryRange(Midnight(Date(year, month, 1)), Midnight(Date(year, month + 1, 1))))
  }

  /** A date lies in the half-open range exactly when it is in the asked month of the asked year. */
  lemma MonthRangeHoldsMonth(month: int, year: int, d: Date)
    requires MonthRange(month, year).Ok? && ValidDate(d)
    ensures var q := MonthRange(month, year).value;
            DayNumber(q.timeMin.date) <= DayNumber(d) < DayNumber(q.timeMax.date)
            <==> d.year == year && d.month == month
  {
    var q := MonthRange(month, year).value;
    DayNumberOrder(d, q.timeMin.date);
    DayNumberOrder(d, q.timeMax.date);
  }

  // ---------------------------------------------------------------------------
  // Python's string order and the stable sort by start key

  /** a <= b in Python's string order: code point by code point, a prefix first. */
  predicate LexLessEq(a: string, b: string) {
    a == [] || (b != [] && (a[0] < b[0] || (a[0] == b[0] && LexLessEq(a[1..], b[1..]))))
  }

  lemma {:induction false} LexReflexive(a: string)
    ensures LexLessEq(a, a)
  {
    if a != [] {
      LexReflexive(a[1..]);
    }
  }

  lemma {:induction false} LexTotal(a: string, b: string)
    ensures LexLessEq(a, b) || LexLessEq(b, a)
  {
    if a != [] && b != [] && a[0] == b[0] {
      LexTotal(a[1..], b[1..]);
    }
  }

  lemma {:induction false} LexTransitive(a: string, b: string, c: string)
    requires LexLessEq(a, b) && LexLessEq(b, c)
    ensures LexLessEq(a, c)
  {
    if a != [] && b != [] && c != [] && a[0] == b[0] && b[0] == c[0] {
      LexTransitive(a[1..], b[1..], c[1..]);
    }
  }

  lemma {:induction false} LexAntisymmetric(a: string, b: string)
    requires LexLessEq(a, b) && LexLessEq(b, a)
    ensures a == b
  {
    if a != [] && b != [] {
      LexAntisymmetric(a[1..], b[1..]);
      assert a == [a[0]] + a[1..] && b == [b[0]] + b[1..];
    }
  }

  /** Non-decreasing by start key. */
  predicate SortedByKey(s: seq<RemoteEvent>) {
    forall i, j :: 0 <= i < j < |s| ==> LexLessEq(StartKey(s[i]), StartKey(s[j]))
  }

  /** The events of s whose start key is k, in their order in s. */
  function WithKey(s: seq<RemoteEvent>, k: string): seq<RemoteEvent> {
    if s == [] then []
    else (if StartKey(s[0]) == k then [s[0]] else []) + WithKey(s[1..], k)
  }

  /** x placed before the first event of t whose key is not below x's key. */
  function Insert(x: RemoteEvent, t: seq<RemoteEvent>): seq<RemoteEvent> {
    if t == [] || LexLessEq(StartKey(x), StartKey(t[0])) then [x] + t
    else [t[0]] + Insert(x, t[1..])
  }

  /** Insert adds x and loses nothing. */
  lemma {:induction false} InsertPermutes(x: RemoteEvent, t: seq<RemoteEvent>)
    ensures multiset(Insert(x, t)) == multiset(t) + multiset{x}
  {
    if t != [] && !LexLessEq(StartKey(x), StartKey(t[0])) {
      InsertPermutes(x, t[1..]);
      assert t == [t[0]] + t[1..];
    }
  }

  lemma {:induction false} InsertSorted(x: RemoteEvent, t: seq<RemoteEvent>)
    requires SortedByKey(t)
    ensures SortedByKey(Insert(x, t))
  {
    var r := Insert(x, t);
    if t == [] || LexLessEq(StartKey(x), StartKey(t[0])) {
      forall j | 0 < j < |r|
        ensures LexLessEq(StartKey(r[0]), StartKey(r[j]))
      {
        if j > 1 {
          LexTransitive(StartKey(x), StartKey(t[0]), StartKey(t[j - 1]));
        }
      }
    } else {
      var u := Insert(x, t[1..]);
      InsertSorted(x, t[1..]);
      InsertPermutes(x, t[1..]);
      LexTotal(StartKey(x), StartKey(t[0]));
      forall j | 0 <= j < |u|
        ensures LexLessEq(StartKey(t[0]), StartKey(u[j]))
      {
        assert u[j] in multiset(u);
        if u[j] != x {
          assert u[j] in multiset(t[1..]);
          var m :| 0 <= m < |t[1..]| && t[1..][m] == u[j];
          assert t[m + 1] == u[j];
        }
      }
      assert r == [t[0]] + u;
    }
  }

  /**
   * events.sort(key=...): Python's sort is stable, so the result is ordered by
   * key and events with equal keys keep their order. Modelled as an insertion
   * sort that puts each event before the equal keys of the events after it.
   */
  function SortByStartKey(s: seq<RemoteEvent>): (r: seq<RemoteEvent>)
    ensures SortedByKey(r)
    ensures multiset(r) == multiset(s)
  {
    if s == [] then []
    else
      InsertSorted(s[0], SortByStartKey(s[1..]));
      InsertPermutes(s[0], SortByStartKey(s[1..]));
      assert s == [s[0]] + s[1..];
      Insert(s[0], SortByStartKey(s[1..]))
  }

  lemma {:induction false} InsertWithKey(x: RemoteEvent, t: seq<RemoteEvent>, k: string)
    ensures WithKey(Insert(x, t), k) == (if StartKey(x) == k then [x] else []) + WithKey(t, k)
  {
    var b := if StartKey(x) == k then [x] else [];
    if t == [] || LexLessEq(StartKey(x), StartKey(t[0])) {
      assert Insert(x, t) == [x] + t;
      assert ([x] + t)[1..] == t;
      assert WithKey([x] + t, k) == b + WithKey(t, k);
    } else {
      var a := if StartKey(t[0]) == k then [t[0]] else [];
      var u := Insert(x, t[1..]);
      InsertWithKey(x, t[1..], k);
      assert ([t[0]] + u)[1..] == u;
      assert WithKey(Insert(x, t), k) == a + WithKey(u, k);
      assert WithKey(t, k) == a + WithKey(t[1..], k);
      if StartKey(x) == k {
        LexReflexive(StartKey(x));
        assert a == [];
      } else {
        assert b == [];
      }
    }
  }

  /** Stability: for every key, the events with that key keep their relative order. */
  lemma {:induction false} SortIsStable(s: seq<RemoteEvent>, k: string)
    ensures WithKey(SortByStartKey(s), k) == WithKey(s, k)
  {
    if s != [] {
      SortIsStable(s[1..], k);
      InsertWithKey(s[0], SortByStartKey(s[1..]), k);
    }
  }

  // ---------------------------------------------------------------------------
  // What show prints for a start

  /** The start as show prints it: DD/MM/YYYY for a date, or the zoned text as listed. */
  datatype ShownStart = ShownDate(text: string) | ShownZoned(isoText: string)

  /**
   * A key with a 'T' is a date-time, shown after conversion to Bangkok time
   * (kept here as the listed text); any other key must be a date that
   * fromisoformat reads, shown as strftime("%d/%m/%Y"). None is its ValueError.
   */
  function DisplayStart(e: RemoteEvent): (r: Option<ShownStart>)
    ensures 'T' in StartKey(e) <==> r == Some(ShownZoned(StartKey(e)))
    ensures r.None? ==> 'T' !in StartKey(e) && ParseIsoDate(StartKey(e)).None?
    ensures r.Some? && r.value.ShownDate? ==>
      exists d :: ParseIsoDate(StartKey(e)) == Some(d) && ValidDate(d)
                  && r.value.text == DisplayDate(d) && ParseDateOnly(r.value.text) == Ok(d)
  {
    var key := StartKey(e);
    if 'T' in key then Some(ShownZoned(key))
    else match ParseIsoDate(key)
      case None => None
      case Some(d) =>
        IsoDateRoundTrip(key, d);
        DisplayDateParses(d);
        Some(ShownDate(DisplayDate(d)))
  }

  lemma NoTInIsoDate(d: Date)
    requires ValidDate(d)
    ensures 'T' !in IsoDate(d)
  {
    var s := IsoDate(d);
    IsoDateRoundTrip(s, d);
    forall i | 0 <= i < |s|
      ensures s[i] != 'T'
    {
      if i < 4 {
        assert s[..4][i] == s[i];
      } else if 5 <= i < 7 {
        assert s[5..7][i - 5] == s[i];
      } else if 8 <= i {
        assert s[8..][i - 8] == s[i];
      }
    }
  }

  /** An all-day start sent as an ISO date is shown as that date's DD/MM/YYYY. */
  lemma IsoDateShown(d: Date, id: string, summary: string)
    requires ValidDate(d)
    ensures DisplayStart(RemoteEvent(id, summary, WireDate(IsoDate(d)))) == Some(ShownDate(DisplayDate(d)))
  {
    NoTInIsoDate(d);
    IsoDateRoundTrip(IsoDate(d), d);
  }

  /**
   * Round trip through the calendar: a ten-character date text accepted by
   * /add is sent as an ISO date that show prints as the same text.
   */
  lemma AddedDateShownBack(text: string, now: DateTime, id: string)
    requires ValidDateTime(now)
    requires SplitAddText(text).WithDate? && |SplitAddText(text).dateText| == DateOnlyMaxLength
    requires ParseAddRequest(text, now).Ok? && AddEvent(ParseAddRequest(text, now).value).Ok?
    ensures var body := AddEvent(ParseAddRequest(text, now).value).value;
            DisplayStart(RemoteEvent(id, body.summary, body.start)) == Some(ShownDate(SplitAddText(text).dateText))
  {
    var dateText := SplitAddText(text).dateText;
    var i := SplitAtFirstBar(text);
    var _ := StripCutsSpaces(text[i + 1..]);
    var d := ParseDateOnly(dateText).value;
    var req := ParseAddRequest(text, now).value;
    assert req.start == Midnight(d) && req.allDay;
    PaddedDateIsDisplayed(dateText, d);
    AllDayBody(req);
    IsoDateShown(d, id, req.title);
  }
}
