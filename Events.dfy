/**
 * The /add command up to the calendar call: the argument text is split at
 * its first '|' into a title and a date text, the length of the date text
 * picks the strptime format, and add_event turns the start into an event
 * body: an all-day event ending on the next date, or a timed event lasting
 * one hour, in Asia/Bangkok.
 */
module Events {
  import opened Outcomes
  import opened Text
  import opened Calendar
  import opened Strptime

  /** The zone name sent with every timed event. */
  const TimeZoneName := "Asia/Bangkok"

  /** Date texts of at most this many characters are read as "%d/%m/%Y". */
  const DateOnlyMaxLength := 10

  // ---------------------------------------------------------------------------
  // Splitting the argument text

  /** The joined /add arguments: a bare title, or a title and a date text. */
  datatype AddText = NoDate(title: string) | WithDate(title: string, dateText: string)

  /**
   * map(str.strip, text.split("|", 1)): only the first '|' separates, and
   * both sides are stripped; without a '|' the whole text is the title.
   */
  function SplitAddText(text: string): (r: AddText)
    ensures r.NoDate? <==> '|' !in text
    ensures r.NoDate? ==> r.title == text
  {
    if '|' in text then
      var i := FirstIndexOf(text, '|');
      WithDate(Strip(text[..i]), Strip(text[i + 1..]))
    else NoDate(text)
  }

  /** The title and the date text are the stripped sides of the first '|'. */
  lemma SplitAtFirstBar(text: string) returns (i: nat)
    requires '|' in text
    ensures i < |text| && text[i] == '|' && '|' !in text[..i]
    ensures SplitAddText(text).WithDate?
    ensures SplitAddText(text).title == Strip(text[..i]) && SplitAddText(text).dateText == Strip(text[i + 1..])
  {
    i := FirstIndexOf(text, '|');
    var before, after := text[..i], text[i + 1..];
    assert SplitAddText(text) == WithDate(Strip(before), Strip(after));
  }

  /** A '|' after the first one belongs to the date text. */
  lemma LaterBarsStayInDateText(title: string, rest: string)
    requires '|' !in title
    ensures SplitAddText(title + "|" + rest) == WithDate(Strip(title), Strip(rest))
  {
    var text := title + "|" + rest;
    var i := FirstIndexOf(text, '|');
    assert text[|title|] == '|' && text[..|title|] == title;
    assert text[..i] == title && text[i + 1..] == rest;
  }

  // ---------------------------------------------------------------------------
  // Choosing the format

  /** What add hands to add_event: the title, the start and whether the event is all-day. */
  datatype AddRequest = AddRequest(title: string, start: DateTime, allDay: bool)

  /**
   * The branch in add: no '|' means an event starting now; a date text of
   * at most ten characters is parsed as "%d/%m/%Y" for an all-day event,
   * a longer one as "%d/%m/%Y %H:%M" for a timed event.
   */
  function ParseAddRequest(text: string, now: DateTime): (r: Result<AddRequest>)
    requires ValidDateTime(now)
    ensures r.Ok? ==> ValidDateTime(r.value.start)
  {
    match SplitAddText(text)
    case NoDate(title) => Ok(AddRequest(title, now, false))
    case WithDate(title, dateText) =>
      if |dateText| <= DateOnlyMaxLength then
        var d :- ParseDateOnly(dateText);
        Ok(AddRequest(title, Midnight(d), true))
      else
        var t :- ParseDateTime(dateText);
        ParsedDateTimeIsValid(dateText);
        Ok(AddRequest(title, t, false))
  }

  /** Without a '|' the whole text is the title and the event starts now, as a timed event. */
  lemma UndatedRequest(text: string, now: DateTime)
    requires ValidDateTime(now) && '|' !in text
    ensures ParseAddRequest(text, now) == Ok(AddRequest(text, now, false))
  {
  }

  /**
   * A short date text: the request is accepted exactly when the text spells
   * a real date, and is then the all-day event starting at that date's midnight.
   */
  lemma ShortDateRequest(text: string, now: DateTime)
    requires ValidDateTime(now)
    requires SplitAddText(text).WithDate? && |SplitAddText(text).dateText| <= DateOnlyMaxLength
    ensures forall d :: ParseAddRequest(text, now) == Ok(AddRequest(SplitAddText(text).title, Midnight(d), true))
                        <==> SpellsDate(SplitAddText(text).dateText, d)
    ensures ParseAddRequest(text, now).Err? <==> forall d :: !SpellsDate(SplitAddText(text).dateText, d)
  {
    var s := SplitAddText(text).dateText;
    forall d
      ensures ParseAddRequest(text, now) == Ok(AddRequest(SplitAddText(text).title, Midnight(d), true))
              <==> SpellsDate(s, d)
    {
      DateOnlyAccepts(s, d);
    }
    if ParseAddRequest(text, now).Ok? {
      var d := ParseDateOnly(s).value;
      DateOnlyAccepts(s, d);
    }
  }

  /**
   * A longer date text: the request is accepted exactly when the text spells
   * a real date and time of day, and is then the timed event starting then.
   */
  lemma LongDateRequest(text: string, now: DateTime)
    requires ValidDateTime(now)
    requires SplitAddText(text).WithDate? && |SplitAddText(text).dateText| > DateOnlyMaxLength
    ensures forall t :: ParseAddRequest(text, now) == Ok(AddRequest(SplitAddText(text).title, t, false))
                        <==> SpellsDateTime(SplitAddText(text).dateText, t)
    ensures ParseAddRequest(text, now).Err? <==> forall t :: !SpellsDateTime(SplitAddText(text).dateText, t)
  {
    var s := SplitAddText(text).dateText;
    forall t
      ensures ParseAddRequest(text, now) == Ok(AddRequest(SplitAddText(text).title, t, false))
              <==> SpellsDateTime(s, t)
    {
      DateTimeAccepts(s, t);
    }
    if ParseAddRequest(text, now).Ok? {
      var t := ParseDateTime(s).value;
      DateTimeAccepts(s, t);
    }
  }

  // ---------------------------------------------------------------------------
  // The event add_event builds

  /** The time span of an event: whole dates with an exclusive end date, or two instants. */
  datatype EventShape = AllDay(startDate: Date, endDate: Date) | Timed(start: DateTime, end: DateTime)

  predicate ValidShape(shape: EventShape) {
    match shape
    case AllDay(s, e) => ValidDate(s) && ValidDate(e)
    case Timed(s, e) => ValidDateTime(s) && ValidDateTime(e)
  }

  /**
   * The span add_event gives an event: an all-day event ends on the date
   * after its start, a timed one an hour after its start. DateOverflow is
   * the OverflowError of stepping past 9999-12-31.
   */
  function ShapeEvent(start: DateTime, allDay: bool): (r: Result<EventShape>)
    requires ValidDateTime(start)
    ensures r.Err? <==>
      start.date == Date(MaxYear, 12, 31) && (allDay || start.hour == 23)
    ensures r.Err? ==> r.error == DateOverflow
    ensures r.Ok? ==> ValidShape(r.value) && (r.value.AllDay? <==> allDay)
    ensures r.Ok? && allDay ==>
      r.value.startDate == start.date && DayNumber(r.value.endDate) == DayNumber(start.date) + 1
    ensures r.Ok? && !allDay ==>
      r.value.start == start && MinuteNumber(r.value.end) == MinuteNumber(start) + 60
      && r.value.end.second == start.second && r.value.end.microsecond == start.microsecond
  {
    if allDay then
      match NextDay(start.date)
      case None => Err(DateOverflow)
      case Some(e) => Ok(AllDay(start.date, e))
    else
      match AddHour(start)
      case None => Err(DateOverflow)
      case Some(e) => Ok(Timed(start, e))
  }

  /** The half-open span of an all-day event holds its start date and no other date. */
  lemma AllDayCoversOneDate(start: DateTime, d: Date)
    requires ValidDateTime(start) && ValidDate(d) && ShapeEvent(start, true).Ok?
    ensures var shape := ShapeEvent(start, true).value;
            !DateBefore(d, shape.startDate) && DateBefore(d, shape.endDate) <==> d == start.date
  {
    var shape := ShapeEvent(start, true).value;
    DayNumberOrder(d, shape.startDate);
    DayNumberOrder(d, shape.endDate);
  }

  /** A start or end as the calendar API takes it: {"date": ...} or {"dateTime": ..., "timeZone": ...}. */
  datatype WireTime = WireDate(date: string) | WireDateTime(dateTime: string, timeZone: string)

  /** The event body handed to events().insert. */
  datatype WireEvent = WireEvent(summary: string, start: WireTime, end: WireTime)

  /**
   * The body add_event sends: ISO dates for an all-day event, ISO date-times
   * with the Bangkok offset and zone name for a timed one.
   */
  function WireBody(title: string, shape: EventShape): (r: WireEvent)
    requires ValidShape(shape)
    ensures r.summary == title
    ensures shape.AllDay? ==>
      r.start.WireDate? && r.end.WireDate?
      && ParseIsoDate(r.start.date) == Some(shape.startDate) && ParseIsoDate(r.end.date) == Some(shape.endDate)
    ensures shape.Timed? ==>
      r.start.WireDateTime? && r.end.WireDateTime?
      && 25 <= |r.start.dateTime| && 25 <= |r.end.dateTime|
      && r.start.timeZone == TimeZoneName && r.end.timeZone == TimeZoneName
      && r.start.dateTime[..10] == IsoDate(shape.start.date) && r.end.dateTime[..10] == IsoDate(shape.end.date)
      && r.start.dateTime[|r.start.dateTime| - 6..] == BangkokOffset
      && r.end.dateTime[|r.end.dateTime| - 6..] == BangkokOffset
      && ParseIsoDateTime(r.start.dateTime, BangkokOffset) == Some(shape.start)
      && ParseIsoDateTime(r.end.dateTime, BangkokOffset) == Some(shape.end)
  {
    match shape
    case AllDay(s, e) =>
      IsoDateRoundTrip(IsoDate(s), s);
      IsoDateRoundTrip(IsoDate(e), e);
      WireEvent(title, WireDate(IsoDate(s)), WireDate(IsoDate(e)))
    case Timed(s, e) =>
      IsoDateTimeRoundTrip(s, BangkokOffset);
      IsoDateTimeRoundTrip(e, BangkokOffset);
      WireEvent(title, WireDateTime(IsoDateTime(s, BangkokOffset), TimeZoneName),
                       WireDateTime(IsoDateTime(e, BangkokOffset), TimeZoneName))
  }

  /** add_event up to the insert call: the body it sends, or the error it raises first. */
  function AddEvent(req: AddRequest): (r: Result<WireEvent>)
    requires ValidDateTime(req.start)
    ensures r.Ok? ==> r.value.summary == req.title
    ensures r.Err? ==> r.error == DateOverflow
  {
    var shape :- ShapeEvent(req.start, req.allDay);
    Ok(WireBody(req.title, shape))
  }

  /**
   * An all-day event is sent as the ISO form of its start date and of the
   * date after it, each read back by fromisoformat to those dates.
   */
  lemma AllDayBody(req: AddRequest)
    requires ValidDateTime(req.start) && req.allDay && AddEvent(req).Ok?
    ensures AddEvent(req).value.start == WireDate(IsoDate(req.start.date))
    ensures exists e :: ValidDate(e) && NextDay(req.start.date) == Some(e)
                        && AddEvent(req).value.end == WireDate(IsoDate(e))
  {
    var shape := ShapeEvent(req.start, true).value;
    var e := shape.endDate;
    DayNumberOrder(e, NextDay(req.start.date).value);
    assert AddEvent(req).value.end == WireDate(IsoDate(e));
  }
}
