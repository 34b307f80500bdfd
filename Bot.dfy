/**
 * The /add, /show and /delete command handlers over the process-wide list
 * of the last shown events. The remote calendar is seen only through the
 * calls the handlers issue, kept in a ghost log; what the list call answers
 * is a parameter of /show.
 */
module Bot {
  import opened Outcomes
  import opened Text
  import opened Calendar
  import opened Events
  import opened Listing

  /** A call to the remote calendar: insert a body, list a time range, delete an id. */
  datatype RemoteCall =
    | InsertCall(body: WireEvent)
    | ListCall(timeMin: string, timeMax: string)
    | DeleteCall(eventId: string)

  datatype AddReply = AddUsage | Added(title: string) | AddFailed(error: BotError)

  /** One printed line of /show: its 1-based number, the start and the summary. */
  datatype ShownLine = ShownLine(number: int, start: ShownStart, summary: string)

  datatype ShowReply =
    | ShowUsage
    | ShowFailed(error: BotError)
    | NoEvents
    | MonthListing(month: int, year: int, lines: seq<ShownLine>)

  datatype DeleteReply = DeleteUsage | DeleteFailed(error: BotError) | Deleted(summary: string)

  /** The list call get_events issues for a range: its bounds as UTC isoformat() text. */
  function ListCallFor(q: QueryRange): RemoteCall
    requires ValidDateTime(q.timeMin) && ValidDateTime(q.timeMax)
  {
    ListCall(IsoDateTime(q.timeMin, UtcOffset), IsoDateTime(q.timeMax, UtcOffset))
  }

  class CalendarBot {
    /** LAST_EVENT_LIST: the events of the last listing, line k of it being lastEventList[k - 1]. */
    var lastEventList: seq<RemoteEvent>
    /** The calls issued to the remote calendar so far, oldest first. */
    ghost var remoteLog: seq<RemoteCall>

    constructor ()
      ensures lastEventList == [] && remoteLog == []
    {
      lastEventList := [];
      remoteLog := [];
    }

    /**
     * /add: an event is inserted exactly when the text parses and the event's
     * end can be computed; otherwise nothing is sent and the error is replied.
     */
    method Add(args: seq<string>, now: DateTime) returns (reply: AddReply)
      requires ValidDateTime(now)
      modifies this`remoteLog
      ensures args == [] ==> reply == AddUsage && remoteLog == old(remoteLog)
      ensures args != [] && ParseAddRequest(JoinWithSpaces(args), now).Err? ==>
        reply == AddFailed(ParseAddRequest(JoinWithSpaces(args), now).error) && remoteLog == old(remoteLog)
      ensures args != [] && ParseAddRequest(JoinWithSpaces(args), now).Ok? ==>
        var req := ParseAddRequest(JoinWithSpaces(args), now).value;
        (AddEvent(req).Err? ==> reply == AddFailed(DateOverflow) && remoteLog == old(remoteLog))
        && (AddEvent(req).Ok? ==>
              reply == Added(req.title) && remoteLog == old(remoteLog) + [InsertCall(AddEvent(req).value)])
      ensures reply.Added? <==> remoteLog != old(remoteLog)
    {
      if args == [] {
        return AddUsage;
      }
      var text := JoinWithSpaces(args);
      var req := ParseAddRequest(text, now);
      if req.Err? {
        return AddFailed(req.error);
      }
      var body := AddEvent(req.value);
      if body.Err? {
        return AddFailed(body.error);
      }
      remoteLog := remoteLog + [InsertCall(body.value)];
      reply := Added(req.value.title);
    }

    /**
     * /show MM/YYYY: the sorted answer of the list call replaces the cache
     * wholesale (an empty answer empties it), and each event is printed
     * with its 1-based position. A start that cannot be displayed aborts
     * the listing after the cache has been replaced.
     */
    method Show(args: seq<string>, fetched: seq<RemoteEvent>) returns (reply: ShowReply)
      modifies this
      ensures args == [] ==> reply == ShowUsage && unchanged(this)
      ensures args != [] && ParseMonthYear(args[0]).Err? ==>
        reply == ShowFailed(InvalidNumber) && unchanged(this)
      ensures args != [] && ParseMonthYear(args[0]).Ok? ==>
        var (month, year) := ParseMonthYear(args[0]).value;
        (MonthRange(month, year).Err? ==> reply == ShowFailed(DateOutOfRange) && unchanged(this))
        && (MonthRange(month, year).Ok? ==>
              remoteLog == old(remoteLog) + [ListCallFor(MonthRange(month, year).value)]
              && lastEventList == SortByStartKey(fetched)
              && (fetched == [] ==> reply == NoEvents)
              && (fetched != [] ==> reply.MonthListing? || reply == ShowFailed(BadStoredDate))
              && (reply.MonthListing? ==> reply.month == month && reply.year == year))
      ensures reply.MonthListing? ==>
        |reply.lines| == |lastEventList|
        && forall j :: 0 <= j < |reply.lines| ==>
             DisplayStart(lastEventList[j]).Some?
             && reply.lines[j] == ShownLine(j + 1, DisplayStart(lastEventList[j]).value, lastEventList[j].summary)
      ensures reply == ShowFailed(BadStoredDate) ==>
        exists j :: 0 <= j < |lastEventList| && DisplayStart(lastEventList[j]).None?
    {
      if args == [] {
        return ShowUsage;
      }
      var parsed := ParseMonthYear(args[0]);
      if parsed.Err? {
        return ShowFailed(parsed.error);
      }
      var (month, year) := parsed.value;
      var range := MonthRange(month, year);
      if range.Err? {
        return ShowFailed(range.error);
      }
      remoteLog := remoteLog + [ListCallFor(range.value)];
      var events := SortByStartKey(fetched);
      assert |events| == |multiset(events)| == |multiset(fetched)| == |fetched|;
      if events == [] {
        lastEventList := [];
        return NoEvents;
      }
      lastEventList := events;
      var lines: seq<ShownLine> := [];
      for i := 0 to |events|
        invariant |lines| == i
        invariant forall j :: 0 <= j < i ==>
          DisplayStart(events[j]).Some? && lines[j] == ShownLine(j + 1, DisplayStart(events[j]).value, events[j].summary)
      {
        var shown := DisplayStart(events[i]);
        if shown.None? {
          return ShowFailed(BadStoredDate);
        }
        lines := lines + [ShownLine(i + 1, shown.value, events[i].summary)];
      }
      reply := MonthListing(month, year, lines);
    }

    /**
     * /delete N: N - 1 is checked against the cache; inside it exactly one
     * delete is issued, for the event at that position. The cache itself
     * is left as it was.
     */
    method Delete(args: seq<string>) returns (reply: DeleteReply)
      modifies this`remoteLog
      ensures lastEventList == old(lastEventList)
      ensures args == [] ==> reply == DeleteUsage && remoteLog == old(remoteLog)
      ensures args != [] && ParseInt(args[0]).None? ==>
        reply == DeleteFailed(InvalidNumber) && remoteLog == old(remoteLog)
      ensures args != [] && ParseInt(args[0]).Some? ==>
        var n := ParseInt(args[0]).value;
        (1 <= n <= |lastEventList| ==>
           reply == Deleted(lastEventList[n - 1].summary)
           && remoteLog == old(remoteLog) + [DeleteCall(lastEventList[n - 1].id)])
        && (!(1 <= n <= |lastEventList|) ==> reply == DeleteFailed(NotFound) && remoteLog == old(remoteLog))
    {
      if args == [] {
        return DeleteUsage;
      }
      var n := ParseInt(args[0]);
      if n.None? {
        return DeleteFailed(InvalidNumber);
      }
      var idx := n.value - 1;
      if idx < 0 || idx >= |lastEventList| {
        return DeleteFailed(NotFound);
      }
      var event := lastEventList[idx];
      remoteLog := remoteLog + [DeleteCall(event.id)];
      reply := Deleted(event.summary);
    }
  }

  /**
   * /delete k twice: the cache is not updated by a delete, so both calls
   * delete the id at position k of the cache. The second reply repeats the
   * first only because remote calls are taken to succeed: the calendar
   * service refuses a delete of an id it has already deleted, and delete has
   * no try, so then the second /delete k would get no reply.
   */
  method DeleteTwice(bot: CalendarBot, number: string, k: int) returns (first: DeleteReply, second: DeleteReply)
    requires ParseInt(number) == Some(k) && 1 <= k <= |bot.lastEventList|
    modifies bot`remoteLog
    ensures bot.lastEventList == old(bot.lastEventList)
    ensures first == Deleted(bot.lastEventList[k - 1].summary) && second == first
    ensures bot.remoteLog == old(bot.remoteLog) + [DeleteCall(bot.lastEventList[k - 1].id), DeleteCall(bot.lastEventList[k - 1].id)]
  {
    first := bot.Delete([number]);
    second := bot.Delete([number]);
  }

  /**
   * /show followed by /delete with a number k: the event deleted is the one
   * printed on line k, and deleting k again targets that same event, since
   * the cache is not updated by a delete. As in DeleteTwice, the second
   * reply takes the repeated remote delete to succeed.
   */
  method DeleteShownLineTwice(bot: CalendarBot, showArgs: seq<string>, fetched: seq<RemoteEvent>, number: string, k: int)
    returns (shown: ShowReply, first: DeleteReply, second: DeleteReply)
    requires ParseInt(number) == Some(k) && 1 <= k
    modifies bot
    ensures shown.MonthListing? ==> |shown.lines| == |bot.lastEventList|
    ensures shown.MonthListing? && k <= |shown.lines| ==>
      |bot.remoteLog| >= 2
      && var e := bot.lastEventList[k - 1];
         first == Deleted(shown.lines[k - 1].summary) && second == first
         && shown.lines[k - 1].number == k
         && bot.remoteLog[|bot.remoteLog| - 2] == DeleteCall(e.id)
         && bot.remoteLog[|bot.remoteLog| - 1] == DeleteCall(e.id)
  {
    shown := bot.Show(showArgs, fetched);
    if shown.MonthListing? && k <= |shown.lines| {
      first, second := DeleteTwice(bot, number, k);
    } else {
      first := bot.Delete([number]);
      second := bot.Delete([number]);
    }
  }
}
