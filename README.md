# Calendar bot: command handling and the last-shown-list cache

This project models the core of a Telegram bot (`bot.py`) that manages events on
a Google Calendar through three commands:

- `/add title`, `/add title | dd/mm/yyyy` and `/add title | dd/mm/yyyy HH:MM`.
  - The joined arguments are split at the first `|` and both sides are stripped.
  - The length of the date text picks the `strptime` format.
  - `add_event` builds the event body. An all-day event ends on the next date. A timed event lasts one hour, in Asia/Bangkok.
- `/show MM/YYYY`.
  - Lists the month as a half-open UTC range: December rolls to January of the next year.
  - Sorts the answer stably by its `dateTime`-or-`date` text.
  - Replaces the process-wide `LAST_EVENT_LIST` with it, and prints each event with its 1-based number.
- `/delete N` deletes the event on line N of the last listing.

The model is written in Dafny and falls into these modules:

- `Outcomes`: `Option`/`Result` and the error kinds.
- `Text`: Python's `str.strip`, `" ".join`, `split("|", 1)`, and `int()` with its sign and underscore rules. `int()` skips the surrounding `isspace()` characters except the separator controls U+001C..U+001F.
- `Calendar`: proleptic Gregorian dates with `datetime`'s year range 1..9999.
  - Covers `+ timedelta(days=1)`, `+ timedelta(hours=1)`, `isoformat()`, `datetime.fromisoformat()` on `YYYY-MM-DD`, and `strftime("%d/%m/%Y")`.
  - The day ordinal `DayNumber` is the reference the successor operations are proved against.
- `Strptime`: a recogniser for the two patterns, built from the regular expressions CPython's `_strptime` generates for `%d`, `%m`, `%Y`, `%H`, `%M` and a space (`\s+`).
- `Events`: the `/add` split and branch, the event span, and the body sent to the insert call.
- `Listing`: the `/show` argument, the month range, the stable sort, and how a start is printed.
- `Bot`: class `CalendarBot`.
  - Its field `lastEventList` is `LAST_EVENT_LIST`.
  - Its ghost field `remoteLog` records every insert, list and delete call the handlers issue.
  - Its methods `Add`, `Show` and `Delete` are the three command handlers.

`datetime.now()` and the list call's answer are method parameters.

The replies are abstract. `AddFailed` is the `❌ Error: …` message of `/add`'s `except`. `ShowFailed` and
`DeleteFailed(InvalidNumber)` stand for the exception escaping the handler: `show` and `delete` have no
`try`, so no reply is sent. `DeleteFailed(NotFound)` is the "number not found" reply.

`delete` (bot.py:204-218) only issues the remote call and leaves `LAST_EVENT_LIST` as it was, so the
numbering stays that of the last `/show`: `Delete` leaves `lastEventList` unchanged, and `DeleteTwice`
shows that a repeated `/delete k` targets the same event. Only `add` catches exceptions (bot.py:154-170);
in `show` and `delete`, the errors of `int()`, of the tuple unpacking and of `datetime()` escape the handler.

## Model

| member | source | states |
|---|---|---|
| Text.StripCutsSpaces | bot.py:156 | `str.strip` keeps a contiguous slice of its input: what it cuts on either side is whitespace, and the result neither starts nor ends with whitespace |
| Text.StripUnpadded | bot.py:156 | text with no whitespace at either end is unchanged by `strip` |
| Text.FirstIndexOf | bot.py:156 | the position `split("|", 1)` cuts at holds the first `|`, with none before it |
| Text.JoinWithSpaces | bot.py:152 | `" ".join` of no words is empty and of one word is that word |
| Text.JoinedContains | bot.py:152-155 | a character other than a space occurs in the joined text exactly when it occurs in one of the arguments |
| Text.ParseIntOfDigits | bot.py:180 | `int()` of a run of ASCII digits is the number they spell |
| Text.ParseIntOfNegated | bot.py:211 | `int()` of `-` followed by digits is the negated number |
| Text.SeparatorControlIsNotIntSpace | bot.py:211 | `int()` skips less whitespace than `strip`: U+001C before a digit is stripped by `strip` but makes `int()` fail |
| Text.IntTextRoundTrip | bot.py:180 | `int(str(n)) == n` for every integer (within the digit limit noted under "Left out") |
| Calendar.DayNumberOrder | bot.py:63 | the day ordinal orders dates exactly as the calendar does, and is injective |
| Calendar.NextDay | bot.py:63 | `date + timedelta(days=1)` is the date whose ordinal is one more; it fails (OverflowError) exactly on 9999-12-31 |
| Calendar.NextDayIsImmediate | bot.py:63 | no date lies strictly between a date and its successor |
| Calendar.AddHour | bot.py:67 | `+ timedelta(hours=1)` is exactly 60 minutes later with the same seconds and microseconds; it fails exactly at 9999-12-31 23:xx |
| Calendar.IsoDate | bot.py:62-63 | `date.isoformat()` is ten characters |
| Calendar.IsoDateTime | bot.py:75-79 | `isoformat()` of an aware datetime is 25 or 32 characters: the ISO date, `T`, the zero-padded `HH:MM:SS` of the time, `.ffffff` exactly when there are microseconds, and the offset at the end |
| Calendar.IsoDateTimeRoundTrip | bot.py:75-79 | `fromisoformat` reads the `isoformat()` text of an aware datetime back as the same date and wall-clock time, microseconds included |
| Calendar.IsoDateRoundTrip | bot.py:62-63 | `fromisoformat` accepts exactly the `isoformat()` texts of valid dates, and inverts `isoformat()` |
| Calendar.DisplayDate | bot.py:197 | `strftime("%d/%m/%Y")` is ten characters with `/` at positions 2 and 5 |
| Strptime.TakeNumber | bot.py:158-161 | a numeric directive consumes at least one character and returns a value in the directive's range, spelled in one of its regex alternatives |
| Strptime.TakeNumberSpelled | bot.py:158-161 | the characters a directive consumed are the spelling of the value it returned |
| Strptime.TakeNumberReads | bot.py:158-161 | a spelling not followed by a further digit is read back as exactly that value and spelling |
| Strptime.MatchDateSpelled | bot.py:158-161 | the text matched by `%d/%m/%Y` is the day's spelling, `/`, the month's spelling, `/`, and the four-digit year |
| Strptime.MatchTimeSpelled | bot.py:161 | the text matched by ` %H:%M` is whitespace, the hour's spelling, `:`, and the minute's spelling |
| Strptime.ParseDateOnly | bot.py:158 | a date `strptime(…, "%d/%m/%Y")` returns is a real date |
| Strptime.DateOnlyAccepts | bot.py:158 | `strptime(s, "%d/%m/%Y")` returns `d` exactly when `s` spells the real date `d` with the allowed spellings; anything else is an error |
| Strptime.ParsedDateTimeIsValid | bot.py:161 | a date-time `strptime(…, "%d/%m/%Y %H:%M")` returns is a real date and time with zero seconds |
| Strptime.ReadDateTimeSpelling | bot.py:161 | text that `strptime` accepts with the timed pattern is a spelling of the date-time it returns |
| Strptime.DateTimeSpellingReads | bot.py:161 | every spelling of a real date and time of day is accepted and read back as that date-time |
| Strptime.DateTimeAccepts | bot.py:161 | `strptime(s, "%d/%m/%Y %H:%M")` returns `t` exactly when `s` spells `t`: both directions |
| Strptime.DisplayDateParses | bot.py:197 | what `strftime("%d/%m/%Y")` prints is read back by `strptime` with the same format |
| Strptime.PaddedDateIsDisplayed | bot.py:157-158 | a ten-character date text that does not start with a space and that `strptime` accepts is exactly what `strftime` prints for that date |
| Events.SplitAddText | bot.py:155-164 | the text has no date part exactly when it has no `|`, and then the whole text is the title |
| Events.SplitAtFirstBar | bot.py:156 | with a `|`, the title and the date text are the stripped sides of the first `|` |
| Events.LaterBarsStayInDateText | bot.py:156 | any `|` after the first one belongs to the date text |
| Events.ParseAddRequest | bot.py:155-165 | every request the branch accepts starts at a valid date-time |
| Events.UndatedRequest | bot.py:163-165 | without a `|`, the request is the whole text as title, starting now, not all-day |
| Events.ShortDateRequest | bot.py:157-159 | a date text of at most ten characters is accepted exactly when it spells a real date, giving the all-day request at that date's midnight; otherwise the request fails |
| Events.LongDateRequest | bot.py:160-162 | a longer date text is accepted exactly when it spells a real date and time, giving the timed request at that instant; otherwise the request fails |
| Events.ShapeEvent | bot.py:59-67 | an all-day event ends on the date after its start; a timed one ends 60 minutes after its start. It fails with DateOverflow exactly on 9999-12-31 (all-day) or 9999-12-31 23:xx (timed) |
| Events.AllDayCoversOneDate | bot.py:62-63 | the half-open span of an all-day event holds its start date and no other |
| Events.WireBody | bot.py:59-82 | all-day bounds are sent as ISO dates that read back to the span's dates. Timed bounds are sent as ISO date-times ending in `+07:00`, with zone `Asia/Bangkok`, that `fromisoformat` reads back as the span's start and end, so the sent end is one hour after the sent start |
| Events.AddEvent | bot.py:56-84 | the body carries the title; the only failure is the date overflow |
| Events.AllDayBody | bot.py:59-64 | an all-day body starts at the ISO start date and ends at the ISO form of the next date |
| Listing.ParseMonthYear | bot.py:180 | every failure of `map(int, arg.split("/"))` plus the two-name unpacking is the invalid-number error |
| Listing.MonthYearRoundTrip | bot.py:180 | `str(month) + "/" + str(year)` is read back as that month and year |
| Listing.MonthRange | bot.py:95-100 | the range exists exactly for months 1..12 of years 1..9999 other than December 9999. It starts at midnight on the 1st, and ends at midnight on the 1st of the next month, as many days later as the month has |
| Listing.MonthRangeHoldsMonth | bot.py:95-100 | a date lies in the half-open range exactly when it is in the asked month of the asked year |
| Listing.LexTotal | bot.py:115 | Python's string order compares any two keys |
| Listing.LexTransitive | bot.py:115 | Python's string order is transitive |
| Listing.LexAntisymmetric | bot.py:115 | two keys each at most the other are equal |
| Listing.InsertPermutes | bot.py:115 | inserting an event adds it and loses nothing |
| Listing.InsertSorted | bot.py:115 | inserting into a key-sorted list keeps it sorted |
| Listing.SortByStartKey | bot.py:115 | the sorted list is ordered by start key and is a permutation of the answer |
| Listing.SortIsStable | bot.py:115 | for every key, the events with that key keep their relative order |
| Listing.DisplayStart | bot.py:192-197 | a key holding `T` is shown as a date-time and only such a key is; a start is unprintable only when its key has no `T` and is not an ISO date. A printed date is the `strftime` form of the date its key names, and `strptime` reads it back |
| Listing.IsoDateShown | bot.py:192-197 | an all-day start sent as an ISO date is printed as that date's `dd/mm/yyyy` |
| Listing.AddedDateShownBack | bot.py:192-197 | a ten-character date text accepted by `/add` is printed back by `/show` as the same text |
| Bot.CalendarBot.constructor | bot.py:136 | the last shown list starts empty and no call has been made |
| Bot.CalendarBot.Add | bot.py:147-170 | no arguments is the usage reply. A parse failure or date overflow replies with that error and sends nothing. Otherwise exactly one insert of the computed body is sent and the title is replied. A call is made exactly when the reply is "added" |
| Bot.CalendarBot.Show | bot.py:173-201 | a missing or malformed argument or a month outside range changes nothing. Otherwise exactly one list call for the month's UTC bounds is made, and the cache becomes the sorted answer. The listing prints line `j+1` for cache entry `j`, or stops on an unprintable start after the cache was replaced |
| Bot.CalendarBot.Delete | bot.py:204-218 | the cache is never changed. A missing or non-integer argument or a number outside 1..len sends nothing. Otherwise exactly one delete is sent, for the id at position N-1, and its summary is replied |
| Bot.DeleteTwice | bot.py:211-217 | `/delete k` twice leaves the cache unchanged and sends two deletes of the same cached id; the second reply repeats the first only on the assumption that the remote accepts a repeated delete |
| Bot.DeleteShownLineTwice | bot.py:204-218 | after `/show`, `/delete k` deletes the event printed on line k, and a second `/delete k` sends a delete of that same id; its reply again assumes the remote accepts a repeated delete |

## Left out

- The Telegram plumbing (handlers, `reply_text`, `asyncio.to_thread`, `main`) and the help text: only what each handler computes, replies and sends is modelled.
- The Google API client, `find_token_file` and credentials (`get_calendar_service`), and `google_calender.py`. These are foreign calls: the remote calendar is the ghost call log, and the list answer is a parameter of `Show`. Failures of the remote calls are not modelled: every insert, list and delete is taken to succeed. In particular the calendar service refuses a second delete of the same id, so the second `/delete k` of `DeleteTwice` would get no reply.
- The wording of the reply messages: replies are constructors carrying the data the messages print.
- `datetime.now()`: the current time is a parameter of `Add`.
- Non-ASCII decimal digits: Python's `\d` and `int()` accept them, but the model reads ASCII digits only.
- `BKK.localize` and `astimezone(BKK)`. The Bangkok offset is taken as a fixed `+07:00`, which leaves out the zone's local mean time before 1920. A timed start is printed as its listed `dateTime` text (the `ShownZoned` case), not converted to `dd/mm/yyyy HH:MM`.
- Listing.DisplayStart: of the texts `datetime.fromisoformat` accepts, only `YYYY-MM-DD` is read for a key without `T`. For other forms, such as `2026-01-05 10:00` or (from Python 3.11) `20260105`, the program prints a date, but `DisplayStart` returns None and `Show` replies `ShowFailed(BadStoredDate)`. The calendar service sends an all-day `date` only as `YYYY-MM-DD`, so those keys do not arise. The `Z` replacement of bot.py:194 belongs to the timed printing, which is not modelled.
- Events.AddEvent: pytz's `localize` (bot.py:69-70) also computes the datetime one day before and one day after. For a timed `/add` starting on 0001-01-01, or ending on 9999-12-31, `localize` raises OverflowError. The program then replies with an error and inserts nothing, but the model inserts. `ShapeEvent`'s failure set is that of the `timedelta` additions only, not of the whole `/add`.
- List items without a `start`, with both start fields empty, or without `summary`: items are modelled as always having an id, a summary and one start field.
- Events.ShapeEvent: the optional `end` argument of `add_event` is left out, because `add` never passes it.
- Listing.SortByStartKey: `list.sort` is modelled as a stable insertion sort that returns a new sequence, not as an update in place. The sorted list is local to `get_events`, so the difference is not observable.
- Concurrency: `LAST_EVENT_LIST` is shared by all chats, and the interleaving of several users' commands is not modelled.
- Calendar.DisplayDate: `%Y` is taken to pad years below 1000 to four digits, as recent CPython does. Builds whose C library prints such years unpadded break `DisplayDateParses` and `AddedDateShownBack` for years 1..999.
- Text.IntTextRoundTrip: CPython 3.11 and later raise ValueError in `int()` and `str()` beyond 4300 digits, and the model has no such limit. A Telegram message holds at most 4096 characters, so the bot never reaches it.
