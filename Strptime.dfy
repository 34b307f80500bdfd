/**
 * datetime.strptime for the two formats /add uses, "%d/%m/%Y" and
 * "%d/%m/%Y %H:%M", as CPython's _strptime builds them:
 *   %d  3[01]|[12]\d|0[1-9]|[1-9]| [1-9]
 *   %m  1[0-2]|0[1-9]|[1-9]
 *   %Y  \d\d\d\d
 *   %H  2[0-3]|[0-1]\d|\d
 *   %M  [0-5]\d|\d
 * a space in the format becomes \s+, the regex is applied with re.match and
 * text left over after the match is an error ("unconverted data remains");
 * only then is the date checked against the calendar.
 *
 * Every directive is followed by a literal that is not a digit, by \s+
 * followed by a digit, or by the end of the pattern, so at most one
 * alternative of a directive can lead to a match: taking the first
 * alternative that matches, as TakeNumber does, is what the regex's
 * backtracking arrives at.
 */
module Strptime {
  import opened Outcomes
  import opened Text
  import opened Calendar

  /** How a number is spelled in the matched text. */
  datatype Spelling = TwoDigits | OneDigit | SpaceDigit

  /** The spellings a directive's alternatives allow for value v. */
  predicate Spells(v: int, sp: Spelling, lo: int, hi: int, spaceAllowed: bool) {
    lo <= v <= hi
    && match sp
       case TwoDigits => v <= 99
       case OneDigit => v <= 9
       case SpaceDigit => spaceAllowed && 1 <= v <= 9
  }

  function Spell(v: int, sp: Spelling): (t: string)
    requires 0 <= v <= 99 && (sp != TwoDigits ==> v <= 9)
  {
    match sp
    case TwoDigits => Pad2(v)
    case OneDigit => [DigitChar(v)]
    case SpaceDigit => [' ', DigitChar(v)]
  }

  predicate DaySpelling(v: int, sp: Spelling) { Spells(v, sp, 1, 31, true) }
  predicate MonthSpelling(v: int, sp: Spelling) { Spells(v, sp, 1, 12, false) }
  predicate HourSpelling(v: int, sp: Spelling) { Spells(v, sp, 0, 23, false) }
  predicate MinuteSpelling(v: int, sp: Spelling) { Spells(v, sp, 0, 59, false) }

  datatype Field = Field(value: int, spelling: Spelling, next: nat)

  /**
   * One numeric directive at position p: a two-digit alternative in range
   * first, then a single digit, then (for %d only) a space and a digit.
   */
  function TakeNumber(s: string, p: nat, lo: int, hi: int, spaceAllowed: bool): (r: Option<Field>)
    requires 0 <= lo <= 1 && 9 <= hi <= 99
    ensures r.Some? ==> p < r.value.next <= |s|
    ensures r.Some? ==> Spells(r.value.value, r.value.spelling, lo, hi, spaceAllowed)
  {
    if p + 2 <= |s| && IsDigit(s[p]) && IsDigit(s[p + 1])
       && lo <= DigitValue(s[p]) * 10 + DigitValue(s[p + 1]) <= hi then
      Some(Field(DigitValue(s[p]) * 10 + DigitValue(s[p + 1]), TwoDigits, p + 2))
    else if p + 1 <= |s| && IsDigit(s[p]) && lo <= DigitValue(s[p]) then
      Some(Field(DigitValue(s[p]), OneDigit, p + 1))
    else if spaceAllowed && p + 2 <= |s| && s[p] == ' ' && IsDigit(s[p + 1]) && 1 <= DigitValue(s[p + 1]) then
      Some(Field(DigitValue(s[p + 1]), SpaceDigit, p + 2))
    else None
  }

  /** What TakeNumber reads is the spelling of the value it returns. */
  lemma TakeNumberSpelled(s: string, p: nat, lo: int, hi: int, spaceAllowed: bool, f: Field)
    requires 0 <= lo <= 1 && 9 <= hi <= 99 && TakeNumber(s, p, lo, hi, spaceAllowed) == Some(f)
    ensures p < f.next <= |s| && Spells(f.value, f.spelling, lo, hi, spaceAllowed)
    ensures s[p..f.next] == Spell(f.value, f.spelling)
  {
    if p + 2 <= |s| && IsDigit(s[p]) && IsDigit(s[p + 1])
       && lo <= DigitValue(s[p]) * 10 + DigitValue(s[p + 1]) <= hi {
      var a, b := DigitValue(s[p]), DigitValue(s[p + 1]);
      assert (a * 10 + b) / 10 == a && (a * 10 + b) % 10 == b;
      DigitCharOfValue(s[p]);
      DigitCharOfValue(s[p + 1]);
    } else if p + 1 <= |s| && IsDigit(s[p]) && lo <= DigitValue(s[p]) {
      DigitCharOfValue(s[p]);
    } else {
      DigitCharOfValue(s[p + 1]);
    }
  }

  /** t occurs in s at position p. */
  predicate At(s: string, p: nat, t: string) {
    p + |t| <= |s| && s[p..p + |t|] == t
  }

  /** A spelling that is not followed by a further digit is read back as written. */
  lemma TakeNumberReads(s: string, p: nat, lo: int, hi: int, spaceAllowed: bool, v: int, sp: Spelling)
    requires 0 <= lo <= 1 && 9 <= hi <= 99
    requires Spells(v, sp, lo, hi, spaceAllowed)
    requires At(s, p, Spell(v, sp))
    requires p + |Spell(v, sp)| == |s| || !IsDigit(s[p + |Spell(v, sp)|])
    ensures TakeNumber(s, p, lo, hi, spaceAllowed) == Some(Field(v, sp, p + |Spell(v, sp)|))
  {
    var t := Spell(v, sp);
    assert s[p] == t[0] by {
      assert s[p..p + |t|][0] == s[p];
    }
    if sp != OneDigit {
      assert s[p + 1] == t[1] by {
        assert s[p..p + |t|][1] == s[p + 1];
      }
    }
    if sp == TwoDigits {
      assert (v / 10) * 10 + v % 10 == v;
    }
  }

  /** The text a day, a month and a year spell as "%d/%m/%Y". */
  function DateText(d: Date, ds: Spelling, ms: Spelling): string
    requires ValidDate(d) && DaySpelling(d.day, ds) && MonthSpelling(d.month, ms)
  {
    Spell(d.day, ds) + "/" + Spell(d.month, ms) + "/" + Pad4(d.year)
  }

  /** How "%d/%m/%Y %H:%M" text spells its fields, with gap the text \s+ matched. */
  datatype TimedSpelling = TimedSpelling(day: Spelling, month: Spelling, gap: string, hour: Spelling, minute: Spelling)

  /** w is a way the timed pattern can spell t. */
  predicate SpellsTimed(t: DateTime, w: TimedSpelling) {
    DaySpelling(t.date.day, w.day) && MonthSpelling(t.date.month, w.month)
    && |w.gap| > 0 && AllSpaces(w.gap) && HourSpelling(t.hour, w.hour) && MinuteSpelling(t.minute, w.minute)
  }

  /** The text of " %H:%M", with gap the text \s+ matched. */
  function TimeText(gap: string, hour: int, hs: Spelling, minute: int, mins: Spelling): string
    requires HourSpelling(hour, hs) && MinuteSpelling(minute, mins)
  {
    gap + Spell(hour, hs) + ":" + Spell(minute, mins)
  }

  /** The text a date and time spell as "%d/%m/%Y %H:%M". */
  function DateTimeText(t: DateTime, w: TimedSpelling): string
    requires ValidDateTime(t) && SpellsTimed(t, w)
  {
    DateText(t.date, w.day, w.month) + TimeText(w.gap, t.hour, w.hour, t.minute, w.minute)
  }

  datatype DateMatch = DateMatch(day: Field, month: Field, year: int, next: nat)

  /** The "%d/%m/%Y" part of either pattern, matched from the start of s. */
  function MatchDate(s: string): (r: Option<DateMatch>)
    ensures r.Some? ==> r.value.next <= |s|
    ensures r.Some? ==> DaySpelling(r.value.day.value, r.value.day.spelling)
                        && MonthSpelling(r.value.month.value, r.value.month.spelling)
                        && 0 <= r.value.year <= 9999
  {
    match TakeNumber(s, 0, 1, 31, true)
    case None => None
    case Some(day) =>
      if !(day.next < |s| && s[day.next] == '/') then None
      else match TakeNumber(s, day.next + 1, 1, 12, false)
        case None => None
        case Some(month) =>
          var y := month.next + 1;
          if !(month.next < |s| && s[month.next] == '/' && y + 4 <= |s| && AllDigits(s[y..y + 4])) then None
          else
            Pad4OfDigits(s[y..y + 4]);
            Some(DateMatch(day, month, DigitsValue(s[y..y + 4]), y + 4))
  }

  /** Text cut at a, a + 1, b and b + 1 is the concatenation of the pieces. */
  lemma DateTextPieces(s: string, a: nat, b: nat, dt: string, mt: string, yt: string)
    requires a < b && b + 5 <= |s| && s[..a] == dt && s[a] == '/' && s[a + 1..b] == mt && s[b] == '/'
    requires s[b + 1..b + 5] == yt
    ensures s[..b + 5] == dt + "/" + mt + "/" + yt
  {
    SliceSplit(s, 0, a, a + 1);
    SliceSplit(s, 0, a + 1, b);
    SliceSplit(s, 0, b, b + 1);
    SliceSplit(s, 0, b + 1, b + 5);
    assert s[a..a + 1] == "/" && s[b..b + 1] == "/";
  }

  /** The text MatchDate consumed spells the day, month and year it returns. */
  lemma MatchDateSpelled(s: string, m: DateMatch)
    requires MatchDate(s) == Some(m)
    ensures DaySpelling(m.day.value, m.day.spelling) && MonthSpelling(m.month.value, m.month.spelling)
    ensures 0 <= m.year <= 9999 && m.next <= |s|
    ensures s[..m.next] == Spell(m.day.value, m.day.spelling) + "/" + Spell(m.month.value, m.month.spelling) + "/" + Pad4(m.year)
  {
    var a, b := m.day.next, m.month.next;
    TakeNumberSpelled(s, 0, 1, 31, true, m.day);
    TakeNumberSpelled(s, a + 1, 1, 12, false, m.month);
    Pad4OfDigits(s[b + 1..b + 5]);
    DateTextPieces(s, a, b, Spell(m.day.value, m.day.spelling), Spell(m.month.value, m.month.spelling), Pad4(m.year));
  }

  /** The date a match names, checked against the calendar as datetime() does. */
  function MatchedDate(m: DateMatch): Result<Date> {
    var d := Date(m.year, m.month.value, m.day.value);
    if ValidDate(d) then Ok(d) else Err(DateOutOfRange)
  }

  /** datetime.strptime(s, "%d/%m/%Y"). */
  function ParseDateOnly(s: string): (r: Result<Date>)
    ensures r.Ok? ==> ValidDate(r.value)
  {
    match MatchDate(s)
    case None => Err(DateFormat)
    case Some(m) => if m.next != |s| then Err(DateFormat) else MatchedDate(m)
  }

  /** The end of the run of whitespace starting at p: greedy \s+ (or \s*). */
  function SpaceRunEnd(s: string, p: nat): (e: nat)
    requires p <= |s|
    ensures p <= e <= |s| && AllSpaces(s[p..e]) && (e == |s| || !IsSpace(s[e]))
    decreases |s| - p
  {
    if p < |s| && IsSpace(s[p]) then
      var e := SpaceRunEnd(s, p + 1);
      assert s[p..e] == [s[p]] + s[p + 1..e];
      e
    else p
  }

  datatype TimeMatch = TimeMatch(gapEnd: nat, hour: Field, minute: Field)

  /** The " %H:%M" part of the timed pattern from position p: \s+, hour, ':', minute. */
  function MatchTime(s: string, p: nat): (r: Option<TimeMatch>)
    requires p <= |s|
    ensures r.Some? ==> p < r.value.gapEnd < r.value.hour.next < r.value.minute.next <= |s|
    ensures r.Some? ==> s[r.value.hour.next] == ':'
    ensures r.Some? ==> HourSpelling(r.value.hour.value, r.value.hour.spelling)
                        && MinuteSpelling(r.value.minute.value, r.value.minute.spelling)
  {
    var g := SpaceRunEnd(s, p);
    if g == p then None
    else match TakeNumber(s, g, 0, 23, false)
      case None => None
      case Some(h) =>
        if !(h.next < |s| && s[h.next] == ':') then None
        else match TakeNumber(s, h.next + 1, 0, 59, false)
          case None => None
          case Some(mi) => Some(TimeMatch(g, h, mi))
  }

  /** The text MatchTime consumed is whitespace, then the hour and minute spellings it returns. */
  lemma MatchTimeSpelled(s: string, p: nat, tm: TimeMatch)
    requires p <= |s| && MatchTime(s, p) == Some(tm)
    ensures p < tm.gapEnd < tm.hour.next < tm.minute.next <= |s| && s[tm.hour.next] == ':'
    ensures HourSpelling(tm.hour.value, tm.hour.spelling) && MinuteSpelling(tm.minute.value, tm.minute.spelling)
    ensures AllSpaces(s[p..tm.gapEnd])
    ensures s[tm.gapEnd..tm.hour.next] == Spell(tm.hour.value, tm.hour.spelling)
    ensures s[tm.hour.next + 1..tm.minute.next] == Spell(tm.minute.value, tm.minute.spelling)
  {
    TakeNumberSpelled(s, tm.gapEnd, 0, 23, false, tm.hour);
    TakeNumberSpelled(s, tm.hour.next + 1, 0, 59, false, tm.minute);
  }

  /** datetime.strptime(s, "%d/%m/%Y %H:%M"). */
  function ParseDateTime(s: string): Result<DateTime> {
    match MatchDate(s)
    case None => Err(DateFormat)
    case Some(m) =>
      match MatchTime(s, m.next)
      case None => Err(DateFormat)
      case Some(tm) =>
        if tm.minute.next != |s| then Err(DateFormat)
        else
          var d :- MatchedDate(m);
          Ok(DateTime(d, tm.hour.value, tm.minute.value, 0, 0))
  }

  /** A date and time strptime accepts is a real one, with no seconds. */
  lemma ParsedDateTimeIsValid(s: string)
    requires ParseDateTime(s).Ok?
    ensures ValidDateTime(ParseDateTime(s).value)
    ensures ParseDateTime(s).value.second == 0 && ParseDateTime(s).value.microsecond == 0
  {
  }

  // ---------------------------------------------------------------------------
  // What the recogniser accepts

  lemma AtConcat(s: string, p: nat, x: string, y: string)
    requires At(s, p, x + y)
    ensures At(s, p, x) && At(s, p + |x|, y)
  {
    assert s[p..p + |x|] == s[p..p + |x + y|][..|x|];
    assert s[p + |x|..p + |x| + |y|] == s[p..p + |x + y|][|x|..];
  }

  lemma AtSlice(s: string, p: nat, x: string)
    requires At(s, p, x)
    ensures s[p..p + |x|] == x
  {
  }

  /** MatchDate succeeds with the parts its steps find. */
  lemma MatchDateOfParts(s: string, day: Field, month: Field)
    requires TakeNumber(s, 0, 1, 31, true) == Some(day) && day.next < |s| && s[day.next] == '/'
    requires TakeNumber(s, day.next + 1, 1, 12, false) == Some(month) && month.next < |s| && s[month.next] == '/'
    requires month.next + 5 <= |s| && AllDigits(s[month.next + 1..month.next + 5])
    ensures MatchDate(s) == Some(DateMatch(day, month, DigitsValue(s[month.next + 1..month.next + 5]), month.next + 5))
  {
  }

  /** A date's spelled text at the start of s matches as that date. */
  lemma MatchDateReads(s: string, d: Date, ds: Spelling, ms: Spelling)
    requires ValidDate(d) && DaySpelling(d.day, ds) && MonthSpelling(d.month, ms)
    requires At(s, 0, DateText(d, ds, ms))
    ensures MatchDate(s) == Some(DateMatch(Field(d.day, ds, |Spell(d.day, ds)|),
                                           Field(d.month, ms, |Spell(d.day, ds)| + 1 + |Spell(d.month, ms)|),
                                           d.year, |DateText(d, ds, ms)|))
  {
    var a := Spell(d.day, ds);
    var b := Spell(d.month, ms);
    var c := Pad4(d.year);
    var n := |a| + 1 + |b|;
    assert DateText(d, ds, ms) == a + "/" + (b + "/" + c);
    NumberThenSeparator(s, 0, d.day, ds, 1, 31, true, '/', b + "/" + c);
    NumberThenSeparator(s, |a| + 1, d.month, ms, 1, 12, false, '/', c);
    AtSlice(s, n + 1, c);
    Pad4OfDigits(c);
    MatchDateOfParts(s, Field(d.day, ds, |a|), Field(d.month, ms, n));
  }

  /** strptime(s, "%d/%m/%Y") succeeds exactly on the spellings of real dates, and reads them back. */
  lemma DateOnlyAccepts(s: string, d: Date)
    ensures ParseDateOnly(s) == Ok(d) <==> SpellsDate(s, d)
  {
    if ParseDateOnly(s) == Ok(d) {
      var m := MatchDate(s).value;
      MatchDateSpelled(s, m);
      assert s == s[..m.next];
      assert s == DateText(d, m.day.spelling, m.month.spelling);
    }
    if SpellsDate(s, d) {
      var ds, ms :| DaySpelling(d.day, ds) && MonthSpelling(d.month, ms) && s == DateText(d, ds, ms);
      assert At(s, 0, DateText(d, ds, ms));
      MatchDateReads(s, d, ds, ms);
    }
  }

  lemma SliceSplit(s: string, i: nat, j: nat, k: nat)
    requires i <= j <= k <= |s|
    ensures s[i..k] == s[i..j] + s[j..k]
  {
  }

  /** The two matches behind a successful strptime of the timed pattern. */
  lemma ParsedDateTimeParts(s: string, t: DateTime) returns (m: DateMatch, tm: TimeMatch)
    requires ParseDateTime(s) == Ok(t)
    ensures MatchDate(s) == Some(m) && m.next <= |s| && MatchTime(s, m.next) == Some(tm) && tm.minute.next == |s|
    ensures ValidDate(Date(m.year, m.month.value, m.day.value))
    ensures t == DateTime(Date(m.year, m.month.value, m.day.value), tm.hour.value, tm.minute.value, 0, 0)
  {
    m := MatchDate(s).value;
    tm := MatchTime(s, m.next).value;
  }

  /** Text cut at n, g, h and h + 1 is the concatenation of the pieces. */
  lemma TimedTextPieces(s: string, n: nat, g: nat, h: nat, dt: string, ht: string, mt: string)
    requires n <= g <= h < |s| && s[..n] == dt && s[g..h] == ht && s[h] == ':' && s[h + 1..] == mt
    ensures s == dt + (s[n..g] + ht + ":" + mt)
  {
    SliceSplit(s, 0, n, g);
    SliceSplit(s, 0, g, h);
    SliceSplit(s, 0, h, h + 1);
    SliceSplit(s, 0, h + 1, |s|);
    assert s[h..h + 1] == ":";
    assert s == s[0..|s|];
  }

  /** The gap and the four spellings strptime read when it accepted s. */
  lemma ReadDateTimeSpelling(s: string, t: DateTime) returns (w: TimedSpelling)
    requires ParseDateTime(s) == Ok(t)
    ensures ValidDateTime(t) && t.second == 0 && t.microsecond == 0
    ensures SpellsTimed(t, w) && s == DateTimeText(t, w)
  {
    var m, tm := ParsedDateTimeParts(s, t);
    MatchDateSpelled(s, m);
    MatchTimeSpelled(s, m.next, tm);
    w := TimedSpelling(m.day.spelling, m.month.spelling, s[m.next..tm.gapEnd], tm.hour.spelling, tm.minute.spelling);
    TimedTextPieces(s, m.next, tm.gapEnd, tm.hour.next, DateText(t.date, w.day, w.month),
                    Spell(t.hour, w.hour), Spell(t.minute, w.minute));
  }

  /** What the first steps of MatchTime find in " %H:%M" spelled from p: the gap, the hour and the ':'. */
  lemma GapAndHourRead(s: string, p: nat, gap: string, hour: int, hs: Spelling, mt: string)
    requires |gap| > 0 && AllSpaces(gap) && HourSpelling(hour, hs)
    requires At(s, p, gap + (Spell(hour, hs) + ":" + mt))
    ensures SpaceRunEnd(s, p) == p + |gap|
    ensures TakeNumber(s, p + |gap|, 0, 23, false) == Some(Field(hour, hs, p + |gap| + |Spell(hour, hs)|))
    ensures s[p + |gap| + |Spell(hour, hs)|] == ':' && At(s, p + |gap| + |Spell(hour, hs)| + 1, mt)
  {
    var ht := Spell(hour, hs);
    assert (ht + ":" + mt)[0] == ht[0] && IsDigit(ht[0]);
    GapThenDigit(s, p, gap, ht + ":" + mt);
    NumberThenSeparator(s, p + |gap|, hour, hs, 0, 23, false, ':', mt);
  }

  /** " %H:%M" spelled from p to the end of s is matched as written. */
  lemma MatchTimeReads(s: string, p: nat, gap: string, hour: int, hs: Spelling, minute: int, mins: Spelling)
    requires |gap| > 0 && AllSpaces(gap) && HourSpelling(hour, hs) && MinuteSpelling(minute, mins)
    requires p + |gap| + |Spell(hour, hs)| + 1 + |Spell(minute, mins)| == |s|
    requires At(s, p, gap + (Spell(hour, hs) + ":" + Spell(minute, mins)))
    ensures MatchTime(s, p) == Some(TimeMatch(p + |gap|, Field(hour, hs, p + |gap| + |Spell(hour, hs)|),
                                              Field(minute, mins, |s|)))
  {
    var ht := Spell(hour, hs);
    var mt := Spell(minute, mins);
    var c := p + |gap| + |ht|;
    GapAndHourRead(s, p, gap, hour, hs, mt);
    TakeNumberReads(s, c + 1, 0, 59, false, minute, mins);
    MatchTimeOfParts(s, p, p + |gap|, Field(hour, hs, c), Field(minute, mins, |s|));
  }

  /** A run of whitespace followed by a digit ends where the digit starts. */
  lemma GapThenDigit(s: string, p: nat, gap: string, x: string)
    requires |gap| > 0 && AllSpaces(gap) && |x| > 0 && IsDigit(x[0]) && At(s, p, gap + x)
    ensures SpaceRunEnd(s, p) == p + |gap| && At(s, p + |gap|, x)
  {
    AtConcat(s, p, gap, x);
    AtSlice(s, p, gap);
    assert s[p + |gap|] == x[0] by {
      assert s[p + |gap| + 0] == x[0];
    }
    SpaceRunFrom(s, p, p + |gap|);
  }

  /** A spelled number followed by a separator that is not a digit is read as written, up to the separator. */
  lemma NumberThenSeparator(s: string, q: nat, v: int, sp: Spelling, lo: int, hi: int, spaceAllowed: bool,
                            sep: char, rest: string)
    requires 0 <= lo <= 1 && 9 <= hi <= 99 && Spells(v, sp, lo, hi, spaceAllowed) && !IsDigit(sep)
    requires At(s, q, Spell(v, sp) + [sep] + rest)
    ensures TakeNumber(s, q, lo, hi, spaceAllowed) == Some(Field(v, sp, q + |Spell(v, sp)|))
    ensures s[q + |Spell(v, sp)|] == sep && At(s, q + |Spell(v, sp)| + 1, rest)
  {
    var c := q + |Spell(v, sp)|;
    AtConcat(s, q, Spell(v, sp) + [sep], rest);
    AtConcat(s, q, Spell(v, sp), [sep]);
    assert s[c] == sep by {
      assert s[c..c + 1][0] == s[c];
    }
    TakeNumberReads(s, q, lo, hi, spaceAllowed, v, sp);
  }

  /** MatchTime succeeds with the parts its steps find. */
  lemma MatchTimeOfParts(s: string, p: nat, g: nat, h: Field, mi: Field)
    requires p < g <= |s| && SpaceRunEnd(s, p) == g && TakeNumber(s, g, 0, 23, false) == Some(h)
    requires h.next < |s| && s[h.next] == ':' && TakeNumber(s, h.next + 1, 0, 59, false) == Some(mi)
    ensures MatchTime(s, p) == Some(TimeMatch(g, h, mi))
  {
  }

  /** The two parts of the timed pattern match a spelled date and time, up to the end. */
  lemma TimedTextMatches(t: DateTime, w: TimedSpelling) returns (m: DateMatch, tm: TimeMatch)
    requires ValidDateTime(t) && SpellsTimed(t, w)
    ensures MatchDate(DateTimeText(t, w)) == Some(m)
    ensures m.next <= |DateTimeText(t, w)|
    ensures MatchTime(DateTimeText(t, w), m.next) == Some(tm)
    ensures tm.minute.next == |DateTimeText(t, w)|
    ensures Date(m.year, m.month.value, m.day.value) == t.date
    ensures tm.hour.value == t.hour && tm.minute.value == t.minute
  {
    var s := DateTimeText(t, w);
    var dt := DateText(t.date, w.day, w.month);
    var rest := TimeText(w.gap, t.hour, w.hour, t.minute, w.minute);
    assert At(s, 0, s);
    AtConcat(s, 0, dt, rest);
    assert rest == w.gap + (Spell(t.hour, w.hour) + ":" + Spell(t.minute, w.minute));
    MatchDateReads(s, t.date, w.day, w.month);
    MatchTimeReads(s, |dt|, w.gap, t.hour, w.hour, t.minute, w.minute);
    m := MatchDate(s).value;
    tm := MatchTime(s, |dt|).value;
  }

  /** Every spelling of a real date and time of day is accepted and read back. */
  lemma DateTimeSpellingReads(t: DateTime, w: TimedSpelling)
    requires ValidDateTime(t) && t.second == 0 && t.microsecond == 0 && SpellsTimed(t, w)
    ensures ParseDateTime(DateTimeText(t, w)) == Ok(t)
  {
    var m, tm := TimedTextMatches(t, w);
    ParseDateTimeOfMatches(DateTimeText(t, w), m, tm);
  }

  /** Once both parts have matched up to the end, the result is the date and time they read. */
  lemma ParseDateTimeOfMatches(s: string, m: DateMatch, tm: TimeMatch)
    requires MatchDate(s) == Some(m) && m.next <= |s| && MatchTime(s, m.next) == Some(tm)
    requires tm.minute.next == |s| && ValidDate(Date(m.year, m.month.value, m.day.value))
    ensures ParseDateTime(s) == Ok(DateTime(Date(m.year, m.month.value, m.day.value), tm.hour.value, tm.minute.value, 0, 0))
  {
  }

  /** s spells a real date as "%d/%m/%Y". */
  ghost predicate SpellsDate(s: string, d: Date) {
    ValidDate(d) && exists ds, ms :: DaySpelling(d.day, ds) && MonthSpelling(d.month, ms) && s == DateText(d, ds, ms)
  }

  /** s spells a real date and time of day as "%d/%m/%Y %H:%M", with no seconds. */
  ghost predicate SpellsDateTime(s: string, t: DateTime) {
    ValidDateTime(t) && t.second == 0 && t.microsecond == 0
    && exists w :: SpellsTimed(t, w) && s == DateTimeText(t, w)
  }

  /** What strptime accepts with the timed pattern is a spelling of what it returns. */
  lemma AcceptedDateTimeIsSpelled(s: string, t: DateTime)
    requires ParseDateTime(s) == Ok(t)
    ensures SpellsDateTime(s, t)
  {
    var w := ReadDateTimeSpelling(s, t);
  }

  /** Every spelling of a real date and time of day is accepted as that date and time. */
  lemma SpelledDateTimeIsAccepted(s: string, t: DateTime)
    requires SpellsDateTime(s, t)
    ensures ParseDateTime(s) == Ok(t)
  {
    var w :| SpellsTimed(t, w) && s == DateTimeText(t, w);
    DateTimeSpellingReads(t, w);
  }

  /**
   * strptime(s, "%d/%m/%Y %H:%M") succeeds exactly on the spellings of real
   * dates and times of day, and reads them back with zero seconds.
   */
  lemma DateTimeAccepts(s: string, t: DateTime)
    ensures ParseDateTime(s) == Ok(t) <==> SpellsDateTime(s, t)
  {
    if ParseDateTime(s) == Ok(t) {
      AcceptedDateTimeIsSpelled(s, t);
    }
    if SpellsDateTime(s, t) {
      SpelledDateTimeIsAccepted(s, t);
    }
  }

  lemma SpaceRunFrom(s: string, p: nat, e: nat)
    requires p <= e < |s| && AllSpaces(s[p..e]) && !IsSpace(s[e])
    ensures SpaceRunEnd(s, p) == e
    decreases e - p
  {
    if p < e {
      assert s[p] == s[p..e][0];
      assert s[p + 1..e] == s[p..e][1..];
      SpaceRunFrom(s, p + 1, e);
    }
  }

  /** What strftime("%d/%m/%Y") prints is read back by strptime with the same format. */
  lemma DisplayDateParses(d: Date)
    requires ValidDate(d)
    ensures ParseDateOnly(DisplayDate(d)) == Ok(d)
  {
    assert DisplayDate(d) == DateText(d, TwoDigits, TwoDigits);
    DateOnlyAccepts(DisplayDate(d), d);
  }

  /**
   * Ten characters that do not start with a space and that strptime reads as
   * a date are exactly what strftime("%d/%m/%Y") prints for that date.
   */
  lemma PaddedDateIsDisplayed(s: string, d: Date)
    requires ParseDateOnly(s) == Ok(d) && |s| == 10 && !IsSpace(s[0])
    ensures DisplayDate(d) == s
  {
    DateOnlyAccepts(s, d);
    var ds, ms :| DaySpelling(d.day, ds) && MonthSpelling(d.month, ms) && s == DateText(d, ds, ms);
    assert s[0] == Spell(d.day, ds)[0];
  }
}
