/**
 * The string operations the command handlers rely on, with Python's meaning:
 * str.isspace / str.strip, " ".join, the first-separator split of
 * str.split(sep, 1), decimal digits, zero padding and int().
 */
module Text {
  import opened Outcomes

  /** Python's str.isspace(): what str.strip() removes and what the regex class \s matches. */
  predicate IsSpace(c: char) {
    c == ' ' || '\t' <= c <= '\r' || '\U{1C}' <= c <= '\U{1F}' || c == '\U{85}' || c == '\U{A0}'
    || c == '\U{1680}' || '\U{2000}' <= c <= '\U{200A}' || c == '\U{2028}' || c == '\U{2029}'
    || c == '\U{202F}' || c == '\U{205F}' || c == '\U{3000}'
  }

  predicate AllSpaces(s: string) {
    forall i :: 0 <= i < |s| ==> IsSpace(s[i])
  }

  function StripLeft(s: string): string {
    if s == [] || !IsSpace(s[0]) then s else StripLeft(s[1..])
  }

  function StripRight(s: string): string {
    if s == [] || !IsSpace(s[|s| - 1]) then s else StripRight(s[..|s| - 1])
  }

  /** str.strip(): whitespace cut from both ends. */
  function Strip(s: string): string {
    StripRight(StripLeft(s))
  }

  /** StripLeft keeps a suffix that does not start with whitespace and cuts only whitespace. */
  lemma {:induction false} StripLeftCuts(s: string) returns (i: nat)
    ensures i <= |s| && StripLeft(s) == s[i..] && AllSpaces(s[..i])
    ensures StripLeft(s) == [] || !IsSpace(StripLeft(s)[0])
  {
    if s == [] || !IsSpace(s[0]) {
      i := 0;
    } else {
      var j := StripLeftCuts(s[1..]);
      i := j + 1;
      assert s[1..][j..] == s[i..];
      assert s[..i] == [s[0]] + s[1..][..j];
    }
  }

  /** StripRight keeps a prefix that does not end with whitespace and cuts only whitespace. */
  lemma {:induction false} StripRightCuts(s: string)
    ensures |StripRight(s)| <= |s| && StripRight(s) == s[..|StripRight(s)|]
    ensures AllSpaces(s[|StripRight(s)|..])
    ensures StripRight(s) == [] || !IsSpace(StripRight(s)[|StripRight(s)| - 1])
  {
    if s != [] && IsSpace(s[|s| - 1]) {
      var t := s[..|s| - 1];
      StripRightCuts(t);
      var n := |StripRight(t)|;
      assert t[..n] == s[..n];
      assert s[n..] == t[n..] + [s[|s| - 1]];
    }
  }

  /**
   * What Strip keeps is a slice of s that neither starts nor ends with
   * whitespace, and what it cuts off is whitespace at the two ends.
   */
  lemma StripCutsSpaces(s: string) returns (i: nat)
    ensures i + |Strip(s)| <= |s| && Strip(s) == s[i..i + |Strip(s)|]
    ensures AllSpaces(s[..i]) && AllSpaces(s[i + |Strip(s)|..])
    ensures Strip(s) == [] || (!IsSpace(Strip(s)[0]) && !IsSpace(Strip(s)[|Strip(s)| - 1]))
  {
    var l := StripLeft(s);
    i := StripLeftCuts(s);
    StripRightCuts(l);
    var r := StripRight(l);
    assert Strip(s) == r;
    assert r == l[..|r|];
    assert r == s[i..i + |r|];
    assert s[i + |r|..] == l[|r|..];
    if r != [] {
      assert r[0] == l[0];
    }
  }

  lemma {:induction false} StripUnpadded(s: string)
    requires s == [] || (!IsSpace(s[0]) && !IsSpace(s[|s| - 1]))
    ensures Strip(s) == s
  {
  }

  /** Position of the first occurrence of c: where str.split(c, 1) cuts. */
  function FirstIndexOf(s: string, c: char): (i: nat)
    requires c in s
    ensures i < |s| && s[i] == c && c !in s[..i]
  {
    if s[0] == c then 0
    else
      var j := FirstIndexOf(s[1..], c);
      assert s[..j + 1] == [s[0]] + s[1..][..j];
      j + 1
  }

  /** " ".join(words). */
  function JoinWithSpaces(words: seq<string>): (r: string)
    ensures words == [] ==> r == []
    ensures |words| == 1 ==> r == words[0]
  {
    if words == [] then []
    else if |words| == 1 then words[0]
    else words[0] + " " + JoinWithSpaces(words[1..])
  }

  /** A character other than the space is in the joined text exactly when some word holds it. */
  lemma {:induction false} JoinedContains(words: seq<string>, c: char)
    requires c != ' '
    ensures c in JoinWithSpaces(words) <==> exists k :: 0 <= k < |words| && c in words[k]
  {
    if |words| > 1 {
      JoinedContains(words[1..], c);
      var rest := JoinWithSpaces(words[1..]);
      assert JoinWithSpaces(words) == words[0] + " " + rest;
      if exists k :: 0 <= k < |words[1..]| && c in words[1..][k] {
        var k :| 0 <= k < |words[1..]| && c in words[1..][k];
        assert c in words[k + 1];
      }
      if exists k :: 0 <= k < |words| && c in words[k] {
        var k :| 0 <= k < |words| && c in words[k];
        if k > 0 {
          assert c in words[1..][k - 1];
        }
      }
    }
  }

  // ---------------------------------------------------------------------------
  // Decimal digits

  predicate IsDigit(c: char) {
    '0' <= c <= '9'
  }

  predicate AllDigits(s: string) {
    forall i :: 0 <= i < |s| ==> IsDigit(s[i])
  }

  function DigitValue(c: char): (v: int)
    requires IsDigit(c)
    ensures 0 <= v <= 9
  {
    c as int - '0' as int
  }

  function DigitChar(v: int): (c: char)
    requires 0 <= v <= 9
    ensures IsDigit(c) && DigitValue(c) == v
  {
    ('0' as int + v) as char
  }

  /** The number a string of decimal digits spells, most significant digit first. */
  function DigitsValue(s: string): (v: nat)
    requires AllDigits(s)
  {
    if s == [] then 0 else DigitsValue(s[..|s| - 1]) * 10 + DigitValue(s[|s| - 1])
  }

  /** "%02d". */
  function Pad2(v: int): (r: string)
    requires 0 <= v <= 99
    ensures |r| == 2 && AllDigits(r) && DigitsValue(r) == v
  {
    var r := [DigitChar(v / 10), DigitChar(v % 10)];
    assert r[..1] == [DigitChar(v / 10)] && r[..1][..0] == [];
    assert DigitsValue(r[..1]) == v / 10;
    r
  }

  /** "%04d". */
  function Pad4(v: int): (r: string)
    requires 0 <= v <= 9999
    ensures |r| == 4 && AllDigits(r) && DigitsValue(r) == v
  {
    var r := Pad2(v / 100) + Pad2(v % 100);
    assert r[..3][..2] == r[..2] == Pad2(v / 100);
    assert DigitsValue(r[..3]) == (v / 100) * 10 + DigitValue(r[2]);
    r
  }

  /** Two digits are the zero-padded rendering of the number they spell. */
  lemma Pad2OfDigits(t: string)
    requires |t| == 2 && AllDigits(t)
    ensures DigitsValue(t) <= 99 && Pad2(DigitsValue(t)) == t
  {
    assert t[..1][..0] == [] && t[..1][0] == t[0];
    var a, b := DigitValue(t[0]), DigitValue(t[1]);
    assert DigitsValue(t[..1]) == a;
    assert DigitsValue(t) == a * 10 + b;
    assert (a * 10 + b) / 10 == a && (a * 10 + b) % 10 == b;
    DigitCharOfValue(t[0]);
    DigitCharOfValue(t[1]);
  }

  lemma DigitCharOfValue(c: char)
    requires IsDigit(c)
    ensures DigitChar(DigitValue(c)) == c
  {
  }

  /** Four digits are the zero-padded rendering of the number they spell. */
  lemma Pad4OfDigits(t: string)
    requires |t| == 4 && AllDigits(t)
    ensures DigitsValue(t) <= 9999 && Pad4(DigitsValue(t)) == t
  {
    var v := DigitsValue(t);
    var hi, lo := t[..2], t[2..];
    Pad2OfDigits(hi);
    Pad2OfDigits(lo);
    var a, b, c, d := DigitValue(t[0]), DigitValue(t[1]), DigitValue(t[2]), DigitValue(t[3]);
    assert t[..3][..2] == hi && hi[..1] == t[..1] && t[..1][..0] == [];
    assert DigitsValue(t[..1]) == a;
    assert DigitsValue(hi) == a * 10 + b;
    assert DigitsValue(t[..3]) == (a * 10 + b) * 10 + c;
    assert v == ((a * 10 + b) * 10 + c) * 10 + d;
    assert lo[..1] == [t[2]] && lo[..1][..0] == [];
    assert DigitsValue(lo[..1]) == c;
    assert DigitsValue(lo) == c * 10 + d;
    assert v / 100 == DigitsValue(hi) && v % 100 == DigitsValue(lo);
    assert t == hi + lo;
  }

  function Pow10(n: nat): (p: nat)
    ensures p >= 1
  {
    if n == 0 then 1 else 10 * Pow10(n - 1)
  }

  lemma AllDigitsConcat(a: string, b: string)
    requires AllDigits(a) && AllDigits(b)
    ensures AllDigits(a + b)
  {
    forall i | 0 <= i < |a + b|
      ensures IsDigit((a + b)[i])
    {
      if i >= |a| {
        assert (a + b)[i] == b[i - |a|];
      }
    }
  }

  lemma ShiftDigit(x: int, p: int, y: int, d: int)
    ensures (x * p + y) * 10 + d == x * (p * 10) + (y * 10 + d)
  {
  }

  /** Digits written after others scale the value of the others by a power of ten. */
  lemma {:induction false} DigitsValueConcat(a: string, b: string)
    requires AllDigits(a) && AllDigits(b)
    ensures AllDigits(a + b) && DigitsValue(a + b) == DigitsValue(a) * Pow10(|b|) + DigitsValue(b)
  {
    AllDigitsConcat(a, b);
    if b == [] {
      assert a + b == a;
    } else {
      var front := b[..|b| - 1];
      DigitsValueConcat(a, front);
      assert (a + b)[..|a + b| - 1] == a + front;
      ShiftDigit(DigitsValue(a), Pow10(|front|), DigitsValue(front), DigitValue(b[|b| - 1]));
    }
  }

  // ---------------------------------------------------------------------------
  // Python's int() on a str (base 10)

  /** Decimal rendering of a natural number without leading zeros: str(n). */
  function NatText(n: nat): (r: string)
    ensures |r| > 0 && AllDigits(r)
    ensures |r| > 1 ==> r[0] != '0'
  {
    if n < 10 then [DigitChar(n)] else NatText(n / 10) + [DigitChar(n % 10)]
  }

  /** str(n) for any integer. */
  function IntText(n: int): string {
    if n < 0 then "-" + NatText(-n) else NatText(n)
  }

  /** Digits with single underscores between them, as int() accepts ("1_000"). */
  predicate IsDigitGroups(b: string) {
    |b| > 0 && IsDigit(b[0]) && IsDigit(b[|b| - 1]) && DigitsOrUnderscores(b) && SingleUnderscores(b)
  }

  predicate DigitsOrUnderscores(b: string) {
    forall i :: 0 <= i < |b| ==> IsDigit(b[i]) || b[i] == '_'
  }

  /** No two underscores in a row. */
  predicate SingleUnderscores(b: string) {
    |b| < 2 || (!(b[0] == '_' && b[1] == '_') && SingleUnderscores(b[1..]))
  }

  function DropUnderscores(b: string): (r: string)
    requires DigitsOrUnderscores(b)
    ensures AllDigits(r)
  {
    if b == [] then []
    else (if b[0] == '_' then [] else [b[0]]) + DropUnderscores(b[1..])
  }

  /** The number unsigned digit groups spell, or None when b is not digit groups. */
  function DigitGroupsValue(b: string): Option<nat> {
    if IsDigitGroups(b) then Some(DigitsValue(DropUnderscores(b))) else None
  }

  /** An optional sign followed by digit groups, with nothing around them. */
  function ParseSigned(t: string): Option<int> {
    if t != [] && (t[0] == '+' || t[0] == '-') then
      match DigitGroupsValue(t[1..])
      case None => None
      case Some(v) => Some(if t[0] == '-' then 0 - v else v)
    else DigitGroupsValue(t)
  }

  /**
   * The whitespace int() ignores around a number: every str.isspace()
   * character except the four separator controls U+001C..U+001F, which
   * int() reads as ASCII and C's isspace() does not skip.
   */
  predicate IsIntSpace(c: char) {
    IsSpace(c) && !('\U{1C}' <= c <= '\U{1F}')
  }

  function IntTrimLeft(s: string): string {
    if s == [] || !IsIntSpace(s[0]) then s else IntTrimLeft(s[1..])
  }

  function IntTrimRight(s: string): string {
    if s == [] || !IsIntSpace(s[|s| - 1]) then s else IntTrimRight(s[..|s| - 1])
  }

  /**
   * int(s): surrounding whitespace is ignored, one optional sign, then digit
   * groups. None stands for the ValueError.
   */
  function ParseInt(s: string): Option<int> {
    ParseSigned(IntTrimRight(IntTrimLeft(s)))
  }

  lemma {:induction false} NatTextValue(n: nat)
    ensures DigitsValue(NatText(n)) == n
  {
    if n >= 10 {
      NatTextValue(n / 10);
      var r := NatText(n);
      assert r[..|r| - 1] == NatText(n / 10);
    }
  }

  lemma {:induction false} DropUnderscoresOfDigits(s: string)
    requires AllDigits(s)
    ensures DropUnderscores(s) == s
  {
    if s != [] {
      DropUnderscoresOfDigits(s[1..]);
    }
  }

  lemma {:induction false} DigitsHaveSingleUnderscores(d: string)
    requires AllDigits(d)
    ensures SingleUnderscores(d)
  {
    if |d| >= 2 {
      DigitsHaveSingleUnderscores(d[1..]);
    }
  }

  /** A non-empty digit string is digit groups spelling its own value. */
  lemma DigitGroupsOfDigits(d: string)
    requires |d| > 0 && AllDigits(d)
    ensures DigitGroupsValue(d) == Some(DigitsValue(d))
  {
    DropUnderscoresOfDigits(d);
    DigitsHaveSingleUnderscores(d);
  }

  /** Text without surrounding whitespace is read by int() as it stands. */
  lemma ParseIntUnpadded(t: string)
    requires t == [] || (!IsIntSpace(t[0]) && !IsIntSpace(t[|t| - 1]))
    ensures ParseInt(t) == ParseSigned(t)
  {
  }

  /**
   * The separator controls are whitespace to str.strip() but not to int():
   * int("\x1c5") is a ValueError.
   */
  lemma SeparatorControlIsNotIntSpace()
    ensures Strip("\U{1C}5") == "5" && ParseInt("5") == Some(5)
    ensures ParseInt("\U{1C}5") == None
  {
    assert StripLeft("\U{1C}5") == StripLeft("5") == "5";
    DigitGroupsOfDigits("5");
  }

  /** int() of a digit string without sign or padding is the number it spells. */
  lemma ParseIntOfDigits(d: string)
    requires |d| > 0 && AllDigits(d)
    ensures ParseInt(d) == Some(DigitsValue(d))
  {
    DigitGroupsOfDigits(d);
    assert ParseSigned(d) == Some(DigitsValue(d));
    ParseIntUnpadded(d);
  }

  /** int() of a minus sign followed by digits is the negated number they spell. */
  lemma ParseIntOfNegated(t: string)
    requires |t| > 1 && t[0] == '-' && AllDigits(t[1..])
    ensures ParseInt(t) == Some(0 - DigitsValue(t[1..]))
  {
    DigitGroupsOfDigits(t[1..]);
    assert ParseSigned(t) == Some(0 - DigitsValue(t[1..]));
    assert IsDigit(t[1..][|t| - 2]);
    ParseIntUnpadded(t);
  }

  /** int(str(n)) == n. */
  lemma IntTextRoundTrip(n: int)
    ensures ParseInt(IntText(n)) == Some(n)
  {
    if n < 0 {
      var d := NatText(-n);
      NatTextValue(-n);
      assert IntText(n)[1..] == d;
      ParseIntOfNegated(IntText(n));
    } else {
      NatTextValue(n);
      ParseIntOfDigits(NatText(n));
    }
  }
}
