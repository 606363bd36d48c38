/** Optional values: a JSON field that may be null, or a parse that may fail. */
module Wrappers {
  datatype Option<T> = None | Some(value: T)
}

/**
 * The three textual time formats of the work log, over minute counts:
 *  - MinutesToHhmm / HhmmToMinutes, the manager's own "HH:MM" writer and reader
 *    (the reader splits on ':' and applies Python's int() to both halves);
 *  - StrptimeHM, datetime.strptime(text, "%H:%M") as used by the summary,
 *    giving a minute of the day;
 *  - ClockText, strftime("%H:%M") of the wall clock.
 */
module TimeText {
  import opened Wrappers

  predicate IsDigit(c: char) { '0' <= c <= '9' }

  function DigitValue(c: char): (d: nat)
    requires IsDigit(c)
    ensures d < 10
  {
    (c as int) - ('0' as int)
  }

  function DigitChar(d: nat): (c: char)
    requires d < 10
    ensures IsDigit(c) && DigitValue(c) == d
  {
    (('0' as int) + d) as char
  }

  predicate AllDigits(s: string) { forall i | 0 <= i < |s| :: IsDigit(s[i]) }

  predicate NoSep(s: string, sep: char) { forall i | 0 <= i < |s| :: s[i] != sep }

  /** The decimal numeral of n, most significant digit first, without leading zeros. */
  function Decimal(n: nat): (r: string)
    ensures 1 <= |r| && AllDigits(r)
    ensures n < 10 <==> |r| == 1
  {
    if n < 10 then [DigitChar(n)] else Decimal(n / 10) + [DigitChar(n % 10)]
  }

  // ---------------------------------------------------------------- Python int()

  /** The ASCII characters Python's int() strips as whitespace. */
  predicate IsSpace(c: char) {
    var k := c as int;
    k == 32 || 9 <= k <= 13 || 28 <= k <= 31
  }

  function TrimLeft(s: string): string {
    if s != [] && IsSpace(s[0]) then TrimLeft(s[1..]) else s
  }

  function TrimRight(s: string): string {
    if s != [] && IsSpace(s[|s| - 1]) then TrimRight(s[..|s| - 1]) else s
  }

  predicate DigitsOrUnderscores(s: string) {
    forall i | 0 <= i < |s| :: IsDigit(s[i]) || s[i] == '_'
  }

  /** Decimal digits, where a single underscore may stand between two digits. */
  predicate IsDigitGroup(s: string) {
    |s| >= 1 && IsDigit(s[0]) &&
    forall i | 0 <= i < |s| :: IsDigit(s[i]) || (s[i] == '_' && i + 1 < |s| && IsDigit(s[i + 1]))
  }

  /** The number a digit group denotes; underscores carry no value. */
  function DigitsValue(s: string): nat
    requires DigitsOrUnderscores(s)
  {
    if s == [] then 0
    else if s[|s| - 1] == '_' then DigitsValue(s[..|s| - 1])
    else DigitsValue(s[..|s| - 1]) * 10 + DigitValue(s[|s| - 1])
  }

  /** Python's int(text) on a str, base 10; None where it raises ValueError. */
  function ParseInt(text: string): Option<int> {
    var t := TrimRight(TrimLeft(text));
    if t != [] && (t[0] == '+' || t[0] == '-') then
      if IsDigitGroup(t[1..]) then
        var v: int := DigitsValue(t[1..]);
        Some(if t[0] == '-' then -v else v)
      else None
    else if IsDigitGroup(t) then Some(DigitsValue(t))
    else None
  }

  /** Python's text.split(sep): the pieces between the occurrences of sep. */
  function Split(text: string, sep: char): (parts: seq<string>)
    ensures |parts| >= 1
  {
    if text == [] then [[]]
    else
      var rest := Split(text[1..], sep);
      if text[0] == sep then [[]] + rest else [[text[0]] + rest[0]] + rest[1..]
  }

  // ---------------------------------------------------------------- HH:MM writer and reader

  /** Python's format(n, "02"): zero-padded to width two, a minus sign counting towards the width. */
  function Format02(n: int): (r: string)
    ensures NoSep(r, ':')
    ensures n >= 0 ==> 2 <= |r| && AllDigits(r)
    ensures n < 0 ==> 2 <= |r| && r[0] == '-' && AllDigits(r[1..])
  {
    if n < 0 then ['-'] + Decimal(-n)
    else if n < 10 then ['0'] + Decimal(n)
    else Decimal(n)
  }

  /** _minutes_to_hhmm: floor quotient and remainder by 60 (Euclidean here, the same for a positive divisor). */
  function MinutesToHhmm(minutes: int): string {
    Format02(minutes / 60) + [':'] + Format02(minutes % 60)
  }

  /** _hhmm_to_minutes; None where the source raises ValueError (not exactly two pieces, or a piece int() refuses). */
  function HhmmToMinutes(hhmm: string): Option<int> {
    var parts := Split(hhmm, ':');
    if |parts| != 2 then None
    else
      match (ParseInt(parts[0]), ParseInt(parts[1]))
      case (Some(h), Some(m)) => Some(h * 60 + m)
      case _ => None
  }

  // ---------------------------------------------------------------- strptime and strftime with "%H:%M"

  /** The minute directive of strptime: "[0-5]\d" or "\d", and nothing may follow it. */
  function MinuteField(t: string): (r: Option<nat>)
    ensures r.Some? ==> r.value < 60
  {
    if |t| == 2 && IsDigit(t[0]) && t[0] <= '5' && IsDigit(t[1]) then Some(10 * DigitValue(t[0]) + DigitValue(t[1]))
    else if |t| == 1 && IsDigit(t[0]) then Some(DigitValue(t[0]))
    else None
  }

  /**
   * datetime.strptime(text, "%H:%M") as a minute of the day: the hour directive is
   * "2[0-3]|[0-1]\d|\d", then ':', then the minute directive; None where it raises ValueError.
   */
  function StrptimeHM(text: string): (r: Option<int>)
    ensures r.Some? ==> 0 <= r.value < 24 * 60
  {
    if |text| >= 3 && IsDigit(text[0]) && IsDigit(text[1]) && text[2] == ':'
       && (text[0] <= '1' || (text[0] == '2' && text[1] <= '3')) then
      match MinuteField(text[3..])
      case Some(m) => Some(60 * (10 * DigitValue(text[0]) + DigitValue(text[1])) + m)
      case None => None
    else if |text| >= 2 && IsDigit(text[0]) && text[1] == ':' then
      match MinuteField(text[2..])
      case Some(m) => Some(60 * DigitValue(text[0]) + m)
      case None => None
    else None
  }

  function TwoDigits(n: nat): (r: string)
    requires n < 100
    ensures |r| == 2 && AllDigits(r)
  {
    [DigitChar(n / 10), DigitChar(n % 10)]
  }

  /** strftime("%H:%M") of the clock, given as a minute of the day. */
  function ClockText(minuteOfDay: int): string
    requires 0 <= minuteOfDay < 24 * 60
  {
    TwoDigits(minuteOfDay / 60) + [':'] + TwoDigits(minuteOfDay % 60)
  }

  // ---------------------------------------------------------------- lemmas

  lemma {:induction false} DecimalValue(n: nat)
    ensures DigitsOrUnderscores(Decimal(n)) && DigitsValue(Decimal(n)) == n
  {
    if n >= 10 {
      DecimalValue(n / 10);
      var p := Decimal(n / 10);
      assert (p + [DigitChar(n % 10)])[..|p|] == p;
    }
  }

  lemma {:induction false} LeadingZero(s: string)
    requires DigitsOrUnderscores(s)
    ensures DigitsOrUnderscores(['0'] + s) && DigitsValue(['0'] + s) == DigitsValue(s)
  {
    if s != [] {
      var p := s[..|s| - 1];
      LeadingZero(p);
      assert (['0'] + s)[..|s|] == ['0'] + p;
    }
  }

  /** int() of plain digits is their value. */
  lemma ParseDigits(s: string)
    requires 1 <= |s| && AllDigits(s)
    ensures ParseInt(s) == Some(DigitsValue(s))
  {
    assert TrimLeft(s) == s;
    assert TrimRight(s) == s;
    assert IsDigitGroup(s);
  }

  /** int() of a minus sign and plain digits is the negated value. */
  lemma ParseNegative(s: string)
    requires 1 <= |s| && AllDigits(s)
    ensures ParseInt(['-'] + s) == Some(-(DigitsValue(s) as int))
  {
    var t := ['-'] + s;
    assert TrimLeft(t) == t;
    assert TrimRight(t) == t;
    assert t[1..] == s;
    assert IsDigitGroup(s);
  }

  /** Python's int() reads back every numeral Format02 writes. */
  lemma ParseFormat02(n: int)
    ensures ParseInt(Format02(n)) == Some(n)
  {
    if n < 0 {
      var d := Decimal(-n);
      assert ParseInt(['-'] + d) == Some(n) by {
        DecimalValue(-n);
        ParseNegative(d);
      }
      assert Format02(n) == ['-'] + d;
    } else if n < 10 {
      var d := Decimal(n);
      assert ParseInt(['0'] + d) == Some(n) by {
        DecimalValue(n);
        LeadingZero(d);
        ParseDigits(['0'] + d);
      }
      assert Format02(n) == ['0'] + d;
    } else {
      assert ParseInt(Decimal(n)) == Some(n) by {
        DecimalValue(n);
        ParseDigits(Decimal(n));
      }
    }
  }

  lemma {:induction false} SplitNoSep(s: string, sep: char)
    requires NoSep(s, sep)
    ensures Split(s, sep) == [s]
  {
    if s != [] {
      SplitNoSep(s[1..], sep);
      assert s == [s[0]] + s[1..];
    }
  }

  lemma {:induction false} SplitAtSep(a: string, b: string, sep: char)
    requires NoSep(a, sep) && NoSep(b, sep)
    ensures Split(a + [sep] + b, sep) == [a, b]
  {
    if a == [] {
      assert a + [sep] + b == [sep] + b;
      SplitNoSep(b, sep);
    } else {
      SplitAtSep(a[1..], b, sep);
      assert (a + [sep] + b)[1..] == a[1..] + [sep] + b;
      assert (a + [sep] + b)[0] == a[0] != sep;
      assert a == [a[0]] + a[1..];
    }
  }

  /** Reading back what the writer produced gives the same number, for every minute count. */
  lemma MinutesRoundTrip(m: int)
    ensures HhmmToMinutes(MinutesToHhmm(m)) == Some(m)
  {
    var h, mm := Format02(m / 60), Format02(m % 60);
    assert Split(MinutesToHhmm(m), ':') == [h, mm] by {
      SplitAtSep(h, mm, ':');
    }
    assert ParseInt(h) == Some(m / 60) by {
      ParseFormat02(m / 60);
    }
    assert ParseInt(mm) == Some(m % 60) by {
      ParseFormat02(m % 60);
    }
  }

  /** The "00:00" of a new day's summary reads as zero. */
  lemma ZeroReadsBack()
    ensures MinutesToHhmm(0) == "00:00" && HhmmToMinutes("00:00") == Some(0)
  {
    assert Decimal(0) == "0";
    MinutesRoundTrip(0);
  }

  /** For a non-negative count the hours field has at least two digits and the minutes field exactly two. */
  lemma HhmmShape(m: int)
    requires m >= 0
    ensures exists h: string, mm: string ::
              (MinutesToHhmm(m) == h + [':'] + mm && 2 <= |h| && AllDigits(h) && |mm| == 2 && AllDigits(mm))
  {
    var h, mm := Format02(m / 60), Format02(m % 60);
    assert MinutesToHhmm(m) == h + [':'] + mm;
  }

  /** The clock's text always parses back to the minute it was made from. */
  lemma ClockTextParses(t: int)
    requires 0 <= t < 24 * 60
    ensures StrptimeHM(ClockText(t)) == Some(t)
  {
    var s := ClockText(t);
    assert s[3..] == TwoDigits(t % 60);
  }

  /** Within a day the clock's text and the manager's writer agree. */
  lemma ClockTextIsHhmm(t: int)
    requires 0 <= t < 24 * 60
    ensures ClockText(t) == MinutesToHhmm(t)
  {
    Format02IsTwoDigits(t / 60);
    Format02IsTwoDigits(t % 60);
  }

  /** Below 100, Python's "02" format and strftime's two-digit field agree. */
  lemma Format02IsTwoDigits(n: int)
    requires 0 <= n < 100
    ensures Format02(n) == TwoDigits(n)
  {
    if n >= 10 {
      assert Decimal(n) == Decimal(n / 10) + [DigitChar(n % 10)];
    }
  }

  lemma ShortNumeral(s: string)
    requires 1 <= |s| <= 2 && AllDigits(s)
    ensures ParseInt(s) == Some(ParseValue(s))
  {
    assert TrimLeft(s) == s;
    assert TrimRight(s) == s;
    assert IsDigitGroup(s);
    if |s| == 2 {
      assert s[..1] == [s[0]];
      assert DigitsValue(s[..1]) == DigitValue(s[0]);
      assert DigitsValue(s) == DigitsValue(s[..1]) * 10 + DigitValue(s[1]);
    } else {
      assert DigitsValue(s) == DigitsValue(s[..0]) * 10 + DigitValue(s[0]);
    }
  }

  /** Every text the summary's strptime accepts, _hhmm_to_minutes also accepts, with the same value. */
  lemma StrptimeAgreesWithReader(text: string)
    requires StrptimeHM(text).Some?
    ensures HhmmToMinutes(text) == StrptimeHM(text)
  {
    var k := if |text| >= 3 && IsDigit(text[0]) && IsDigit(text[1]) && text[2] == ':' then 2 else 1;
    var h, m := text[..k], text[k + 1..];
    var minute := MinuteField(m);
    assert minute.Some? && AllDigits(m) && 1 <= |m| <= 2;
    assert StrptimeHM(text) == Some(60 * ParseValue(h) + minute.value);
    assert text == h + [':'] + m;
    SplitAtSep(h, m, ':');
    ShortNumeral(h);
    ShortNumeral(m);
  }

  /** The value of a one- or two-digit numeral. */
  function ParseValue(s: string): nat
    requires 1 <= |s| <= 2 && AllDigits(s)
  {
    if |s| == 1 then DigitValue(s[0]) else 10 * DigitValue(s[0]) + DigitValue(s[1])
  }
}
