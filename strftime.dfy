/** The C library conversions the watch face relies on, as functions over
    strings: the `strftime` conversions %W, %H, %I, %M, %Y, %m and %d
    (section 7.27.3.5 of ISO/IEC 9899:2011), `snprintf`'s truncation and
    "%d" (section 7.21.6.5), and `atoi` (section 7.22.1.2). */
module Strftime {

  /** The fields of `struct tm` (section 7.27.1 of ISO/IEC 9899:2011) that
      the watch face reads. `year` counts years since 1900, `mon` months
      since January, `wday` days since Sunday, `yday` days since January 1. */
  datatype Tm = Tm(min: int, hour: int, mday: int, mon: int, year: int, wday: int, yday: int)
  {
    /** The ranges `localtime` produces, with the calendar year written in
        four digits. */
    predicate Valid() {
      && 0 <= min <= 59
      && 0 <= hour <= 23
      && 1 <= mday <= 31
      && 0 <= mon <= 11
      && 1000 <= year + 1900 <= 9999
      && 0 <= wday <= 6
      && 0 <= yday <= 365
    }
  }

  /** `strftime` stores its text only when the text and its terminating
      null character fit in `size` bytes. */
  predicate FitsBuffer(text: string, size: nat) {
    |text| + 1 <= size
  }

  predicate IsDigit(c: char) {
    '0' <= c <= '9'
  }

  predicate AllDigits(s: string) {
    forall i | 0 <= i < |s| :: IsDigit(s[i])
  }

  /** The characters C's `isspace` accepts in the "C" locale. */
  predicate IsSpace(c: char) {
    c == ' ' || 9 <= c as int <= 13
  }

  function DigitValue(c: char): (d: nat)
    requires IsDigit(c)
    ensures d < 10
  {
    c as int - '0' as int
  }

  function DigitChar(d: nat): (c: char)
    requires d < 10
    ensures IsDigit(c) && DigitValue(c) == d
  {
    (d + '0' as int) as char
  }

  function Pow10(k: nat): (p: nat)
    ensures p >= 1
  {
    if k == 0 then 1 else 10 * Pow10(k - 1)
  }

  /** The decimal numeral of `n`: digits only, most significant first,
      with no leading zero. */
  function DecimalText(n: nat): (s: string)
    ensures s != [] && AllDigits(s)
    ensures (|s| == 1) == (n < 10)
    ensures |s| > 1 ==> s[0] != '0'
    decreases n
  {
    if n < 10 then [DigitChar(n)] else DecimalText(n / 10) + [DigitChar(n % 10)]
  }

  /** "%d" of `printf`: a minus sign before the numeral of a negative value;
      the numeral has no leading zero. */
  function IntText(n: int): (s: string)
    ensures s != []
    ensures (s[0] == '-') == (n < 0)
    ensures var digits := if n < 0 then s[1..] else s;
      digits != [] && AllDigits(digits) && (|digits| > 1 ==> digits[0] != '0')
  {
    if n < 0 then
      var d := DecimalText(-n);
      assert ("-" + d)[1..] == d;
      "-" + d
    else DecimalText(n)
  }

  /** A two-digit conversion such as %W, %H, %I, %M, %m and %d: the numeral
      padded on the left with '0' to at least two characters. */
  function Pad2(n: nat): (s: string)
    ensures |s| >= 2 && AllDigits(s)
    ensures n < 10 ==> s[0] == '0'
  {
    if n < 10 then ['0'] + DecimalText(n) else DecimalText(n)
  }

  /** Value of a string of digits, most significant first. */
  function DigitsValue(s: string): nat
    requires AllDigits(s)
  {
    if s == [] then 0 else 10 * DigitsValue(s[..|s| - 1]) + DigitValue(s[|s| - 1])
  }

  /** The longest prefix of `s` made of digits. */
  function LeadingDigits(s: string): (p: string)
    ensures AllDigits(p) && p <= s
    ensures |p| < |s| ==> !IsDigit(s[|p|])
  {
    if s != [] && IsDigit(s[0]) then [s[0]] + LeadingDigits(s[1..]) else []
  }

  /** `atoi`: skips leading white space, reads an optional sign and then the
      longest run of decimal digits (none reads as 0). */
  function Atoi(s: string): (n: int)
    ensures (forall i | 0 <= i < |s| :: !IsDigit(s[i])) ==> n == 0
  {
    if s == [] then 0
    else if IsSpace(s[0]) then Atoi(s[1..])
    else if s[0] == '-' then 0 - DigitsValue(LeadingDigits(s[1..]))
    else if s[0] == '+' then DigitsValue(LeadingDigits(s[1..]))
    else DigitsValue(LeadingDigits(s))
  }

  /** Without a minus sign `atoi` never reads a negative value. */
  lemma {:induction false} AtoiWithoutMinus(s: string)
    requires '-' !in s
    ensures Atoi(s) >= 0
    decreases |s|
  {
    if s != [] && IsSpace(s[0]) {
      assert '-' !in s[1..] by {
        forall i | 0 <= i < |s[1..]| ensures s[1..][i] != '-' {
          assert s[1..][i] == s[i + 1];
        }
      }
      AtoiWithoutMinus(s[1..]);
    }
  }

  /** `snprintf` into a buffer of `size` bytes keeps at most `size - 1`
      characters of the formatted text. */
  function Snprintf(size: nat, text: string): (s: string)
    requires size > 0
    ensures |s| < size && s <= text
    ensures |text| < size ==> s == text
    ensures |text| >= size ==> |s| == size - 1
  {
    if |text| < size then text else text[..size - 1]
  }

  /** The 12-hour clock hour of %I: 0 and 12 read as 12. */
  function Hour12(hour: nat): (h: nat)
    ensures 1 <= h <= 12
    ensures h % 12 == hour % 12
  {
    if hour % 12 == 0 then 12 else hour % 12
  }

  /** The hour shown by "%H" (24-hour clock) or "%I" (12-hour clock). */
  function ClockHour(hour: nat, is24h: bool): nat
  {
    if is24h then hour else Hour12(hour)
  }

  /** %W: the week number of the year, week 1 starting on the year's first
      Monday; the days before it are in week 0. */
  function WeekOfYear(yday: nat, wday: int): (w: nat)
    requires 0 <= wday <= 6
    ensures yday <= 365 ==> w <= 53
  {
    (yday + 7 - (wday + 6) % 7) / 7
  }

  /** Reference definition of %W: the number of Mondays among days 0 to
      `yday` of the year, where day `yday` falls on weekday `wday`. */
  function MondaysThrough(yday: nat, wday: int): nat
    requires 0 <= wday <= 6
    decreases yday
  {
    (if wday == 1 then 1 else 0) + (if yday == 0 then 0 else MondaysThrough(yday - 1, (wday + 6) % 7))
  }

  /** "%H:%M" (24-hour) or "%I:%M" (12-hour): two zero-padded two-digit
      fields around a ':'. */
  function TimeText(t: Tm, is24h: bool): (s: string)
    requires t.Valid()
    ensures |s| == 5 && s[2] == ':'
    ensures AllDigits(s[..2]) && AllDigits(s[3..])
  {
    var h, m := Pad2(ClockHour(t.hour, is24h)), Pad2(t.min);
    Pad2Width(ClockHour(t.hour, is24h));
    Pad2Width(t.min);
    assert (h + ":" + m)[..2] == h && (h + ":" + m)[3..] == m;
    h + ":" + m
  }

  /** "%Y-%m-%d": a four-digit year and zero-padded two-digit month and
      day, separated by '-'. */
  function DateText(t: Tm): (s: string)
    requires t.Valid()
    ensures |s| == 10 && s[4] == '-' && s[7] == '-'
    ensures AllDigits(s[..4]) && AllDigits(s[5..7]) && AllDigits(s[8..])
  {
    var y, m, d := DecimalText(t.year + 1900), Pad2(t.mon + 1), Pad2(t.mday);
    YearWidth(t.year + 1900);
    Pad2Width(t.mon + 1);
    Pad2Width(t.mday);
    DashedSlices(y, m, d);
    y + (['-'] + (m + (['-'] + d)))
  }

  /** Where the fields of a dashed date sit. */
  lemma DashedSlices(y: string, m: string, d: string)
    requires |y| == 4 && |m| == 2 && |d| == 2
    ensures var s := y + (['-'] + (m + (['-'] + d)));
      && |s| == 10 && s[4] == '-' && s[7] == '-'
      && s[..4] == y && s[5..7] == m && s[8..] == d
  {
    var s := y + (['-'] + (m + (['-'] + d)));
    assert s[..4] == y;
    assert s[5..7] == m by {
      DropAfter(y, ['-'] + (m + (['-'] + d)), 1);
    }
    assert s[8..] == d by {
      DropAfter(y, ['-'] + (m + (['-'] + d)), 4);
      DropAfter(m, ['-'] + d, 1);
    }
  }

  /** The text %W produces for `t`. */
  function WeekNumberText(t: Tm): string
    requires t.Valid()
  {
    Pad2(WeekOfYear(t.yday, t.wday))
  }

  // Lemmas about the numerals and their parsing.

  lemma {:induction false} DecimalLength(n: nat, k: nat)
    requires k >= 1
    ensures |DecimalText(n)| <= k <==> n < Pow10(k)
    decreases n
  {
    assert Pow10(k) == 10 * Pow10(k - 1);
    if n >= 10 && k > 1 {
      DecimalLength(n / 10, k - 1);
      assert n / 10 < Pow10(k - 1) <==> n < 10 * Pow10(k - 1);
    }
  }

  lemma YearWidth(y: nat)
    requires 1000 <= y <= 9999
    ensures |DecimalText(y)| == 4
  {
    assert Pow10(3) == 1000 && Pow10(4) == 10000;
    DecimalLength(y, 4);
    DecimalLength(y, 3);
  }

  lemma Pad2Width(n: nat)
    ensures n < 100 ==> |Pad2(n)| == 2
  {
    DecimalLength(n, 2);
    DecimalLength(n, 1);
  }

  lemma {:induction false} DigitsValueOfDecimal(n: nat)
    ensures DigitsValue(DecimalText(n)) == n
    decreases n
  {
    if n >= 10 {
      var s := DecimalText(n);
      assert s[..|s| - 1] == DecimalText(n / 10);
      DigitsValueOfDecimal(n / 10);
    }
  }

  lemma {:induction false} DigitsValueLeadingZero(s: string)
    requires AllDigits(s)
    ensures AllDigits(['0'] + s) && DigitsValue(['0'] + s) == DigitsValue(s)
    decreases |s|
  {
    var z := ['0'] + s;
    if s == [] {
      assert z[..|z| - 1] == [];
    } else {
      assert z[..|z| - 1] == ['0'] + s[..|s| - 1];
      DigitsValueLeadingZero(s[..|s| - 1]);
    }
  }

  lemma Pad2Value(n: nat)
    ensures DigitsValue(Pad2(n)) == n
  {
    DigitsValueOfDecimal(n);
    if n < 10 {
      DigitsValueLeadingZero(DecimalText(n));
    }
  }

  /** A run of digits followed by a non-digit is read up to the non-digit. */
  lemma {:induction false} LeadingDigitsStop(d: string, rest: string)
    requires AllDigits(d)
    requires rest == [] || !IsDigit(rest[0])
    ensures LeadingDigits(d + rest) == d
    decreases |d|
  {
    if d != [] {
      assert (d + rest)[1..] == d[1..] + rest;
      LeadingDigitsStop(d[1..], rest);
    }
  }

  /** `atoi` of a numeral followed by a non-digit is the numeral's value. */
  lemma AtoiDigitsThen(d: string, rest: string)
    requires d != [] && AllDigits(d)
    requires rest == [] || !IsDigit(rest[0])
    ensures Atoi(d + rest) == DigitsValue(d)
  {
    assert (d + rest)[0] == d[0];
    LeadingDigitsStop(d, rest);
  }

  /** `atoi` inverts the two-digit conversions. */
  lemma AtoiPad2(n: nat)
    ensures Atoi(Pad2(n)) == n
  {
    Pad2Value(n);
    AtoiDigitsThen(Pad2(n), []);
    assert Pad2(n) + [] == Pad2(n);
  }

  /** `atoi` inverts "%d". */
  lemma AtoiIntText(n: int)
    ensures Atoi(IntText(n)) == n
  {
    if n < 0 {
      DigitsValueOfDecimal(-n);
      AtoiNegative(DecimalText(-n));
    } else {
      DigitsValueOfDecimal(n);
      AtoiDigitsThen(DecimalText(n), []);
      assert DecimalText(n) + [] == DecimalText(n);
    }
  }

  /** `atoi` of a minus sign and a numeral is the numeral's value negated. */
  lemma AtoiNegative(d: string)
    requires d != [] && AllDigits(d)
    ensures Atoi("-" + d) == 0 - DigitsValue(d)
  {
    var s := "-" + d;
    assert s[0] == '-' && !IsSpace(s[0]);
    assert s[1..] == d + [];
    LeadingDigitsStop(d, []);
  }

  /** Three numerals joined by '-' read back one by one. */
  lemma DashedFields(s: string, y: string, m: string, d: string)
    requires |y| == 4 && |m| == 2 && |d| == 2
    requires AllDigits(y) && AllDigits(m) && AllDigits(d)
    requires s == y + (['-'] + (m + (['-'] + d)))
    ensures Atoi(s) == DigitsValue(y) && Atoi(s[5..]) == DigitsValue(m) && Atoi(s[8..]) == DigitsValue(d)
  {
    var afterMonth := ['-'] + d;
    var afterYear := ['-'] + (m + afterMonth);
    AtoiDigitsThen(y, afterYear);
    assert s[5..] == m + afterMonth by {
      DropAfter(y, afterYear, 1);
    }
    AtoiDigitsThen(m, afterMonth);
    assert s[8..] == d + [] by {
      DropAfter(y, afterYear, 4);
      DropAfter(m, afterMonth, 1);
    }
    AtoiDigitsThen(d, []);
  }

  lemma DropAfter(a: string, b: string, k: nat)
    requires k <= |b|
    ensures (a + b)[|a| + k..] == b[k..]
  {
  }

  /** The clock text shows the hour of the chosen clock and the minute:
      both read back with `atoi`. */
  lemma TimeTextReadsBack(t: Tm, is24h: bool)
    requires t.Valid()
    ensures var s := TimeText(t, is24h);
      Atoi(s) == ClockHour(t.hour, is24h) && Atoi(s[3..]) == t.min
  {
    var h, m := Pad2(ClockHour(t.hour, is24h)), Pad2(t.min);
    Pad2Width(ClockHour(t.hour, is24h));
    Pad2Width(t.min);
    Pad2Value(ClockHour(t.hour, is24h));
    Pad2Value(t.min);
    assert TimeText(t, is24h) == h + (":" + m);
    AtoiDigitsThen(h, ":" + m);
    assert TimeText(t, is24h)[3..] == m + [];
    AtoiDigitsThen(m, []);
  }

  /** The date text shows the calendar year, the month (1 to 12) and the
      day of the month: all three read back with `atoi`. */
  lemma DateTextReadsBack(t: Tm)
    requires t.Valid()
    ensures var s := DateText(t);
      Atoi(s) == t.year + 1900 && Atoi(s[5..]) == t.mon + 1 && Atoi(s[8..]) == t.mday
  {
    var y, m, d := DecimalText(t.year + 1900), Pad2(t.mon + 1), Pad2(t.mday);
    assert DigitsValue(y) == t.year + 1900 by {
      DigitsValueOfDecimal(t.year + 1900);
    }
    assert DigitsValue(m) == t.mon + 1 && DigitsValue(d) == t.mday by {
      Pad2Value(t.mon + 1);
      Pad2Value(t.mday);
    }
    assert |y| == 4 && |m| == 2 && |d| == 2 by {
      YearWidth(t.year + 1900);
      Pad2Width(t.mon + 1);
      Pad2Width(t.mday);
    }
    assert DateText(t) == y + (['-'] + (m + (['-'] + d)));
    DashedFields(DateText(t), y, m, d);
  }

  /** The %W formula counts the Mondays of the year up to and including the
      given day. */
  lemma WeekOfYearCountsMondays(yday: nat, wday: int)
    requires 0 <= wday <= 6
    ensures WeekOfYear(yday, wday) == MondaysThrough(yday, wday)
  {
    var sinceMonday := DaysSinceMonday(wday);
    MondaysBounds(yday, wday);
    DivBySeven(yday + 7 - sinceMonday, MondaysThrough(yday, wday));
  }

  /** Days since the last Monday for weekday `wday`: 0 on a Monday. */
  function DaysSinceMonday(wday: int): (k: int)
    requires 0 <= wday <= 6
    ensures 0 <= k <= 6 && k == (wday + 6) % 7
  {
    if wday == 0 then 6 else wday - 1
  }

  /** The Monday count pins down the quotient of the %W formula. */
  lemma {:induction false} MondaysBounds(yday: nat, wday: int)
    requires 0 <= wday <= 6
    ensures var mondays := MondaysThrough(yday, wday);
      7 * mondays <= yday + 7 - DaysSinceMonday(wday) < 7 * mondays + 7
    decreases yday
  {
    if yday > 0 {
      var prev := (wday + 6) % 7;
      MondaysBounds(yday - 1, prev);
      assert DaysSinceMonday(prev) == if wday == 1 then 6 else DaysSinceMonday(wday) - 1;
    }
  }

  lemma DivBySeven(a: int, q: int)
    requires 7 * q <= a < 7 * q + 7
    ensures a / 7 == q
  {
  }
}
