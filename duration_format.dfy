/**
 * formatted_str_from_minutes of main.py: minutes written as "Xh Ym", and a
 * reader for that notation that recovers the number of minutes.
 */
module DurationFormat {

  import opened Wrappers

  predicate IsDigit(c: char)
  {
    '0' <= c <= '9'
  }

  predicate AllDigits(s: string)
  {
    forall i :: 0 <= i < |s| ==> IsDigit(s[i])
  }

  function DigitChar(d: nat): (c: char)
    requires d < 10
    ensures IsDigit(c)
  {
    ('0' as int + d) as char
  }

  function DigitValue(c: char): nat
    requires IsDigit(c)
  {
    c as int - '0' as int
  }

  /** Python's str() of a non-negative int. */
  function Decimal(n: nat): (s: string)
    ensures s != [] && AllDigits(s)
  {
    if n < 10 then [DigitChar(n)] else Decimal(n / 10) + [DigitChar(n % 10)]
  }

  function DecimalValue(s: string): nat
    requires AllDigits(s)
  {
    if s == [] then 0 else DecimalValue(s[..|s| - 1]) * 10 + DigitValue(s[|s| - 1])
  }

  lemma {:induction false} DecimalRoundTrip(n: nat)
    ensures DecimalValue(Decimal(n)) == n
  {
    if n >= 10 {
      DecimalRoundTrip(n / 10);
      var s := Decimal(n);
      assert s[..|s| - 1] == Decimal(n / 10);
    }
  }

  // ---------------------------------------------------------------------------
  // The formatter

  /**
   * divmod(overallMinutes, 60) is floor division; for the positive divisor 60
   * it agrees with Dafny's Euclidean `/` and `%`.
   */
  function FormatMinutes(overallMinutes: int, minimal: bool): (r: string)
    ensures minimal ==> r != [] && r[|r| - 1] == (if overallMinutes >= 60 then 'h' else 'm')
    ensures r != [] ==> r[|r| - 1] == 'h' || r[|r| - 1] == 'm'
  {
    var hours, minutes := overallMinutes / 60, overallMinutes % 60;
    if minimal then
      (if hours > 0 then Decimal(hours) + "h" else Decimal(minutes) + "m")
    else
      var full := (if hours > 0 then Decimal(hours) + "h " else "") + (if minutes > 0 then Decimal(minutes) + "m " else "");
      DropLast(full)
  }

  /** Python's s[:-1]: the string without its last character ("" stays ""). */
  function DropLast(s: string): string
  {
    if s == [] then [] else s[..|s| - 1]
  }

  // ---------------------------------------------------------------------------
  // The reader: space-separated parts "<digits>h" and "<digits>m"

  /** Splits off the longest prefix of decimal digits. */
  function SplitDigits(s: string): (p: (string, string))
    ensures p.0 + p.1 == s && AllDigits(p.0)
    ensures p.1 == [] || !IsDigit(p.1[0])
  {
    if s != [] && IsDigit(s[0]) then
      var rest := SplitDigits(s[1..]);
      ([s[0]] + rest.0, rest.1)
    else ([], s)
  }

  function AddTo(v: int, rest: Option<int>): Option<int>
  {
    match rest
    case None => None
    case Some(w) => Some(v + w)
  }

  /** The minutes one part "<digits><unit>" stands for. */
  function PartValue(digits: string, unit: char): int
    requires AllDigits(digits)
  {
    DecimalValue(digits) * (if unit == 'h' then 60 else 1)
  }

  /** The number of minutes a "Xh Ym"-style string denotes, or None if it is not one. */
  function ParseDuration(s: string): Option<int>
    decreases |s|
  {
    if s == [] then Some(0)
    else
      var p := SplitDigits(s);
      if p.0 == [] || p.1 == [] || (p.1[0] != 'h' && p.1[0] != 'm') then None
      else
        var tail := p.1[1..];
        if tail == [] then Some(PartValue(p.0, p.1[0]))
        else if tail[0] != ' ' || |tail| == 1 then None
        else AddTo(PartValue(p.0, p.1[0]), ParseDuration(tail[1..]))
  }

  lemma {:induction false} SplitDigitsOf(d: string, t: string)
    requires AllDigits(d)
    requires t == [] || !IsDigit(t[0])
    ensures SplitDigits(d + t) == (d, t)
  {
    if d != [] {
      assert (d + t)[0] == d[0] && IsDigit(d[0]);
      assert (d + t)[1..] == d[1..] + t;
      SplitDigitsOf(d[1..], t);
      assert [d[0]] + d[1..] == d;
    } else {
      assert d + t == t;
    }
  }

  /** Reading one part followed by nothing, or by a space and further parts. */
  lemma ParsePart(d: string, unit: char, t: string)
    requires d != [] && AllDigits(d)
    requires unit == 'h' || unit == 'm'
    requires t == [] || (|t| > 1 && t[0] == ' ')
    ensures ParseDuration(d + [unit] + t) ==
      if t == [] then Some(PartValue(d, unit)) else AddTo(PartValue(d, unit), ParseDuration(t[1..]))
  {
    var rest := [unit] + t;
    assert d + [unit] + t == d + rest;
    SplitDigitsOf(d, rest);
    assert rest[0] == unit && rest[1..] == t;
  }

  /** One part for the count `n` with no further parts. */
  lemma ParseSinglePart(n: nat, unit: char)
    requires unit == 'h' || unit == 'm'
    ensures ParseDuration(Decimal(n) + [unit]) == Some(n * (if unit == 'h' then 60 else 1))
  {
    assert Decimal(n) + [unit] == Decimal(n) + [unit] + [];
    ParsePart(Decimal(n), unit, []);
    DecimalRoundTrip(n);
  }

  /**
   * Reading back the full format recovers the minutes; for a negative count
   * no hours are shown, so only the minute remainder comes back.
   */
  lemma FormatMinutesRoundTrip(overallMinutes: int)
    ensures ParseDuration(FormatMinutes(overallMinutes, false)) ==
      Some(if overallMinutes >= 0 then overallMinutes else overallMinutes % 60)
  {
    var hours, minutes := overallMinutes / 60, overallMinutes % 60;
    if hours > 0 && minutes > 0 {
      HoursAndMinutes(overallMinutes);
    } else if hours > 0 {
      OnlyHours(overallMinutes);
    } else if minutes > 0 {
      OnlyMinutes(overallMinutes);
    } else {
      NoParts(overallMinutes);
    }
  }

  lemma OnlyHours(m: int)
    requires m / 60 > 0 && m % 60 == 0
    ensures ParseDuration(FormatMinutes(m, false)) == Some(m)
  {
    var hours := m / 60;
    assert FormatMinutes(m, false) == DropLast(Decimal(hours) + "h ");
    assert DropLast(Decimal(hours) + "h ") == Decimal(hours) + ['h'];
    ParseSinglePart(hours, 'h');
  }

  lemma OnlyMinutes(m: int)
    requires m / 60 <= 0 && m % 60 > 0
    ensures ParseDuration(FormatMinutes(m, false)) == Some(m % 60)
  {
    assert FormatMinutes(m, false) == DropLast(Decimal(m % 60) + "m ");
    assert DropLast(Decimal(m % 60) + "m ") == Decimal(m % 60) + ['m'];
    ParseSinglePart(m % 60, 'm');
  }

  lemma NoParts(m: int)
    requires m / 60 <= 0 && m % 60 == 0
    ensures FormatMinutes(m, false) == []
  {
  }

  lemma HoursAndMinutes(m: int)
    requires m / 60 > 0 && m % 60 > 0
    ensures ParseDuration(FormatMinutes(m, false)) == Some(m)
  {
    BothPartsShown(m);
    ParseTwoParts(m / 60, m % 60);
    assert (m / 60) * 60 + m % 60 == m;
  }

  /** "<h>h <m>m" reads back as h hours and m minutes. */
  lemma ParseTwoParts(h: nat, m: nat)
    ensures ParseDuration(Decimal(h) + ['h'] + ([' '] + (Decimal(m) + ['m']))) == Some(h * 60 + m)
  {
    var d, rest := Decimal(h), Decimal(m) + ['m'];
    var tail := [' '] + rest;
    assert ParseDuration(d + ['h'] + tail) == AddTo(PartValue(d, 'h'), ParseDuration(rest)) by {
      assert tail[1..] == rest;
      ParsePart(d, 'h', tail);
    }
    assert ParseDuration(rest) == Some(m) by {
      ParseSinglePart(m, 'm');
    }
    assert PartValue(d, 'h') == h * 60 by {
      PartValueOf(h, 'h');
    }
  }

  lemma PartValueOf(n: nat, unit: char)
    ensures PartValue(Decimal(n), unit) == n * (if unit == 'h' then 60 else 1)
  {
    DecimalRoundTrip(n);
  }

  /** With hours and minutes, the full format is "<hours>h <minutes>m". */
  lemma BothPartsShown(m: int)
    requires m / 60 > 0 && m % 60 > 0
    ensures FormatMinutes(m, false) == Decimal(m / 60) + ['h'] + ([' '] + (Decimal(m % 60) + ['m']))
  {
    var full := Decimal(m / 60) + "h " + (Decimal(m % 60) + "m ");
    assert FormatMinutes(m, false) == DropLast(full);
    assert DropLast(full) == Decimal(m / 60) + ['h'] + ([' '] + (Decimal(m % 60) + ['m']));
  }

  /**
   * The minimal format shows whole hours when there is at least one hour,
   * and otherwise the minutes; it is never empty.
   */
  lemma FormatMinimalRoundTrip(overallMinutes: int)
    ensures FormatMinutes(overallMinutes, true) != []
    ensures ParseDuration(FormatMinutes(overallMinutes, true)) ==
      Some(if overallMinutes >= 60 then overallMinutes - overallMinutes % 60 else overallMinutes % 60)
  {
    var hours, minutes := overallMinutes / 60, overallMinutes % 60;
    if hours > 0 {
      ParseSinglePart(hours, 'h');
    } else {
      ParseSinglePart(minutes, 'm');
    }
  }

  /** The full format never ends in a space, and is empty exactly when nothing is shown. */
  lemma FormatMinutesShape(overallMinutes: int)
    ensures var r := FormatMinutes(overallMinutes, false);
      (r == [] || r[|r| - 1] != ' ') &&
      (r == [] <==> overallMinutes < 60 && overallMinutes % 60 == 0)
  {
  }

  /** The example of the source's documentation: 320 minutes is "5h 20m". */
  lemma FormatExample()
    ensures FormatMinutes(320, false) == "5h 20m"
    ensures FormatMinutes(320, true) == "5h"
  {
    assert Decimal(5) == "5";
    assert Decimal(20) == Decimal(2) + "0";
  }
}
