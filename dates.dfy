/**
 * Calendar dates and their ISO text form.  The entry form stores a
 * datetime.date as date.isoformat(), "YYYY-MM-DD" (app.py:68); the statistics
 * read that text back with pandas.to_datetime (app.py:91) and keep only its
 * year and month (app.py:92).
 */
module Dates {
  import opened Wrappers

  /** A calendar date, as datetime.date holds it. */
  datatype Date = Date(year: int, month: int, day: int)

  /** The month a date falls in: pandas' Period with frequency "M". */
  datatype MonthKey = MonthKey(year: int, month: int)

  predicate IsLeapYear(y: int)
  {
    y % 4 == 0 && (y % 100 != 0 || y % 400 == 0)
  }

  function DaysInMonth(year: int, month: int): (n: int)
    requires 1 <= month <= 12
    ensures 28 <= n <= 31
    ensures n == 29 <==> month == 2 && IsLeapYear(year)
  {
    if month == 2 then (if IsLeapYear(year) then 29 else 28)
    else if month == 4 || month == 6 || month == 9 || month == 11 then 30
    else 31
  }

  /** The dates datetime.date can hold: years MINYEAR..MAXYEAR, real days only. */
  predicate ValidDate(d: Date)
  {
    && 1 <= d.year <= 9999
    && 1 <= d.month <= 12
    && 1 <= d.day <= DaysInMonth(d.year, d.month)
  }

  function MonthOf(d: Date): MonthKey
  {
    MonthKey(d.year, d.month)
  }

  /** Chronological order of months. */
  predicate MonthBefore(a: MonthKey, b: MonthKey)
  {
    a.year < b.year || (a.year == b.year && a.month < b.month)
  }

  // ---------------------------------------------------------------------
  // Decimal digits
  // ---------------------------------------------------------------------

  predicate IsDigit(c: char)
  {
    '0' <= c <= '9'
  }

  predicate AllDigits(s: string)
  {
    forall i :: 0 <= i < |s| ==> IsDigit(s[i])
  }

  function DigitChar(n: int): (c: char)
    requires 0 <= n < 10
    ensures IsDigit(c)
  {
    ('0' as int + n) as char
  }

  function DigitValue(c: char): (n: int)
    requires IsDigit(c)
    ensures 0 <= n < 10 && DigitChar(n) == c
  {
    c as int - '0' as int
  }

  function Pow10(k: nat): (p: nat)
    ensures p >= 1
  {
    if k == 0 then 1 else 10 * Pow10(k - 1)
  }

  /** n written with exactly `width` decimal digits, zero-padded on the left ("%0*d"). */
  function Digits(n: nat, width: nat): (s: string)
    ensures |s| == width && AllDigits(s)
  {
    if width == 0 then [] else Digits(n / 10, width - 1) + [DigitChar(n % 10)]
  }

  /** The number a string of decimal digits denotes. */
  function Number(s: string): nat
    requires AllDigits(s)
  {
    if s == [] then 0 else 10 * Number(s[..|s| - 1]) + DigitValue(s[|s| - 1])
  }

  /** Reading back a number written with enough digits gives the number. */
  lemma {:induction false} NumberOfDigits(n: nat, width: nat)
    requires n < Pow10(width)
    ensures Number(Digits(n, width)) == n
  {
    if width > 0 {
      var s := Digits(n, width);
      NumberOfDigits(n / 10, width - 1);
      assert s[..|s| - 1] == Digits(n / 10, width - 1);
    }
  }

  /** Writing back the number a digit string denotes, at its width, gives the string. */
  lemma {:induction false} DigitsOfNumber(s: string)
    requires AllDigits(s)
    ensures Digits(Number(s), |s|) == s
  {
    if s != [] {
      var t := s[..|s| - 1];
      var c := s[|s| - 1];
      DigitsOfNumber(t);
      var n := Number(s);
      assert n / 10 == Number(t) && n % 10 == DigitValue(c);
      assert s == t + [c];
    }
  }

  // ---------------------------------------------------------------------
  // ISO format and parsing
  // ---------------------------------------------------------------------

  /** date.isoformat(): "%04d-%02d-%02d". */
  function IsoFormat(d: Date): (s: string)
    requires ValidDate(d)
    ensures |s| == 10 && s[4] == '-' && s[7] == '-'
    ensures AllDigits(s[..4]) && AllDigits(s[5..7]) && AllDigits(s[8..])
  {
    var s := Digits(d.year, 4) + "-" + Digits(d.month, 2) + "-" + Digits(d.day, 2);
    assert s[..4] == Digits(d.year, 4);
    assert s[5..7] == Digits(d.month, 2);
    assert s[8..] == Digits(d.day, 2);
    s
  }

  /**
   * The date a "YYYY-MM-DD" text denotes, as pandas.to_datetime reads it;
   * None for any other shape, or when there is no such calendar day.
   */
  function ParseIso(s: string): (r: Option<Date>)
    ensures r.Some? ==> ValidDate(r.value)
  {
    if |s| == 10 && s[4] == '-' && s[7] == '-'
       && AllDigits(s[..4]) && AllDigits(s[5..7]) && AllDigits(s[8..]) then
      var d := Date(Number(s[..4]), Number(s[5..7]), Number(s[8..]));
      if ValidDate(d) then Some(d) else None
    else
      None
  }

  /** The stored text of a date reads back as that same date. */
  lemma ParseIsoFormat(d: Date)
    requires ValidDate(d)
    ensures ParseIso(IsoFormat(d)) == Some(d)
  {
    var s := IsoFormat(d);
    assert s[..4] == Digits(d.year, 4);
    assert s[5..7] == Digits(d.month, 2);
    assert s[8..] == Digits(d.day, 2);
    NumberOfDigits(d.year, 4);
    NumberOfDigits(d.month, 2);
    NumberOfDigits(d.day, 2);
  }

  /** Every text that parses is the ISO form of the date it parses to. */
  lemma FormatParseIso(s: string)
    requires ParseIso(s).Some?
    ensures IsoFormat(ParseIso(s).value) == s
  {
    var d := ParseIso(s).value;
    DigitsOfNumber(s[..4]);
    DigitsOfNumber(s[5..7]);
    DigitsOfNumber(s[8..]);
    var t := IsoFormat(d);
    assert t[..4] == s[..4] && t[5..7] == s[5..7] && t[8..] == s[8..];
    assert t == t[..4] + "-" + t[5..7] + "-" + t[8..];
    assert s == s[..4] + "-" + s[5..7] + "-" + s[8..];
  }

  /**
   * Two stored dates in the same year and month land in the same month,
   * whatever their days.
   */
  lemma SameMonthWhateverTheDay(d1: Date, d2: Date)
    requires ValidDate(d1) && ValidDate(d2)
    requires d1.year == d2.year && d1.month == d2.month
    ensures ParseIso(IsoFormat(d1)).Some? && ParseIso(IsoFormat(d2)).Some?
    ensures MonthOf(ParseIso(IsoFormat(d1)).value) == MonthOf(ParseIso(IsoFormat(d2)).value)
  {
    ParseIsoFormat(d1);
    ParseIsoFormat(d2);
  }

  /** MonthBefore is a strict total order on months. */
  lemma MonthOrderTotal(a: MonthKey, b: MonthKey, c: MonthKey)
    ensures !(MonthBefore(a, b) && MonthBefore(b, a))
    ensures MonthBefore(a, b) && MonthBefore(b, c) ==> MonthBefore(a, c)
    ensures a == b || MonthBefore(a, b) || MonthBefore(b, a)
  {
  }
}
