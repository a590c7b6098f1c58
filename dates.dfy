/**
 * Calendar dates as the `Date` column and the `deadline` field carry them:
 * the Gregorian calendar over Python's date range (years 1 to 9999), the
 * `YYYY-MM-DD` rendering of `date.isoformat()`, and the parse done by
 * `datetime.strptime(s, "%Y-%m-%d")`.
 */
module Dates {
  import opened Wrappers

  datatype YearMonthDay = YearMonthDay(year: int, month: int, day: int)

  const MinYear := 1
  const MaxYear := 9999

  /** Gregorian leap years: every fourth year, except centuries not divisible by 400. */
  predicate IsLeapYear(year: int) {
    year % 4 == 0 && (year % 100 != 0 || year % 400 == 0)
  }

  function DaysInMonth(year: int, month: int): (n: int)
    requires 1 <= month <= 12
    ensures month == 2 && IsLeapYear(year) ==> n == 29
    ensures month == 2 && !IsLeapYear(year) ==> n == 28
    ensures month in {4, 6, 9, 11} ==> n == 30
    ensures month !in {2, 4, 6, 9, 11} ==> n == 31
  {
    if month == 2 then (if IsLeapYear(year) then 29 else 28)
    else if month in {4, 6, 9, 11} then 30
    else 31
  }

  /** A real date: a month of the year and a day that month has. */
  predicate IsCalendarDate(d: YearMonthDay) {
    MinYear <= d.year <= MaxYear && 1 <= d.month <= 12 && 1 <= d.day <= DaysInMonth(d.year, d.month)
  }

  /** A value of Python's `datetime.date`. */
  type Date = d: YearMonthDay | IsCalendarDate(d) witness YearMonthDay(1, 1, 1)

  predicate IsDigit(c: char) {
    '0' <= c <= '9'
  }

  predicate AllDigits(s: string) {
    forall i :: 0 <= i < |s| ==> IsDigit(s[i])
  }

  function DigitValue(c: char): (n: nat)
    requires IsDigit(c)
    ensures n <= 9
  {
    c as int - '0' as int
  }

  function DigitChar(n: nat): (c: char)
    requires n <= 9
    ensures IsDigit(c) && DigitValue(c) == n
  {
    ('0' as int + n) as char
  }

  function Pow10(width: nat): (p: nat)
    ensures p >= 1
  {
    if width == 0 then 1 else 10 * Pow10(width - 1)
  }

  /** The number a string of decimal digits denotes, most significant digit first. */
  function DecimalValue(s: string): (n: nat)
    requires AllDigits(s)
    ensures n < Pow10(|s|)
  {
    if s == [] then 0 else 10 * DecimalValue(s[..|s| - 1]) + DigitValue(s[|s| - 1])
  }

  /** The last `width` decimal digits of `n`, with leading zeros: `"%0<width>d" % n` for `n < 10^width`. */
  function Padded(n: nat, width: nat): (s: string)
    ensures |s| == width && AllDigits(s)
  {
    if width == 0 then [] else Padded(n / 10, width - 1) + [DigitChar(n % 10)]
  }

  lemma {:induction false} DecimalValueOfPadded(n: nat, width: nat)
    requires n < Pow10(width)
    ensures DecimalValue(Padded(n, width)) == n
  {
    if width > 0 {
      var s := Padded(n, width);
      assert s[..width - 1] == Padded(n / 10, width - 1);
      assert n / 10 < Pow10(width - 1);
      DecimalValueOfPadded(n / 10, width - 1);
    }
  }

  lemma {:induction false} PaddedOfDecimalValue(s: string)
    requires AllDigits(s)
    ensures Padded(DecimalValue(s), |s|) == s
  {
    if s != [] {
      var p := s[..|s| - 1];
      var v := DecimalValue(p);
      var d := DigitValue(s[|s| - 1]);
      assert (10 * v + d) / 10 == v && (10 * v + d) % 10 == d;
      PaddedOfDecimalValue(p);
      assert s == p + [s[|s| - 1]];
    }
  }

  /**
   * The `full-date` form of section 5.6 of RFC 3339 (the ISO 8601 calendar
   * date): four, two and two ASCII digits, separated by hyphens.
   */
  predicate IsFullDate(s: string) {
    |s| == 10 && s[4] == '-' && s[7] == '-'
    && AllDigits(s[..4]) && AllDigits(s[5..7]) && AllDigits(s[8..])
  }

  /** `date.isoformat()`: the zero-padded `YYYY-MM-DD` rendering. */
  function IsoFormat(d: Date): (s: string)
    ensures IsFullDate(s)
  {
    var s := Padded(d.year, 4) + "-" + Padded(d.month, 2) + "-" + Padded(d.day, 2);
    assert s[..4] == Padded(d.year, 4) && s[5..7] == Padded(d.month, 2) && s[8..] == Padded(d.day, 2);
    s
  }

  /** The date a `full-date` string names, or `None` when the string is not of that form or names no real date. */
  function ParseFullDate(s: string): (r: Option<Date>)
    ensures r.Some? ==> IsFullDate(s)
  {
    if !IsFullDate(s) then None
    else
      var ymd := YearMonthDay(DecimalValue(s[..4]), DecimalValue(s[5..7]), DecimalValue(s[8..]));
      if IsCalendarDate(ymd) then Some(ymd) else None
  }

  /** Rendering a date and parsing the result gives the date back. */
  lemma ParseIsoFormat(d: Date)
    ensures ParseFullDate(IsoFormat(d)) == Some(d)
  {
    var s := IsoFormat(d);
    assert s[..4] == Padded(d.year, 4) && s[5..7] == Padded(d.month, 2) && s[8..] == Padded(d.day, 2);
    DecimalValueOfPadded(d.year, 4);
    DecimalValueOfPadded(d.month, 2);
    DecimalValueOfPadded(d.day, 2);
  }

  /** A string that renders some date is parsed to that date. */
  lemma ParseRendering(s: string)
    ensures forall d: Date {:trigger IsoFormat(d)} :: s == IsoFormat(d) ==> ParseFullDate(s) == Some(d)
  {
    forall d: Date | s == IsoFormat(d) ensures ParseFullDate(s) == Some(d) {
      ParseIsoFormat(d);
    }
  }

  /** A string the parser accepts is exactly the rendering of the date it yields. */
  lemma IsoFormatOfParse(s: string)
    requires ParseFullDate(s).Some?
    ensures IsoFormat(ParseFullDate(s).value) == s
  {
    var d := ParseFullDate(s).value;
    assert d.year == DecimalValue(s[..4]) && d.month == DecimalValue(s[5..7]) && d.day == DecimalValue(s[8..]);
    PaddedOfDecimalValue(s[..4]);
    PaddedOfDecimalValue(s[5..7]);
    PaddedOfDecimalValue(s[8..]);
    FullDateFields(s);
  }

  /** A `full-date` string is its three digit fields joined by hyphens. */
  lemma FullDateFields(s: string)
    requires IsFullDate(s)
    ensures s == s[..4] + "-" + s[5..7] + "-" + s[8..]
  {
  }

  /** Distinct dates have distinct renderings. */
  lemma IsoFormatInjective(d: Date, e: Date)
    requires IsoFormat(d) == IsoFormat(e)
    ensures d == e
  {
    ParseIsoFormat(d);
    ParseIsoFormat(e);
  }

  lemma TwoDigitValue(s: string)
    requires |s| == 2 && AllDigits(s)
    ensures DecimalValue(s) == 10 * DigitValue(s[0]) + DigitValue(s[1])
  {
  }

  lemma FourDigitValue(s: string)
    requires |s| == 4 && AllDigits(s)
    ensures DecimalValue(s) == 1000 * DigitValue(s[0]) + 100 * DigitValue(s[1]) + 10 * DigitValue(s[2]) + DigitValue(s[3])
  {
    var p := s[..3];
    assert p[..2] == s[..2];
    TwoDigitValue(s[..2]);
  }

  /** A month past December is refused, whatever the day. */
  lemma RejectsMonthThirteen()
    ensures ParseFullDate("2024-13-40") == None
  {
  }

  /** February 29 is a date in a leap year. */
  lemma AcceptsLeapDay()
    ensures ParseFullDate("2024-02-29") == Some(YearMonthDay(2024, 2, 29))
  {
    FourDigitValue("2024-02-29"[..4]);
    TwoDigitValue("2024-02-29"[5..7]);
    TwoDigitValue("2024-02-29"[8..]);
  }

  /** February 29 is no date in a common year. */
  lemma RejectsLeapDayInCommonYear()
    ensures ParseFullDate("2023-02-29") == None
  {
    FourDigitValue("2023-02-29"[..4]);
    TwoDigitValue("2023-02-29"[5..7]);
    TwoDigitValue("2023-02-29"[8..]);
  }

  /** February 30 is never a date. */
  lemma RejectsFebruaryThirty()
    ensures ParseFullDate("2024-02-30") == None
  {
    TwoDigitValue("2024-02-30"[5..7]);
    TwoDigitValue("2024-02-30"[8..]);
  }

  /** There is no year 0. */
  lemma RejectsYearZero()
    ensures ParseFullDate("0000-01-01") == None
  {
    FourDigitValue("0000-01-01"[..4]);
  }

  /**
   * The shape every match of `%Y-%m-%d` has: four year digits, a `-`, then a
   * month and a day of one or two characters each with a `-` between them,
   * so 8 to 10 characters with the `-` at index 4.
   */
  predicate DateShaped(s: string) {
    8 <= |s| <= 10 && s[4] == '-'
  }

  /**
   * `datetime.strptime(s, "%Y-%m-%d").date()`, with `None` standing for the
   * `ValueError` it raises. On the zero-padded `full-date` form it accepts
   * exactly the renderings of real dates and returns that date; a string
   * without the shape of a `%Y-%m-%d` match is refused. What the library does
   * with the remaining strings (it also accepts, for one, a month or day
   * written with a single digit) is not modelled: `otherForms` gives it.
   */
  function Strptime(otherForms: string -> Option<Date>, s: string): (r: Option<Date>)
    ensures forall d: Date {:trigger IsoFormat(d)} :: s == IsoFormat(d) ==> r == Some(d)
    ensures IsFullDate(s) && r.Some? ==> IsoFormat(r.value) == s
    ensures !DateShaped(s) ==> r == None
  {
    if IsFullDate(s) then
      var r := ParseFullDate(s);
      ParseRendering(s);
      if r.Some? then IsoFormatOfParse(s); r else r
    else if !DateShaped(s) then None
    else otherForms(s)
  }
}
