/**
 * Calendar dates as Python's `datetime.date` sees them, and the parser
 * `datetime.strptime(s, '%Y-%m-%d').date()` that the teardown and cleanup
 * scripts use to read an expiry date.
 */
module Dates {
  import opened Wrappers

  datatype Date = Date(year: int, month: int, day: int)

  predicate IsLeapYear(y: int) {
    y % 4 == 0 && (y % 100 != 0 || y % 400 == 0)
  }

  function DaysInMonth(y: int, m: int): int
    requires 1 <= m <= 12
  {
    if m == 2 then (if IsLeapYear(y) then 29 else 28)
    else if m == 4 || m == 6 || m == 9 || m == 11 then 30
    else 31
  }

  /** The dates `datetime.date` can represent (MINYEAR = 1, MAXYEAR = 9999). */
  predicate IsValid(d: Date) {
    1 <= d.year <= 9999 && 1 <= d.month <= 12 && 1 <= d.day <= DaysInMonth(d.year, d.month)
  }

  /** `a < b` on `datetime.date`: chronological order. */
  predicate Before(a: Date, b: Date) {
    a.year < b.year || (a.year == b.year && (a.month < b.month || (a.month == b.month && a.day < b.day)))
  }

  /** The day before `d`; the first representable day has none. */
  function PreviousDay(d: Date): (p: Date)
    requires IsValid(d) && d != Date(1, 1, 1)
    ensures IsValid(p) && Before(p, d)
    ensures forall e :: IsValid(e) && Before(e, d) ==> e == p || Before(e, p)
  {
    if d.day > 1 then Date(d.year, d.month, d.day - 1)
    else if d.month > 1 then Date(d.year, d.month - 1, DaysInMonth(d.year, d.month - 1))
    else Date(d.year - 1, 12, 31)
  }

  /** The expiry test of both deleting scripts is strict: a date is never before itself. */
  lemma ExpiringTodayIsNotBefore(d: Date)
    ensures !Before(d, d)
  {
  }

  /** Either of two different dates is before the other, and never both. */
  lemma BeforeIsStrictTotalOrder(a: Date, b: Date, c: Date)
    ensures a != b ==> (Before(a, b) <==> !Before(b, a))
    ensures Before(a, b) && Before(b, c) ==> Before(a, c)
  {
  }

  // ---------------------------------------------------------------------
  // strptime with the format '%Y-%m-%d'
  // ---------------------------------------------------------------------

  predicate IsDigit(c: char) { '0' <= c <= '9' }

  function DigitValue(c: char): int
    requires IsDigit(c)
  {
    c as int - '0' as int
  }

  function DigitChar(n: int): char
    requires 0 <= n < 10
  {
    ('0' as int + n) as char
  }

  /** `%Y` matches exactly four digits. */
  function YearField(t: string): Option<int> {
    if |t| == 4 && IsDigit(t[0]) && IsDigit(t[1]) && IsDigit(t[2]) && IsDigit(t[3])
    then Some(1000 * DigitValue(t[0]) + 100 * DigitValue(t[1]) + 10 * DigitValue(t[2]) + DigitValue(t[3]))
    else None
  }

  /** `%m` matches `1[0-2]`, `0[1-9]` or a single `[1-9]`. */
  function MonthField(t: string): Option<int> {
    if |t| == 1 && '1' <= t[0] <= '9' then Some(DigitValue(t[0]))
    else if |t| == 2 && t[0] == '1' && '0' <= t[1] <= '2' then Some(10 + DigitValue(t[1]))
    else if |t| == 2 && t[0] == '0' && '1' <= t[1] <= '9' then Some(DigitValue(t[1]))
    else None
  }

  /** `%d` matches `3[01]`, `[12]` and a digit, `0[1-9]`, a single `[1-9]`, or a space and `[1-9]`. */
  function DayField(t: string): Option<int> {
    if |t| == 1 && '1' <= t[0] <= '9' then Some(DigitValue(t[0]))
    else if |t| == 2 && (t[0] == '0' || t[0] == ' ') && '1' <= t[1] <= '9' then Some(DigitValue(t[1]))
    else if |t| == 2 && '1' <= t[0] <= '2' && IsDigit(t[1]) then Some(10 * DigitValue(t[0]) + DigitValue(t[1]))
    else if |t| == 2 && t[0] == '3' && '0' <= t[1] <= '1' then Some(30 + DigitValue(t[1]))
    else None
  }

  /**
   * `datetime.strptime(s, '%Y-%m-%d').date()`, None where it raises ValueError.
   * The month is one or two digits and is followed by the second dash, so the
   * position of that dash decides the split; the day is the whole remainder
   * (strptime rejects unconverted trailing data); a field combination that is
   * no calendar date (February 30, year 0) is rejected.
   */
  function ParseDate(s: string): (r: Option<Date>)
    ensures r.Some? ==> IsValid(r.value)
  {
    if |s| < 8 || s[4] != '-' then None
    else
      var rest := s[5..];
      var cut := if rest[1] == '-' then 1 else if rest[2] == '-' then 2 else 0;
      if cut == 0 then None
      else
        match (YearField(s[..4]), MonthField(rest[..cut]), DayField(rest[cut + 1..]))
        case (Some(y), Some(m), Some(d)) =>
          if IsValid(Date(y, m, d)) then Some(Date(y, m, d)) else None
        case _ => None
  }

  /** Zero-padded decimal of a number below 10^width. */
  function Padded(n: int, width: nat): (r: string)
    requires 0 <= n
    ensures |r| == width
    decreases width
  {
    if width == 0 then [] else Padded(n / 10, width - 1) + [DigitChar(n % 10)]
  }

  /** `str(date)`: the ISO form `YYYY-MM-DD` that YAML dates are turned into. */
  function FormatDate(d: Date): (r: string)
    requires IsValid(d)
    ensures |r| == 10
  {
    Padded(d.year, 4) + "-" + Padded(d.month, 2) + "-" + Padded(d.day, 2)
  }

  lemma PaddedTwo(n: int)
    requires 0 <= n < 100
    ensures Padded(n, 2) == [DigitChar(n / 10), DigitChar(n % 10)]
  {
    assert Padded(n / 10, 1) == Padded(n / 10 / 10, 0) + [DigitChar(n / 10 % 10)];
  }

  lemma PaddedFour(n: int)
    requires 0 <= n < 10000
    ensures Padded(n, 4) == [DigitChar(n / 10 / 10 / 10), DigitChar(n / 10 / 10 % 10), DigitChar(n / 10 % 10), DigitChar(n % 10)]
  {
    var a := n / 10;
    var b := a / 10;
    var c := b / 10;
    assert c / 10 == 0 && c % 10 == c;
    assert Padded(c, 1) == Padded(0, 0) + [DigitChar(c % 10)];
    assert Padded(b, 2) == Padded(c, 1) + [DigitChar(b % 10)];
    assert Padded(a, 3) == Padded(b, 2) + [DigitChar(a % 10)];
  }

  /** A number below 10000 is the sum of its four decimal digits, weighted. */
  lemma FourDigits(y: int)
    requires 0 <= y < 10000
    ensures 1000 * (y / 10 / 10 / 10) + 100 * (y / 10 / 10 % 10) + 10 * (y / 10 % 10) + y % 10 == y
  {
    var a := y / 10;
    var b := a / 10;
    var c := b / 10;
    assert y == 10 * a + y % 10;
    assert a == 10 * b + a % 10;
    assert b == 10 * c + b % 10;
  }

  /** Every valid date written in ISO form reads back as itself. */
  lemma ParseFormatRoundTrip(d: Date)
    requires IsValid(d)
    ensures ParseDate(FormatDate(d)) == Some(d)
  {
    var s := FormatDate(d);
    PaddedFour(d.year);
    PaddedTwo(d.month);
    PaddedTwo(d.day);
    var y := d.year;
    assert s[..4] == Padded(y, 4);
    FourDigits(y);
    assert YearField(s[..4]) == Some(y);
    var rest := s[5..];
    assert rest[2] == '-' && rest[1] != '-';
    assert rest[..2] == Padded(d.month, 2);
    assert MonthField(rest[..2]) == Some(d.month);
    assert rest[3..] == Padded(d.day, 2);
    assert DayField(rest[3..]) == Some(d.day);
  }
}
