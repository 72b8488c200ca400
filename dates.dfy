/**
 * Calendar dates as Python's `datetime.date` holds them: a year in 1..9999, a
 * month and a day that exists in that month. Comparison is CPython's
 * `(year, month, day)` comparison; `date + timedelta(days=n)` is ordinal
 * arithmetic (`toordinal() + n`), which raises OverflowError outside
 * 1..`MaxOrdinal`.
 */
module Dates {
  import opened Wrappers

  datatype YMD = YMD(year: int, month: int, day: int)

  predicate IsLeap(y: int) {
    y % 4 == 0 && (y % 100 != 0 || y % 400 == 0)
  }

  function DaysInMonth(y: int, m: int): int
    requires 1 <= m <= 12
  {
    if m == 2 then (if IsLeap(y) then 29 else 28)
    else if m == 4 || m == 6 || m == 9 || m == 11 then 30
    else 31
  }

  predicate ValidYMD(d: YMD) {
    1 <= d.year <= 9999 && 1 <= d.month <= 12 && 1 <= d.day <= DaysInMonth(d.year, d.month)
  }

  /** A value of Python's `datetime.date`. */
  type Date = d: YMD | ValidYMD(d) witness YMD(1, 1, 1)

  /** `a < b` on dates. */
  predicate Before(a: Date, b: Date) {
    a.year < b.year || (a.year == b.year && (a.month < b.month || (a.month == b.month && a.day < b.day)))
  }

  // ------------------------------------------------------------- ordinals

  /** Days of the years before `y` (CPython's `_days_before_year`). */
  function DaysBeforeYear(y: int): int
    requires y >= 1
  {
    var p := y - 1;
    p * 365 + p / 4 - p / 100 + p / 400
  }

  /** Days of the months of year `y` before month `m` (CPython's `_days_before_month`). */
  function DaysBeforeMonth(y: int, m: int): int
    requires 1 <= m <= 12
  {
    var cumulative := [0, 31, 59, 90, 120, 151, 181, 212, 243, 273, 304, 334];
    cumulative[m - 1] + (if m > 2 && IsLeap(y) then 1 else 0)
  }

  /** `d.toordinal()`: 0001-01-01 is day 1. */
  function Ordinal(d: Date): int {
    DaysBeforeYear(d.year) + DaysBeforeMonth(d.year, d.month) + d.day
  }

  /** The ordinal of 9999-12-31, the last day `date` can hold. */
  const MaxOrdinal: int := 3652059

  lemma MonthStep(y: int, m: int)
    requires 1 <= m < 12
    ensures DaysBeforeMonth(y, m + 1) == DaysBeforeMonth(y, m) + DaysInMonth(y, m)
  {
  }

  lemma YearStep(y: int)
    requires y >= 1
    ensures DaysBeforeYear(y + 1) == DaysBeforeYear(y) + DaysBeforeMonth(y, 12) + DaysInMonth(y, 12)
  {
    var p := y - 1;
    assert (p + 1) / 4 == p / 4 + (if (p + 1) % 4 == 0 then 1 else 0);
    assert (p + 1) / 100 == p / 100 + (if (p + 1) % 100 == 0 then 1 else 0);
    assert (p + 1) / 400 == p / 400 + (if (p + 1) % 400 == 0 then 1 else 0);
  }

  lemma {:induction false} DaysBeforeMonthMonotone(y: int, m1: int, m2: int)
    requires 1 <= m1 < m2 <= 12
    ensures DaysBeforeMonth(y, m1) + DaysInMonth(y, m1) <= DaysBeforeMonth(y, m2)
    decreases m2 - m1
  {
    MonthStep(y, m1);
    if m1 + 1 < m2 {
      DaysBeforeMonthMonotone(y, m1 + 1, m2);
    }
  }

  lemma {:induction false} DaysBeforeYearMonotone(y1: int, y2: int)
    requires 1 <= y1 < y2
    ensures DaysBeforeYear(y1) + DaysBeforeMonth(y1, 12) + DaysInMonth(y1, 12) <= DaysBeforeYear(y2)
    decreases y2 - y1
  {
    YearStep(y1);
    if y1 + 1 < y2 {
      DaysBeforeYearMonotone(y1 + 1, y2);
      YearStep(y1 + 1);
    }
  }

  /** Ordinals follow the order of dates, so comparing `added + n` with `today`
      is comparing `Ordinal(added) + n` with `Ordinal(today)`. */
  lemma OrdinalMonotone(a: Date, b: Date)
    requires Before(a, b)
    ensures Ordinal(a) < Ordinal(b)
  {
    if a.year < b.year {
      if a.month < 12 {
        DaysBeforeMonthMonotone(a.year, a.month, 12);
      }
      DaysBeforeYearMonotone(a.year, b.year);
    } else if a.month < b.month {
      DaysBeforeMonthMonotone(a.year, a.month, b.month);
    }
  }

  /** Every date has an ordinal in 1..MaxOrdinal. */
  lemma OrdinalRange(d: Date)
    ensures 1 <= Ordinal(d) <= MaxOrdinal
  {
    var last: Date := YMD(9999, 12, 31);
    assert Ordinal(last) == MaxOrdinal;
    if d != last {
      OrdinalMonotone(d, last);
    }
  }

  // ------------------------------------------------------------- text form

  predicate IsDigit(c: char) {
    '0' <= c <= '9'
  }

  predicate AllDigits(s: string) {
    forall i :: 0 <= i < |s| ==> IsDigit(s[i])
  }

  function DigitValue(c: char): int
    requires IsDigit(c)
  {
    c as int - '0' as int
  }

  function Digit(n: int): (c: char)
    requires 0 <= n <= 9
    ensures IsDigit(c) && DigitValue(c) == n
  {
    ('0' as int + n) as char
  }

  /** `date.isoformat()`: `YYYY-MM-DD`, zero-padded. */
  function IsoFormat(d: Date): (s: string)
    ensures |s| == 10
    ensures forall i :: 0 <= i < |s| ==> IsDigit(s[i]) || s[i] == '-'
  {
    var y := d.year;
    [Digit(y / 1000), Digit(y / 100 % 10), Digit(y / 10 % 10), Digit(y % 10), '-',
     Digit(d.month / 10), Digit(d.month % 10), '-', Digit(d.day / 10), Digit(d.day % 10)]
  }

  /** The `%m` field of `strptime`: the first of `1[0-2]`, `0[1-9]`, `[1-9]`
      that matches; the value and the number of characters it took. */
  function MonthField(t: string): Option<(int, int)> {
    if |t| >= 2 && t[0] == '1' && '0' <= t[1] <= '2' then Some((10 + DigitValue(t[1]), 2))
    else if |t| >= 2 && t[0] == '0' && '1' <= t[1] <= '9' then Some((DigitValue(t[1]), 2))
    else if |t| >= 1 && '1' <= t[0] <= '9' then Some((DigitValue(t[0]), 1))
    else None
  }

  /** The `%d` field of `strptime`: the first of `3[01]`, `[12]\d`, `0[1-9]`,
      `[1-9]`, ` [1-9]` that matches. */
  function DayField(u: string): Option<(int, int)> {
    if |u| >= 2 && u[0] == '3' && '0' <= u[1] <= '1' then Some((30 + DigitValue(u[1]), 2))
    else if |u| >= 2 && '1' <= u[0] <= '2' && IsDigit(u[1]) then Some((10 * DigitValue(u[0]) + DigitValue(u[1]), 2))
    else if |u| >= 2 && u[0] == '0' && '1' <= u[1] <= '9' then Some((DigitValue(u[1]), 2))
    else if |u| >= 1 && '1' <= u[0] <= '9' then Some((DigitValue(u[0]), 1))
    else if |u| >= 2 && u[0] == ' ' && '1' <= u[1] <= '9' then Some((DigitValue(u[1]), 2))
    else None
  }

  /** `datetime.strptime(s, "%Y-%m-%d").date()`, or None where it raises ValueError:
      four digits, `-`, a month field, `-`, a day field, nothing after it, and a
      day that exists in that month of a year from 1 on. */
  function ParseDate(s: string): (r: Option<Date>)
    ensures r.Some? ==> 8 <= |s| <= 10 && AllDigits(s[..4]) && s[4] == '-'
  {
    if |s| < 5 || !AllDigits(s[..4]) || s[4] != '-' then None
    else
      var year := 1000 * DigitValue(s[0]) + 100 * DigitValue(s[1]) + 10 * DigitValue(s[2]) + DigitValue(s[3]);
      var rest := s[5..];
      match MonthField(rest)
      case None => None
      case Some((month, width)) =>
        if |rest| <= width || rest[width] != '-' then None
        else
          var u := rest[width + 1..];
          match DayField(u)
          case None => None
          case Some((day, used)) =>
            if used != |u| then None
            else if ValidYMD(YMD(year, month, day)) then Some(YMD(year, month, day))
            else None
  }

  /** The four year digits `isoformat` writes add back up to the year. */
  lemma YearDigits(y: int)
    requires 1 <= y <= 9999
    ensures 1000 * (y / 1000) + 100 * (y / 100 % 10) + 10 * (y / 10 % 10) + y % 10 == y
  {
    var a := y / 10;
    var b := a / 10;
    var c := b / 10;
    assert y == 10 * a + y % 10;
    assert a == 10 * b + a % 10;
    assert b == 10 * c + b % 10;
    assert y / 100 == b;
    assert y / 1000 == c;
  }

  /** Two month digits are read back by the `%m` field. */
  lemma MonthDigits(m: int, tail: string)
    requires 1 <= m <= 12
    ensures MonthField([Digit(m / 10), Digit(m % 10)] + tail) == Some((m, 2))
  {
    var t := [Digit(m / 10), Digit(m % 10)] + tail;
    assert t[0] == Digit(m / 10) && t[1] == Digit(m % 10);
    if m < 10 {
      assert t[0] == '0' && '1' <= t[1] <= '9';
    } else {
      assert t[0] == '1' && '0' <= t[1] <= '2';
    }
  }

  /** Two day digits are read back by the `%d` field. */
  lemma DayDigits(d: int)
    requires 1 <= d <= 31
    ensures DayField([Digit(d / 10), Digit(d % 10)]) == Some((d, 2))
  {
    var u := [Digit(d / 10), Digit(d % 10)];
    if d < 10 {
      assert u[0] == '0' && '1' <= u[1] <= '9';
    } else if d < 30 {
      assert '1' <= u[0] <= '2' && IsDigit(u[1]);
    } else {
      assert u[0] == '3' && '0' <= u[1] <= '1';
    }
  }

  /** What `isoformat` writes, `strptime` reads back. */
  lemma ParseIsoFormat(d: Date)
    ensures ParseDate(IsoFormat(d)) == Some(d)
  {
    var s := IsoFormat(d);
    IsoYear(d);
    var rest := s[5..];
    var dayDigits := [Digit(d.day / 10), Digit(d.day % 10)];
    assert rest == [Digit(d.month / 10), Digit(d.month % 10)] + (['-'] + dayDigits);
    MonthDigits(d.month, ['-'] + dayDigits);
    assert rest[2] == '-' && rest[3..] == dayDigits;
    DayDigits(d.day);
  }

  /** The year field `isoformat` writes is read back as the year. */
  lemma IsoYear(d: Date)
    ensures var s := IsoFormat(d);
      AllDigits(s[..4]) && s[4] == '-'
      && 1000 * DigitValue(s[0]) + 100 * DigitValue(s[1]) + 10 * DigitValue(s[2]) + DigitValue(s[3]) == d.year
  {
    var s := IsoFormat(d);
    assert AllDigits(s[..4]);
    YearDigits(d.year);
  }
}
