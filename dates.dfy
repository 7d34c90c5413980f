/** Calendar dates as `datetime.strptime(s, '%Y-%m-%d')` reads them and
    naive `datetime` instants, counted in microseconds from
    0001-01-01 00:00 (the proleptic Gregorian calendar Python uses). */
module Dates {
  import opened Wrappers
  import opened Text

  datatype Date = Date(year: int, month: int, day: int)

  predicate IsLeap(y: int) { y % 4 == 0 && (y % 100 != 0 || y % 400 == 0) }

  function DaysInYear(y: int): int { if IsLeap(y) then 366 else 365 }

  function DaysInMonth(y: int, m: int): int
    requires 1 <= m <= 12
  {
    if m == 2 then (if IsLeap(y) then 29 else 28)
    else if m == 4 || m == 6 || m == 9 || m == 11 then 30
    else 31
  }

  /** The dates `datetime` can represent: years 1 to 9999. */
  predicate ValidDate(d: Date) {
    1 <= d.year <= 9999 && 1 <= d.month <= 12 && 1 <= d.day <= DaysInMonth(d.year, d.month)
  }

  /** Days in the years before `y` (`_days_before_year`). */
  function DaysBeforeYear(y: int): int
    requires y >= 1
  {
    var y1 := y - 1;
    y1 * 365 + y1 / 4 - y1 / 100 + y1 / 400
  }

  /** `_DAYS_BEFORE_MONTH`, indexed by month. */
  const DaysBeforeMonthTable: seq<int> := [-1, 0, 31, 59, 90, 120, 151, 181, 212, 243, 273, 304, 334]

  function DaysBeforeMonth(y: int, m: int): int
    requires 1 <= m <= 12
  {
    DaysBeforeMonthTable[m] + (if m > 2 && IsLeap(y) then 1 else 0)
  }

  /** `_ymd2ord`: 0001-01-01 is day 1. */
  function Ordinal(d: Date): int
    requires ValidDate(d)
  {
    DaysBeforeYear(d.year) + DaysBeforeMonth(d.year, d.month) + d.day
  }

  /** Lexicographic order on (year, month, day). */
  predicate Before(a: Date, b: Date) {
    a.year < b.year
    || (a.year == b.year && (a.month < b.month || (a.month == b.month && a.day < b.day)))
  }

  lemma MonthStep(y: int, m: int)
    requires 1 <= m <= 12
    ensures m < 12 ==> DaysBeforeMonth(y, m) + DaysInMonth(y, m) == DaysBeforeMonth(y, m + 1)
    ensures m == 12 ==> DaysBeforeMonth(y, m) + DaysInMonth(y, m) == DaysInYear(y)
  {
  }

  /** A month ends no later than its year. */
  lemma {:induction false} MonthBeforeYearEnd(y: int, m: int)
    requires 1 <= m <= 12
    ensures DaysBeforeMonth(y, m) + DaysInMonth(y, m) <= DaysInYear(y)
    decreases 12 - m
  {
    MonthStep(y, m);
    if m < 12 {
      MonthBeforeYearEnd(y, m + 1);
    }
  }

  /** Month m ends no later than month n begins, for m < n. */
  lemma {:induction false} MonthsInOrder(y: int, m: int, n: int)
    requires 1 <= m < n <= 12
    ensures DaysBeforeMonth(y, m) + DaysInMonth(y, m) <= DaysBeforeMonth(y, n)
    decreases n - m
  {
    MonthStep(y, m);
    if m + 1 < n {
      MonthsInOrder(y, m + 1, n);
      MonthStep(y, m + 1);
    }
  }

  lemma FloorStep(y: int, q: int)
    requires y >= 1 && (q == 4 || q == 100 || q == 400)
    ensures y / q - (y - 1) / q == (if y % q == 0 then 1 else 0)
  {
    if q == 4 {
      assert y / 4 - (y - 1) / 4 == (if y % 4 == 0 then 1 else 0);
    } else if q == 100 {
      assert y / 100 - (y - 1) / 100 == (if y % 100 == 0 then 1 else 0);
    } else {
      assert y / 400 - (y - 1) / 400 == (if y % 400 == 0 then 1 else 0);
    }
  }

  lemma MultipleMod(y: int, m: int, q: int)
    requires (q == 4 && y == 4 * m) || (q == 100 && y == 100 * m)
    ensures y % q == 0
  {
  }

  lemma CenturyIsLeapCandidate(y: int)
    ensures y % 100 == 0 ==> y % 4 == 0
    ensures y % 400 == 0 ==> y % 100 == 0
  {
    if y % 100 == 0 {
      MultipleMod(y, 25 * (y / 100), 4);
    }
    if y % 400 == 0 {
      MultipleMod(y, 4 * (y / 400), 100);
    }
  }

  /** `_days_before_year` grows by the length of each year. */
  lemma YearStep(y: int)
    requires y >= 1
    ensures DaysBeforeYear(y + 1) == DaysBeforeYear(y) + DaysInYear(y)
  {
    FloorStep(y, 4);
    FloorStep(y, 100);
    FloorStep(y, 400);
    CenturyIsLeapCandidate(y);
    var d4 := y / 4 - (y - 1) / 4;
    var d100 := y / 100 - (y - 1) / 100;
    var d400 := y / 400 - (y - 1) / 400;
    assert DaysBeforeYear(y + 1) - DaysBeforeYear(y) == 365 + d4 - d100 + d400;
  }

  /** Year y ends no later than a later year z begins. */
  lemma {:induction false} YearsInOrder(y: int, z: int)
    requires 1 <= y < z
    ensures DaysBeforeYear(y) + DaysInYear(y) <= DaysBeforeYear(z)
    decreases z - y
  {
    YearStep(y);
    if y + 1 < z {
      YearsInOrder(y + 1, z);
      YearStep(y + 1);
    }
  }

  lemma OrdinalWithinYear(d: Date)
    requires ValidDate(d)
    ensures DaysBeforeYear(d.year) < Ordinal(d) <= DaysBeforeYear(d.year) + DaysInYear(d.year)
  {
    MonthBeforeYearEnd(d.year, d.month);
  }

  lemma OrdinalMonotone(a: Date, b: Date)
    requires ValidDate(a) && ValidDate(b) && Before(a, b)
    ensures Ordinal(a) < Ordinal(b)
  {
    if a.year < b.year {
      OrdinalWithinYear(a);
      OrdinalWithinYear(b);
      YearsInOrder(a.year, b.year);
    } else if a.month < b.month {
      MonthsInOrder(a.year, a.month, b.month);
    }
  }

  /** Comparing the ordinals of two valid dates is comparing the dates. */
  lemma OrdinalOrder(a: Date, b: Date)
    requires ValidDate(a) && ValidDate(b)
    ensures Ordinal(a) < Ordinal(b) <==> Before(a, b)
    ensures Ordinal(a) == Ordinal(b) <==> a == b
  {
    if Before(a, b) {
      OrdinalMonotone(a, b);
    } else if Before(b, a) {
      OrdinalMonotone(b, a);
    }
  }

  // ---- naive datetime instants ----

  /** Microseconds since 0001-01-01 00:00:00. */
  type Instant = int

  const MicrosPerDay: int := 86_400_000_000

  /** `datetime(y, m, d)`: midnight at the start of the date. */
  function Midnight(d: Date): (t: Instant)
    requires ValidDate(d)
    ensures 0 <= t
  {
    (Ordinal(d) - 1) * MicrosPerDay
  }

  /** The last representable instant, 9999-12-31 23:59:59.999999. */
  const MaxInstant: Instant := Midnight(Date(9999, 12, 31)) + MicrosPerDay - 1

  predicate InRange(t: Instant) { 0 <= t <= MaxInstant }

  lemma MidnightInRange(d: Date)
    requires ValidDate(d)
    ensures InRange(Midnight(d))
  {
    var last := Date(9999, 12, 31);
    if d != last {
      OrdinalOrder(d, last);
    }
  }

  /** Midnights are ordered as their dates are, a full day apart at least. */
  lemma MidnightOrder(a: Date, b: Date)
    requires ValidDate(a) && ValidDate(b)
    ensures Midnight(a) < Midnight(b) <==> Before(a, b)
    ensures Before(a, b) ==> Midnight(a) + MicrosPerDay <= Midnight(b)
  {
    OrdinalOrder(a, b);
  }

  /** `t + timedelta(days=days)`, or None for the OverflowError raised when
      the day count or the result leaves the representable range. */
  function AddDays(t: Instant, days: int): (r: Option<Instant>)
    ensures r.Some? <==> -999_999_999 <= days <= 999_999_999 && InRange(t + days * MicrosPerDay)
    ensures r.Some? ==> r.value == t + days * MicrosPerDay
  {
    var u := t + days * MicrosPerDay;
    if -999_999_999 <= days <= 999_999_999 && InRange(u) then Some(u) else None
  }

  // ---- strptime(s, '%Y-%m-%d') ----

  /** The value of an all-digit string. */
  function Number(s: string): nat
    requires AllDigits(s)
  {
    DigitsValue(s)
  }

  /** The date a string denotes, when it is exactly four digits, '-', two
      digits, '-', two digits, and names a day of the calendar; None where
      `strptime` raises ValueError. */
  function ParseDate(s: string): (r: Option<Date>)
    ensures r.Some? ==> ValidDate(r.value)
  {
    if |s| == 10 && s[4] == '-' && s[7] == '-'
       && AllDigits(s[..4]) && AllDigits(s[5..7]) && AllDigits(s[8..])
    then
      var d := Date(Number(s[..4]), Number(s[5..7]), Number(s[8..]));
      if ValidDate(d) then Some(d) else None
    else None
  }

  /** `n` written with exactly `width` digits, zero-padded. */
  function FixedDigits(n: nat, width: nat): (s: string)
    ensures |s| == width && AllDigits(s)
  {
    if width == 0 then [] else FixedDigits(n / 10, width - 1) + [DigitChar(n % 10)]
  }

  function Pow10(k: nat): nat { if k == 0 then 1 else 10 * Pow10(k - 1) }

  /** `date.isoformat()`. */
  function FormatDate(d: Date): (s: string)
    requires ValidDate(d)
    ensures |s| == 10
  {
    FixedDigits(d.year, 4) + "-" + FixedDigits(d.month, 2) + "-" + FixedDigits(d.day, 2)
  }

  lemma {:induction false} FixedDigitsValue(n: nat, width: nat)
    requires n < Pow10(width)
    ensures Number(FixedDigits(n, width)) == n
  {
    if width > 0 {
      var s := FixedDigits(n, width);
      FixedDigitsValue(n / 10, width - 1);
      assert s[..|s| - 1] == FixedDigits(n / 10, width - 1);
    }
  }

  lemma {:induction false} DigitsFixed(s: string)
    requires AllDigits(s)
    ensures FixedDigits(Number(s), |s|) == s
    ensures Number(s) < Pow10(|s|)
  {
    if |s| > 0 {
      var init := s[..|s| - 1];
      DigitsFixed(init);
      var n := Number(s);
      assert n == Number(init) * 10 + DigitValue(s[|s| - 1]);
      assert n / 10 == Number(init) && n % 10 == DigitValue(s[|s| - 1]);
      assert s == init + [s[|s| - 1]];
    }
  }

  /** Every valid date is read back from its ISO form. */
  lemma ParseFormatDate(d: Date)
    requires ValidDate(d)
    ensures ParseDate(FormatDate(d)) == Some(d)
  {
    var s := FormatDate(d);
    assert s[..4] == FixedDigits(d.year, 4);
    assert s[5..7] == FixedDigits(d.month, 2);
    assert s[8..] == FixedDigits(d.day, 2);
    FixedDigitsValue(d.year, 4);
    FixedDigitsValue(d.month, 2);
    FixedDigitsValue(d.day, 2);
  }

  /** The only strings read as dates are the ISO forms of valid dates. */
  lemma ParsedIsFormatted(s: string)
    requires ParseDate(s).Some?
    ensures s == FormatDate(ParseDate(s).value)
  {
    DigitsFixed(s[..4]);
    DigitsFixed(s[5..7]);
    DigitsFixed(s[8..]);
    assert s == s[..4] + "-" + s[5..7] + "-" + s[8..];
  }
}
