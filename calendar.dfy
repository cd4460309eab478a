/**
 * The proleptic Gregorian calendar as Python's `datetime` module uses it:
 * dates (year, month, day), the leap-year rule, the day ordinal that
 * `date.toordinal` returns (0001-01-01 is day 1), and date + timedelta(days),
 * which Python defines as the date whose ordinal is `toordinal() + days` and
 * which raises OverflowError past 9999-12-31.
 */
module Calendar {
  import opened Wrappers

  datatype Date = Date(year: int, month: int, day: int)

  /** `datetime.MINYEAR` and `datetime.MAXYEAR`. */
  const MinYear: int := 1
  const MaxYear: int := 9999

  predicate IsLeap(y: int) {
    y % 4 == 0 && (y % 100 != 0 || y % 400 == 0)
  }

  function DaysInYear(y: int): int {
    if IsLeap(y) then 366 else 365
  }

  function DaysInMonth(y: int, m: int): (r: int)
    requires 1 <= m <= 12
    ensures 28 <= r <= 31
    ensures r == 29 <==> m == 2 && IsLeap(y)
  {
    if m == 2 then (if IsLeap(y) then 29 else 28)
    else if m == 4 || m == 6 || m == 9 || m == 11 then 30
    else 31
  }

  /** A calendar date of the proleptic Gregorian calendar, from year 1 on. */
  predicate ValidDate(d: Date) {
    MinYear <= d.year && 1 <= d.month <= 12 && 1 <= d.day <= DaysInMonth(d.year, d.month)
  }

  /** A date a Python `date` or `datetime` can hold. */
  predicate InRange(d: Date) {
    ValidDate(d) && d.year <= MaxYear
  }

  /** Python compares dates as (year, month, day) tuples. */
  predicate DateLess(a: Date, b: Date) {
    a.year < b.year
    || (a.year == b.year && a.month < b.month)
    || (a.year == b.year && a.month == b.month && a.day < b.day)
  }

  /** `a <= b` on dates: Python's order is total, so `<=` is exactly "not greater". */
  predicate DateLessEq(a: Date, b: Date): (r: bool)
    ensures r <==> !DateLess(b, a)
  {
    DateLess(a, b) || a == b
  }

  /** Any two dates are ordered one way, the other, or equal, and never both ways. */
  lemma DateOrderTotal(a: Date, b: Date)
    ensures DateLess(a, b) || a == b || DateLess(b, a)
    ensures !(DateLess(a, b) && DateLess(b, a))
    ensures !DateLess(a, a)
  {
  }

  /** The transitivity `current_date <= end_date` relies on when the date moves forward. */
  lemma DateLessTransitive(a: Date, b: Date, c: Date)
    requires DateLess(a, b) && DateLess(b, c)
    ensures DateLess(a, c)
  {
  }

  /** Months counted from January of year 0; one calendar month is one step. */
  function MonthIndex(d: Date): int {
    d.year * 12 + d.month - 1
  }

  /** Python's date order refines the order of months. */
  lemma MonthIndexMonotone(a: Date, b: Date)
    requires ValidDate(a) && ValidDate(b) && DateLessEq(a, b)
    ensures MonthIndex(a) <= MonthIndex(b)
  {
  }

  /** Days in the years before `y` (Python's `_days_before_year`). */
  function DaysBeforeYear(y: int): int
    requires y >= 1
  {
    var p := y - 1;
    p * 365 + p / 4 - p / 100 + p / 400
  }

  /** Days in the months of year `y` before month `m` (Python's `_days_before_month`). */
  function DaysBeforeMonth(y: int, m: int): int
    requires 1 <= m <= 12
  {
    var common :=
      if m == 1 then 0 else if m == 2 then 31 else if m == 3 then 59
      else if m == 4 then 90 else if m == 5 then 120 else if m == 6 then 151
      else if m == 7 then 181 else if m == 8 then 212 else if m == 9 then 243
      else if m == 10 then 273 else if m == 11 then 304 else 334;
    common + (if m > 2 && IsLeap(y) then 1 else 0)
  }

  /** Python's `date.toordinal`: 0001-01-01 is day 1. */
  function Ordinal(d: Date): int
    requires ValidDate(d)
  {
    DaysBeforeYear(d.year) + DaysBeforeMonth(d.year, d.month) + d.day
  }

  /** 0001-01-01 is day 1 of Python's ordinals, and 2000-01-01, where the fetch loop starts, is day 730120. */
  lemma OrdinalLandmarks()
    ensures Ordinal(Date(1, 1, 1)) == 1
    ensures Ordinal(Date(2000, 1, 1)) == 730120
  {
    assert DaysBeforeYear(2000) == 730119;
  }

  /** The first day of the calendar month after the month of `d`. */
  function FirstOfNextMonth(d: Date): (r: Date)
    requires ValidDate(d)
    ensures ValidDate(r) && r.day == 1
    ensures MonthIndex(r) == MonthIndex(d) + 1
    ensures DateLess(d, r)
  {
    if d.month == 12 then Date(d.year + 1, 1, 1) else Date(d.year, d.month + 1, 1)
  }

  /**
   * The date `n` days after `d`: it stays in the month while the month has
   * room, otherwise it moves to the first of the next month with the days
   * that remain. Its partner is the ordinal: `AddDaysOrdinal` proves that
   * the result is the date whose ordinal is `n` more than that of `d`, which
   * is how Python defines it.
   */
  function AddDays(d: Date, n: nat): (r: Date)
    requires ValidDate(d)
    ensures ValidDate(r) && DateLessEq(d, r)
    decreases n
  {
    var dim := DaysInMonth(d.year, d.month);
    if d.day + n <= dim then
      Date(d.year, d.month, d.day + n)
    else
      AddDays(FirstOfNextMonth(d), n - (dim - d.day + 1))
  }

  /** `date + timedelta(days=n)`: OverflowError (None) past year 9999. */
  function AddTimedelta(d: Date, n: nat): (r: Option<Date>)
    requires InRange(d)
    ensures r.Some? ==> InRange(r.value) && r.value == AddDays(d, n)
    ensures r.None? <==> AddDays(d, n).year > MaxYear
  {
    var s := AddDays(d, n);
    if s.year > MaxYear then None else Some(s)
  }

  // ---------------------------------------------------------------------
  // Ordinal arithmetic

  /** Stepping the year by one moves `y / k` by one exactly when `k` divides `y`. */
  lemma DivStep(y: int, k: int)
    requires k == 4 || k == 100 || k == 400
    ensures y / k - (y - 1) / k == if y % k == 0 then 1 else 0
  {
    if k == 4 {
      assert y / 4 - (y - 1) / 4 == if y % 4 == 0 then 1 else 0;
    } else if k == 100 {
      assert y / 100 - (y - 1) / 100 == if y % 100 == 0 then 1 else 0;
    } else {
      assert y / 400 - (y - 1) / 400 == if y % 400 == 0 then 1 else 0;
    }
  }

  lemma DaysBeforeYearStep(y: int)
    requires y >= 1
    ensures DaysBeforeYear(y + 1) == DaysBeforeYear(y) + DaysInYear(y)
  {
    DivStep(y, 4);
    DivStep(y, 100);
    DivStep(y, 400);
    LeapCount(y);
  }

  /** The leap-year rule as a count of the divisors 4, 100 and 400 of `y`. */
  lemma LeapCount(y: int)
    ensures (if y % 4 == 0 then 1 else 0) - (if y % 100 == 0 then 1 else 0)
            + (if y % 400 == 0 then 1 else 0) == DaysInYear(y) - 365
  {
    if y % 400 == 0 {
      var q := y / 400;
      assert y == 400 * q;
      assert y == 100 * (4 * q);
      assert y == 4 * (100 * q);
    } else if y % 100 == 0 {
      var q := y / 100;
      assert y == 100 * q;
      assert y == 4 * (25 * q);
    }
  }

  lemma {:induction false} DaysBeforeYearMonotone(a: int, b: int)
    requires 1 <= a <= b
    ensures DaysBeforeYear(a) + (b - a) * 365 <= DaysBeforeYear(b)
    decreases b - a
  {
    if a < b {
      DaysBeforeYearStep(a);
      DaysBeforeYearMonotone(a + 1, b);
    }
  }

  lemma DaysBeforeMonthStep(y: int, m: int)
    requires 1 <= m <= 12
    ensures DaysBeforeMonth(y, m) + DaysInMonth(y, m)
            == if m == 12 then DaysInYear(y) else DaysBeforeMonth(y, m + 1)
  {
  }

  lemma DaysBeforeMonthMonotone(y: int, a: int, b: int)
    requires 1 <= a <= b <= 12
    ensures DaysBeforeMonth(y, a) <= DaysBeforeMonth(y, b)
  {
  }

  lemma OrdinalOfFirstOfNextMonth(d: Date)
    requires ValidDate(d)
    ensures Ordinal(FirstOfNextMonth(d)) == Ordinal(d) + DaysInMonth(d.year, d.month) - d.day + 1
  {
    DaysBeforeMonthStep(d.year, d.month);
    if d.month == 12 {
      DaysBeforeYearStep(d.year);
    }
  }

  /** Ordinals within one year lie between the year's first and last day. */
  lemma OrdinalWithinYear(d: Date)
    requires ValidDate(d)
    ensures DaysBeforeYear(d.year) < Ordinal(d) <= DaysBeforeYear(d.year) + DaysInYear(d.year)
  {
    DaysBeforeMonthStep(d.year, d.month);
    if d.month < 12 {
      DaysBeforeMonthMonotone(d.year, d.month + 1, 12);
      DaysBeforeMonthStep(d.year, 12);
    }
  }

  /** Python's order on dates and the order of their ordinals agree. */
  lemma OrdinalMonotone(a: Date, b: Date)
    requires ValidDate(a) && ValidDate(b)
    ensures DateLess(a, b) <==> Ordinal(a) < Ordinal(b)
  {
    if a.year < b.year {
      OrdinalBefore(a, b);
    } else if b.year < a.year {
      OrdinalBefore(b, a);
    } else if a.month < b.month {
      DaysBeforeMonthStep(a.year, a.month);
      DaysBeforeMonthMonotone(a.year, a.month + 1, b.month);
    } else if b.month < a.month {
      DaysBeforeMonthStep(b.year, b.month);
      DaysBeforeMonthMonotone(b.year, b.month + 1, a.month);
    }
  }

  lemma OrdinalBefore(a: Date, b: Date)
    requires ValidDate(a) && ValidDate(b) && a.year < b.year
    ensures Ordinal(a) < Ordinal(b)
  {
    OrdinalWithinYear(a);
    OrdinalWithinYear(b);
    DaysBeforeYearStep(a.year);
    DaysBeforeYearMonotone(a.year + 1, b.year);
  }

  /** Distinct valid dates have distinct ordinals. */
  lemma OrdinalInjective(a: Date, b: Date)
    requires ValidDate(a) && ValidDate(b)
    ensures Ordinal(a) == Ordinal(b) <==> a == b
  {
    OrdinalMonotone(a, b);
    OrdinalMonotone(b, a);
  }

  /** `AddDays` is Python's `date + timedelta`: the ordinal grows by exactly `n`. */
  lemma {:induction false} AddDaysOrdinal(d: Date, n: nat)
    requires ValidDate(d)
    ensures Ordinal(AddDays(d, n)) == Ordinal(d) + n
    decreases n
  {
    var dim := DaysInMonth(d.year, d.month);
    if d.day + n > dim {
      OrdinalOfFirstOfNextMonth(d);
      AddDaysOrdinal(FirstOfNextMonth(d), n - (dim - d.day + 1));
    }
  }

  /** Adding days never moves a date backwards, and adding any days moves it forwards. */
  lemma AddDaysAdvances(d: Date, n: nat)
    requires ValidDate(d)
    ensures n > 0 <==> DateLess(d, AddDays(d, n))
    ensures DateLessEq(d, AddDays(d, n))
  {
    AddDaysOrdinal(d, n);
    OrdinalMonotone(d, AddDays(d, n));
    OrdinalInjective(d, AddDays(d, n));
  }

  /** Adding days composes: (d + m) + n == d + (m + n). */
  lemma AddDaysCompose(d: Date, m: nat, n: nat)
    requires ValidDate(d)
    ensures AddDays(AddDays(d, m), n) == AddDays(d, m + n)
  {
    AddDaysOrdinal(d, m);
    AddDaysOrdinal(AddDays(d, m), n);
    AddDaysOrdinal(d, m + n);
    OrdinalInjective(AddDays(AddDays(d, m), n), AddDays(d, m + n));
  }

  // ---------------------------------------------------------------------
  // Adding 31 days, the stride of the fetch loop

  /**
   * The exact result of adding 31 days. With `k` the day-of-month the date
   * would have in the next month: if the next month has `k` days it lands
   * there, otherwise on day `k - length` of the month after.
   */
  lemma AddThirtyOneDays(d: Date)
    requires ValidDate(d)
    ensures var dim := DaysInMonth(d.year, d.month);
            var n1 := FirstOfNextMonth(d);
            var n2 := FirstOfNextMonth(n1);
            var k := d.day + 31 - dim;
            var dim1 := DaysInMonth(n1.year, n1.month);
            AddDays(d, 31) == if k <= dim1 then Date(n1.year, n1.month, k)
                              else Date(n2.year, n2.month, k - dim1)
  {
    var dim := DaysInMonth(d.year, d.month);
    var n1 := FirstOfNextMonth(d);
    var rest := 31 - (dim - d.day + 1);
    assert AddDays(d, 31) == AddDays(n1, rest);
    var dim1 := DaysInMonth(n1.year, n1.month);
    if 1 + rest > dim1 {
      var n2 := FirstOfNextMonth(n1);
      assert AddDays(n1, rest) == AddDays(n2, rest - dim1);
    }
  }

  /**
   * No month is longer than 31 days and two consecutive months have at least
   * 59, so adding 31 days moves to the next calendar month or the one after.
   * It skips a month exactly when the next month is too short for the day.
   */
  lemma ThirtyOneDaysMonthStep(d: Date)
    requires ValidDate(d)
    ensures var step := MonthIndex(AddDays(d, 31)) - MonthIndex(d);
            1 <= step <= 2
            && (step == 2 <==> d.day + 31 - DaysInMonth(d.year, d.month)
                               > DaysInMonth(FirstOfNextMonth(d).year, FirstOfNextMonth(d).month))
  {
    AddThirtyOneDays(d);
  }

  /** May 31 plus 31 days is July 1: June is skipped. */
  lemma MayThirtyFirstSkipsJune(y: int)
    requires y >= MinYear
    ensures AddDays(Date(y, 5, 31), 31) == Date(y, 7, 1)
  {
    AddThirtyOneDays(Date(y, 5, 31));
  }

  /** January 31 plus 31 days skips February, in leap and common years. */
  lemma JanuaryThirtyFirstSkipsFebruary(y: int)
    requires y >= MinYear
    ensures AddDays(Date(y, 1, 31), 31) == Date(y, 3, if IsLeap(y) then 2 else 3)
  {
    AddThirtyOneDays(Date(y, 1, 31));
  }
}
