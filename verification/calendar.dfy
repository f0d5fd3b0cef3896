/** Proleptic Gregorian calendar dates as Python's `datetime.date` and
    dateutil's `relativedelta` treat them: a date is a (year, month, day)
    triple, dates are compared as tuples, `toordinal()` counts days from
    0001-01-01 (ordinal 1) and `weekday()` is 0 on a Monday. Day and week
    offsets are exact because every one-day step moves the ordinal by one. */
module Calendar {

  datatype Date = Date(year: int, month: int, day: int)

  predicate IsLeapYear(y: int) {
    y % 4 == 0 && (y % 100 != 0 || y % 400 == 0)
  }

  function DaysInMonth(y: int, m: int): (n: int)
    requires 1 <= m <= 12
    ensures 28 <= n <= 31
    ensures n == 29 <==> m == 2 && IsLeapYear(y)
  {
    if m == 2 then (if IsLeapYear(y) then 29 else 28)
    else if m == 4 || m == 6 || m == 9 || m == 11 then 30
    else 31
  }

  /** A calendar date that exists. */
  predicate Valid(d: Date) {
    1 <= d.month <= 12 && 1 <= d.day <= DaysInMonth(d.year, d.month)
  }

  function YearLength(y: int): int {
    if IsLeapYear(y) then 366 else 365
  }

  /** Days in the years before `y` (counted from year 1). */
  function DaysBeforeYear(y: int): int {
    var p := y - 1;
    365 * p + p / 4 - p / 100 + p / 400
  }

  /** Days in the months of year `y` before month `m`. */
  function DaysBeforeMonth(y: int, m: int): int
    requires 1 <= m <= 12
  {
    var common := [0, 31, 59, 90, 120, 151, 181, 212, 243, 273, 304, 334][m - 1];
    if m > 2 && IsLeapYear(y) then common + 1 else common
  }

  /** `date.toordinal()`: 0001-01-01 has ordinal 1. */
  function Ordinal(d: Date): int
    requires Valid(d)
  {
    DaysBeforeYear(d.year) + DaysBeforeMonth(d.year, d.month) + d.day
  }

  /** `date.weekday()`: Monday is 0 and Sunday is 6. */
  function Weekday(d: Date): (w: int)
    requires Valid(d)
    ensures 0 <= w < 7
  {
    (Ordinal(d) + 6) % 7
  }

  // ---------------------------------------------------------------------
  // Arithmetic facts about the day count

  lemma DivStep4(p: int)
    ensures (p + 1) / 4 == p / 4 + (if (p + 1) % 4 == 0 then 1 else 0)
  {
  }

  lemma DivStep100(p: int)
    ensures (p + 1) / 100 == p / 100 + (if (p + 1) % 100 == 0 then 1 else 0)
  {
  }

  lemma DivStep400(p: int)
    ensures (p + 1) / 400 == p / 400 + (if (p + 1) % 400 == 0 then 1 else 0)
  {
  }

  lemma Divides400(y: int)
    requires y % 400 == 0
    ensures y % 100 == 0
  {
    assert y == 100 * (4 * (y / 400));
  }

  lemma Divides100(y: int)
    requires y % 100 == 0
    ensures y % 4 == 0
  {
    assert y == 4 * (25 * (y / 100));
  }

  /** The century corrections add up to the leap-day count of year `y`. */
  lemma LeapIndicator(y: int)
    ensures (if y % 4 == 0 then 1 else 0) - (if y % 100 == 0 then 1 else 0) + (if y % 400 == 0 then 1 else 0)
            == YearLength(y) - 365
  {
    if y % 400 == 0 {
      Divides400(y);
      Divides100(y);
    } else if y % 100 == 0 {
      Divides100(y);
    }
  }

  lemma YearStep(y: int)
    ensures DaysBeforeYear(y + 1) == DaysBeforeYear(y) + YearLength(y)
  {
    var p := y - 1;
    DivStep4(p);
    DivStep100(p);
    DivStep400(p);
    LeapIndicator(y);
  }

  lemma MonthStep(y: int, m: int)
    requires 1 <= m < 12
    ensures DaysBeforeMonth(y, m + 1) == DaysBeforeMonth(y, m) + DaysInMonth(y, m)
  {
  }

  lemma LastMonthEnd(y: int)
    ensures DaysBeforeMonth(y, 12) + 31 == YearLength(y)
  {
  }

  /** A later month of the same year starts after the earlier one ends. */
  lemma {:induction false} MonthsIncrease(y: int, m1: int, m2: int)
    requires 1 <= m1 < m2 <= 12
    ensures DaysBeforeMonth(y, m1) + DaysInMonth(y, m1) <= DaysBeforeMonth(y, m2)
    decreases m2 - m1
  {
    MonthStep(y, m1);
    if m1 + 1 < m2 {
      MonthsIncrease(y, m1 + 1, m2);
    }
  }

  /** A later year starts after the earlier one ends. */
  lemma {:induction false} YearsIncrease(y1: int, y2: int)
    requires y1 < y2
    ensures DaysBeforeYear(y1) + YearLength(y1) <= DaysBeforeYear(y2)
    decreases y2 - y1
  {
    YearStep(y1);
    if y1 + 1 < y2 {
      YearsIncrease(y1 + 1, y2);
      YearStep(y1 + 1);
    }
  }

  /** Every date of year `y` has an ordinal inside that year's span. */
  lemma OrdinalInYear(d: Date)
    requires Valid(d)
    ensures DaysBeforeYear(d.year) < Ordinal(d) <= DaysBeforeYear(d.year) + YearLength(d.year)
  {
    LastMonthEnd(d.year);
    if d.month < 12 {
      MonthsIncrease(d.year, d.month, 12);
    }
  }

  // ---------------------------------------------------------------------
  // Ordering

  /** Python's `a < b` on dates: tuple order of (year, month, day). */
  predicate Before(a: Date, b: Date) {
    a.year < b.year
    || (a.year == b.year && (a.month < b.month || (a.month == b.month && a.day < b.day)))
  }

  /** Python's `a <= b` on dates. */
  predicate OnOrBefore(a: Date, b: Date) {
    a == b || Before(a, b)
  }

  /** Tuple order on dates agrees with the order of their ordinals. */
  lemma {:induction false} OrdinalMonotone(a: Date, b: Date)
    requires Valid(a) && Valid(b)
    ensures Before(a, b) <==> Ordinal(a) < Ordinal(b)
  {
    if Before(a, b) {
      OrderedOrdinals(a, b);
    } else if a != b {
      OrderedOrdinals(b, a);
    }
  }

  lemma OrderedOrdinals(a: Date, b: Date)
    requires Valid(a) && Valid(b) && Before(a, b)
    ensures Ordinal(a) < Ordinal(b)
  {
    if a.year < b.year {
      OrdinalInYear(a);
      OrdinalInYear(b);
      YearsIncrease(a.year, b.year);
    } else if a.month < b.month {
      MonthsIncrease(a.year, a.month, b.month);
    }
  }

  /** Distinct valid dates have distinct ordinals. */
  lemma OrdinalInjective(a: Date, b: Date)
    requires Valid(a) && Valid(b) && Ordinal(a) == Ordinal(b)
    ensures a == b
  {
    OrdinalMonotone(a, b);
    OrdinalMonotone(b, a);
  }

  lemma OnOrBeforeOrdinal(a: Date, b: Date)
    requires Valid(a) && Valid(b)
    ensures OnOrBefore(a, b) <==> Ordinal(a) <= Ordinal(b)
  {
    OrdinalMonotone(a, b);
    if Ordinal(a) == Ordinal(b) {
      OrdinalInjective(a, b);
    }
  }

  /** Python's `max(a, b)` on dates: `b` only when it is strictly later. */
  function MaxDate(a: Date, b: Date): (r: Date)
    ensures r == a || r == b
    ensures OnOrBefore(a, r) && OnOrBefore(b, r)
  {
    if Before(a, b) then b else a
  }

  /** Python's `min(a, b)` on dates: `b` only when it is strictly earlier. */
  function MinDate(a: Date, b: Date): (r: Date)
    ensures r == a || r == b
    ensures OnOrBefore(r, a) && OnOrBefore(r, b)
  {
    if Before(b, a) then b else a
  }

  // ---------------------------------------------------------------------
  // Day arithmetic

  /** `d + timedelta(days=1)`. */
  function NextDay(d: Date): (r: Date)
    requires Valid(d)
    ensures Valid(r) && Ordinal(r) == Ordinal(d) + 1
  {
    if d.day < DaysInMonth(d.year, d.month) then
      Date(d.year, d.month, d.day + 1)
    else if d.month < 12 then
      MonthStep(d.year, d.month);
      Date(d.year, d.month + 1, 1)
    else
      LastMonthEnd(d.year);
      YearStep(d.year);
      Date(d.year + 1, 1, 1)
  }

  /** `d - timedelta(days=1)`. */
  function PrevDay(d: Date): (r: Date)
    requires Valid(d)
    ensures Valid(r) && Ordinal(r) == Ordinal(d) - 1
  {
    if d.day > 1 then
      Date(d.year, d.month, d.day - 1)
    else if d.month > 1 then
      MonthStep(d.year, d.month - 1);
      Date(d.year, d.month - 1, DaysInMonth(d.year, d.month - 1))
    else
      LastMonthEnd(d.year - 1);
      YearStep(d.year - 1);
      Date(d.year - 1, 12, 31)
  }

  /** `d + relativedelta(days=n)` (and `weeks=w` is `days=7*w`): the date
      whose ordinal is `n` more than that of `d`. */
  function AddDays(d: Date, n: int): (r: Date)
    requires Valid(d)
    ensures Valid(r) && Ordinal(r) == Ordinal(d) + n
    decreases if n < 0 then -n else n
  {
    if n == 0 then d
    else if n > 0 then AddDays(NextDay(d), n - 1)
    else AddDays(PrevDay(d), n + 1)
  }

  /** Going back `k` days inside the month only lowers the day number. */
  lemma BackWithinMonth(d: Date, k: int)
    requires Valid(d) && 0 <= k < d.day
    ensures AddDays(d, -k) == Date(d.year, d.month, d.day - k)
  {
    var e := Date(d.year, d.month, d.day - k);
    assert Valid(e) && Ordinal(e) == Ordinal(d) - k;
    AddDaysUnique(d, -k, e);
  }

  /** Any valid date at the right distance is the result of AddDays. */
  lemma AddDaysUnique(d: Date, n: int, e: Date)
    requires Valid(d) && Valid(e) && Ordinal(e) == Ordinal(d) + n
    ensures AddDays(d, n) == e
  {
    OrdinalInjective(AddDays(d, n), e);
  }

  /** `d.replace(day=1)`. */
  function FirstOfMonth(d: Date): (r: Date)
    requires Valid(d)
    ensures Valid(r) && r.day == 1
    ensures r.year == d.year && r.month == d.month
  {
    Date(d.year, d.month, 1)
  }

  /** The source reaches the first of the month as
      `d - relativedelta(days=d.day - 1)`; that is `d.replace(day=1)`. */
  lemma FirstOfMonthByDays(d: Date)
    requires Valid(d)
    ensures AddDays(d, -(d.day - 1)) == FirstOfMonth(d)
  {
    BackWithinMonth(d, d.day - 1);
  }

  /** Stepping back by the weekday lands on a multiple of seven (a Monday). */
  lemma BackToMonday(o: int)
    ensures (o - (o + 6) % 7 + 6) % 7 == 0
  {
    var q := (o + 6) / 7;
    assert o + 6 == 7 * q + (o + 6) % 7;
    assert o - (o + 6) % 7 + 6 == 7 * q;
  }

  /** Two ordinals less than a week apart with the same weekday are equal. */
  lemma SameWeekday(a: int, b: int)
    requires (a + 6) % 7 == (b + 6) % 7
    requires -6 <= a - b <= 6
    ensures a == b
  {
    var qa, qb := (a + 6) / 7, (b + 6) / 7;
    assert a + 6 == 7 * qa + (a + 6) % 7;
    assert b + 6 == 7 * qb + (b + 6) % 7;
    assert a - b == 7 * (qa - qb);
  }

  /** The Monday on or before `d`: `d - relativedelta(days=d.weekday())`. */
  function MondayOf(d: Date): (r: Date)
    requires Valid(d)
    ensures Valid(r) && Weekday(r) == 0
    ensures Ordinal(d) - 6 <= Ordinal(r) <= Ordinal(d)
  {
    var w := Weekday(d);
    var r := AddDays(d, -w);
    BackToMonday(Ordinal(d));
    r
  }

  /** Any Monday at most six days before `d` is the Monday of `d`'s week. */
  lemma MondayOfUnique(d: Date, m: Date)
    requires Valid(d) && Valid(m) && Weekday(m) == 0
    requires Ordinal(d) - 6 <= Ordinal(m) <= Ordinal(d)
    ensures MondayOf(d) == m
  {
    var r := MondayOf(d);
    SameWeekday(Ordinal(r), Ordinal(m));
    OrdinalInjective(r, m);
  }

  // ---------------------------------------------------------------------
  // Month arithmetic

  /** Months since year 0, the scale on which `relativedelta(months=k)` moves. */
  function MonthIndex(d: Date): int {
    d.year * 12 + (d.month - 1)
  }

  /** `d + relativedelta(months=k)`: move `k` months and clamp the day to the
      length of the target month. */
  function AddMonths(d: Date, k: int): (r: Date)
    requires Valid(d)
    ensures Valid(r) && MonthIndex(r) == MonthIndex(d) + k
    ensures r.day <= d.day
    ensures r.day == d.day || r.day == DaysInMonth(r.year, r.month)
  {
    var total := MonthIndex(d) + k;
    var y, m := total / 12, total % 12 + 1;
    var last := DaysInMonth(y, m);
    Date(y, m, if d.day <= last then d.day else last)
  }

  /** dateutil's own stepping for `|k| <= 11`: add `k` to the month and carry
      at most one year, then clamp the day. */
  function RelativeMonths(d: Date, k: int): (r: Date)
    requires Valid(d) && -11 <= k <= 11
    ensures Valid(r)
  {
    var m0 := d.month + k;
    var y := if m0 > 12 then d.year + 1 else if m0 < 1 then d.year - 1 else d.year;
    var m := if m0 > 12 then m0 - 12 else if m0 < 1 then m0 + 12 else m0;
    var last := DaysInMonth(y, m);
    Date(y, m, if d.day <= last then d.day else last)
  }

  /** The month-index definition agrees with dateutil's carry algorithm. */
  lemma AddMonthsIsRelativeMonths(d: Date, k: int)
    requires Valid(d) && -11 <= k <= 11
    ensures AddMonths(d, k) == RelativeMonths(d, k)
  {
    var r := RelativeMonths(d, k);
    assert MonthIndex(r) == MonthIndex(d) + k;
    var total := MonthIndex(d) + k;
    assert total == r.year * 12 + (r.month - 1) && 0 <= r.month - 1 < 12;
    assert total / 12 == r.year && total % 12 == r.month - 1;
  }

  /** Moving a date whose day exists in every month forward and back by the
      same number of months returns it. */
  lemma AddMonthsRoundTrip(d: Date, k: int)
    requires Valid(d) && d.day <= 28
    ensures AddMonths(AddMonths(d, k), -k) == d
  {
    var r := AddMonths(AddMonths(d, k), -k);
    assert MonthIndex(r) == MonthIndex(d);
    assert r.year == d.year && r.month == d.month by {
      var t := MonthIndex(d);
      assert t == d.year * 12 + (d.month - 1) && 0 <= d.month - 1 < 12;
      assert t == r.year * 12 + (r.month - 1) && 0 <= r.month - 1 < 12;
    }
  }
}
