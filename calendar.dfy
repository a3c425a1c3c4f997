// Instants are JavaScript time values: milliseconds since 1970-01-01T00:00Z.
// All calendar fields are read in UTC (the browser's time zone is not
// modelled). Dates follow the proleptic Gregorian calendar, as `Date` does.
module Calendar {
  const DayMs: int := 86400000
  const HourMs: int := 3600000
  const MinuteMs: int := 60000

  /** A calendar date; `month` runs 1..12 (JavaScript's `getMonth()` is `month - 1`). */
  datatype Date = Date(year: int, month: int, day: int)

  predicate Leap(y: int)
  {
    y % 4 == 0 && (y % 100 != 0 || y % 400 == 0)
  }

  function YearLength(y: int): int
  {
    if Leap(y) then 366 else 365
  }

  /** Days of the year before the first of month `m` (13 gives the whole year). */
  function DaysBeforeMonth(y: int, m: int): int
    requires 1 <= m <= 13
  {
    var common :=
      if m == 1 then 0 else if m == 2 then 31 else if m == 3 then 59 else if m == 4 then 90
      else if m == 5 then 120 else if m == 6 then 151 else if m == 7 then 181 else if m == 8 then 212
      else if m == 9 then 243 else if m == 10 then 273 else if m == 11 then 304 else if m == 12 then 334
      else 365;
    common + (if m > 2 && Leap(y) then 1 else 0)
  }

  function MonthLength(y: int, m: int): (r: int)
    requires 1 <= m <= 12
    ensures 28 <= r <= 31
    ensures m == 2 ==> (r == 29 <==> Leap(y))
  {
    DaysBeforeMonth(y, m + 1) - DaysBeforeMonth(y, m)
  }

  predicate ValidDate(d: Date)
  {
    1 <= d.month <= 12 && 1 <= d.day <= MonthLength(d.year, d.month)
  }

  /** Days from 1970-01-01 to the first of January of `y` (negative before 1970). */
  function DaysBeforeYear(y: int): int
    decreases if y < 1970 then 1970 - y else y - 1970
  {
    if y == 1970 then 0
    else if y > 1970 then DaysBeforeYear(y - 1) + YearLength(y - 1)
    else DaysBeforeYear(y + 1) - YearLength(y)
  }

  lemma YearStep(y: int)
    ensures DaysBeforeYear(y + 1) == DaysBeforeYear(y) + YearLength(y)
  {
  }

  lemma {:induction false} YearMonotone(a: int, b: int)
    requires a < b
    ensures DaysBeforeYear(a) + YearLength(a) <= DaysBeforeYear(b)
    decreases b - a
  {
    YearStep(a);
    if a + 1 < b {
      YearMonotone(a + 1, b);
      YearStep(a + 1);
    }
  }

  /**
   * The day number of a date: its offset in days from 1970-01-01. A day
   * past the end of the month counts on into the following months, as the
   * `Date` constructor and `setMonth` do.
   */
  function DayNumber(d: Date): int
    requires 1 <= d.month <= 12
  {
    DaysBeforeYear(d.year) + DaysBeforeMonth(d.year, d.month) + d.day - 1
  }

  function YearFrom(z: int, y: int): (r: int)
    requires DaysBeforeYear(y) <= z
    ensures DaysBeforeYear(r) <= z < DaysBeforeYear(r + 1)
    decreases z - DaysBeforeYear(y)
  {
    YearStep(y);
    if z < DaysBeforeYear(y + 1) then y else YearFrom(z, y + 1)
  }

  function YearBefore(z: int, y: int): (r: int)
    requires z < DaysBeforeYear(y + 1)
    ensures DaysBeforeYear(r) <= z < DaysBeforeYear(r + 1)
    decreases DaysBeforeYear(y + 1) - z
  {
    YearStep(y);
    if DaysBeforeYear(y) <= z then y else YearBefore(z, y - 1)
  }

  /** The year that contains day number `z`. */
  function YearOfDay(z: int): (r: int)
    ensures DaysBeforeYear(r) <= z < DaysBeforeYear(r + 1)
  {
    if z >= 0 then YearFrom(z, 1970) else YearBefore(z, 1969)
  }

  /** Only one year contains a given day. */
  lemma YearUnique(z: int, y: int)
    requires DaysBeforeYear(y) <= z < DaysBeforeYear(y + 1)
    ensures YearOfDay(z) == y
  {
    var r := YearOfDay(z);
    if r < y {
      YearMonotone(r, y);
      YearStep(r);
    } else if y < r {
      YearMonotone(y, r);
      YearStep(y);
    }
  }

  function MonthSearch(y: int, doy: int, m: int): (r: int)
    requires 1 <= m <= 12 && 0 <= doy < DaysBeforeMonth(y, m + 1)
    ensures 1 <= r <= m && DaysBeforeMonth(y, r) <= doy < DaysBeforeMonth(y, r + 1)
    decreases m
  {
    if DaysBeforeMonth(y, m) <= doy then m else MonthSearch(y, doy, m - 1)
  }

  /** The civil date of day number `z`. */
  function DateOfDay(z: int): (r: Date)
    ensures ValidDate(r) && DayNumber(r) == z
  {
    var y := YearOfDay(z);
    YearStep(y);
    var doy := z - DaysBeforeYear(y);
    var m := MonthSearch(y, doy, 12);
    Date(y, m, doy - DaysBeforeMonth(y, m) + 1)
  }

  lemma {:induction false} MonthMonotone(y: int, a: int, b: int)
    requires 1 <= a < b <= 13
    ensures DaysBeforeMonth(y, a + 1) <= DaysBeforeMonth(y, b)
    decreases b - a
  {
    if a + 1 < b {
      MonthMonotone(y, a + 1, b);
    }
  }

  /** Only one month of a year contains a given day of the year. */
  lemma {:induction false} MonthSearchUnique(y: int, doy: int, m: int, k: int)
    requires 1 <= k <= m <= 12 && DaysBeforeMonth(y, k) <= doy < DaysBeforeMonth(y, k + 1)
    ensures MonthSearch(y, doy, m) == k
    decreases m
  {
    if k < m {
      MonthMonotone(y, k, m);
      MonthMonotone(y, k, m + 1);
      MonthSearchUnique(y, doy, m - 1, k);
    }
  }

  /** Day numbers and valid dates correspond one to one. */
  lemma DateRoundTrip(d: Date)
    requires ValidDate(d)
    ensures DateOfDay(DayNumber(d)) == d
  {
    var z := DayNumber(d);
    var y := d.year;
    YearStep(y);
    YearUnique(z, y);
    var doy := z - DaysBeforeYear(y);
    assert DaysBeforeMonth(y, d.month) <= doy < DaysBeforeMonth(y, d.month + 1);
    MonthMonotone(y, d.month, 13);
    MonthSearchUnique(y, doy, 12, d.month);
  }

  // ---------------------------------------------------------------------
  // Time values
  // ---------------------------------------------------------------------

  /** The calendar date of instant `t` (`getFullYear`, `getMonth() + 1`, `getDate`). */
  function DateOf(t: int): (r: Date)
    ensures ValidDate(r) && DayNumber(r) == t / DayMs
  {
    DateOfDay(t / DayMs)
  }

  /** `d.setHours(0, 0, 0, 0)`: the start of the day containing `t`. */
  function Midnight(t: int): (r: int)
    ensures r <= t < r + DayMs && r % DayMs == 0 && r / DayMs == t / DayMs
  {
    (t / DayMs) * DayMs
  }

  /** Midnight falls on the same date. */
  lemma MidnightSameDate(t: int)
    ensures DateOf(Midnight(t)) == DateOf(t)
  {
  }

  /** `new Date("YYYY-MM-DD")`: midnight at the start of that date. */
  function StartOf(d: Date): (r: int)
    requires 1 <= d.month <= 12
    ensures r % DayMs == 0 && r / DayMs == DayNumber(d)
  {
    DayNumber(d) * DayMs
  }

  /** The start of a valid date falls on that date. */
  lemma StartOfDate(d: Date)
    requires ValidDate(d)
    ensures DateOf(StartOf(d)) == d
  {
    DateRoundTrip(d);
  }

  /** Instants on the same date at the same time of day are equal. */
  lemma SameInstant(a: int, b: int)
    requires DateOf(a) == DateOf(b) && a % DayMs == b % DayMs
    ensures a == b
  {
    assert a / DayMs == b / DayMs;
  }

  /** The date `k` months after `d` on the same day of the month, which the target month may lack. */
  function ShiftMonths(d: Date, k: int): Date
  {
    var total := d.year * 12 + d.month - 1 + k;
    Date(total / 12, total % 12 + 1, d.day)
  }

  /**
   * `next.setMonth(next.getMonth() + k)`: the same day of the month and time
   * of day `k` months on, a day the target month lacks running on into the
   * month after it.
   */
  function AddMonths(t: int, k: int): int
  {
    DayNumber(ShiftMonths(DateOf(t), k)) * DayMs + t % DayMs
  }

  /** When the target month has the day, the result keeps day and time of day. */
  lemma AddMonthsKeepsDay(t: int, k: int)
    requires ValidDate(ShiftMonths(DateOf(t), k))
    ensures DateOf(AddMonths(t, k)) == ShiftMonths(DateOf(t), k)
    ensures AddMonths(t, k) % DayMs == t % DayMs
  {
    var target := ShiftMonths(DateOf(t), k);
    var r := AddMonths(t, k);
    assert r / DayMs == DayNumber(target) && r % DayMs == t % DayMs;
    DateRoundTrip(target);
  }

  /** Within one year, shifting months moves only the month. */
  lemma ShiftWithinYear(y: int, m: int, day: int, k: int)
    requires 1 <= m && 0 <= k && m + k <= 12
    ensures ShiftMonths(Date(y, m, day), k) == Date(y, m + k, day)
  {
    var j := m - 1 + k;
    assert y * 12 + j == 12 * y + j;
    assert (12 * y + j) / 12 == y && (12 * y + j) % 12 == j;
  }

  lemma FirstIsValid(y: int, m: int)
    requires 1 <= m <= 12
    ensures ValidDate(Date(y, m, 1))
  {
    assert MonthLength(y, m) >= 28;
  }

  /** Adding months to the first of a month, within one year, gives the first of the target month. */
  lemma AddMonthsFromFirst(y: int, m: int, k: int)
    requires 1 <= m && 0 <= k && m + k <= 12
    ensures AddMonths(StartOf(Date(y, m, 1)), k) == StartOf(Date(y, m + k, 1))
  {
    var first := Date(y, m, 1);
    var target := Date(y, m + k, 1);
    var t := StartOf(first);
    assert ValidDate(first) && ValidDate(target) by {
      FirstIsValid(y, m);
      FirstIsValid(y, m + k);
    }
    assert DateOf(t) == first by {
      StartOfDate(first);
    }
    assert ShiftMonths(DateOf(t), k) == target by {
      ShiftWithinYear(y, m, 1, k);
    }
    var r := AddMonths(t, k);
    assert DateOf(r) == target && r % DayMs == 0 by {
      AddMonthsKeepsDay(t, k);
    }
    assert DateOf(StartOf(target)) == target && StartOf(target) % DayMs == 0 by {
      StartOfDate(target);
    }
    SameInstant(r, StartOf(target));
  }

  /** The 31st of January plus one month, in a common year, is the 3rd of March. */
  lemma JanuaryOverflow(y: int)
    requires !Leap(y)
    ensures DayNumber(Date(y, 2, 31)) == DayNumber(Date(y, 3, 3))
  {
  }

  // ---------------------------------------------------------------------
  // Age from a date of birth
  // ---------------------------------------------------------------------

  /** `a` falls on or before `b` in calendar order. */
  predicate OnOrBefore(a: Date, b: Date)
  {
    a.year < b.year || (a.year == b.year && (a.month < b.month || (a.month == b.month && a.day <= b.day)))
  }

  /**
   * The forms' age: the difference of the years, less one while this year's
   * birthday (same month and day) has not come.
   */
  function AgeOn(birth: Date, today: Date): int
  {
    var age := today.year - birth.year;
    var m := today.month - birth.month;
    if m < 0 || (m == 0 && today.day < birth.day) then age - 1 else age
  }

  /** The age is at least `n` exactly when the `n`-th birthday is on or before today. */
  lemma AgeAtLeast(birth: Date, today: Date, n: int)
    ensures AgeOn(birth, today) >= n <==> OnOrBefore(Date(birth.year + n, birth.month, birth.day), today)
  {
  }
}
