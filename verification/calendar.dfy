/**
 * The proleptic Gregorian calendar as Python's `datetime.date` counts it:
 * dates from 0001-01-01 to 9999-12-31, numbered by an ordinal in which
 * 0001-01-01 is day 1 (a Monday).
 *
 * `ToOrdinal` is the closed form `date.toordinal()` uses; `FromOrdinal`
 * decomposes an ordinal into 400-year cycles, centuries, 4-year groups and
 * years, and is proved to be its inverse, so it agrees with
 * `date.fromordinal()` on every ordinal that function accepts.
 */
module Calendar {

  const MinYear: int := 1
  const MaxYear: int := 9999
  /** The ordinal of 9999-12-31, the last date a `datetime.date` can hold. */
  const MaxOrdinal: int := 3652059

  const DaysPer400Years: int := 146097
  const DaysPer100Years: int := 36524
  const DaysPer4Years: int := 1461

  datatype Date = Date(year: int, month: int, day: int)

  predicate IsLeapYear(y: int) {
    y % 4 == 0 && (y % 100 != 0 || y % 400 == 0)
  }

  function DaysInYear(y: int): int {
    if IsLeapYear(y) then 366 else 365
  }

  function DaysInMonth(y: int, m: int): int
    requires 1 <= m <= 12
  {
    if m == 2 then (if IsLeapYear(y) then 29 else 28)
    else if m == 4 || m == 6 || m == 9 || m == 11 then 30
    else 31
  }

  /** Days in year `y` before the first of month `m`. */
  function DaysBeforeMonth(y: int, m: int): (n: int)
    requires 1 <= m <= 12
    ensures n + DaysInMonth(y, m) <= DaysInYear(y)
  {
    var common :=
      if m == 1 then 0 else if m == 2 then 31 else if m == 3 then 59
      else if m == 4 then 90 else if m == 5 then 120 else if m == 6 then 151
      else if m == 7 then 181 else if m == 8 then 212 else if m == 9 then 243
      else if m == 10 then 273 else if m == 11 then 304 else 334;
    common + (if m > 2 && IsLeapYear(y) then 1 else 0)
  }

  /** Days before January 1 of year `y`: the lengths of years 1 to `y - 1`, summed. */
  function DaysBeforeYear(y: int): int
    requires y >= 1
  {
    if y == 1 then 0 else DaysBeforeYear(y - 1) + DaysInYear(y - 1)
  }

  predicate ValidDate(d: Date) {
    && MinYear <= d.year <= MaxYear
    && 1 <= d.month <= 12
    && 1 <= d.day <= DaysInMonth(d.year, d.month)
  }

  /** Lexicographic order on (year, month, day). */
  predicate Before(a: Date, b: Date) {
    || a.year < b.year
    || (a.year == b.year && a.month < b.month)
    || (a.year == b.year && a.month == b.month && a.day < b.day)
  }

  /** `date.toordinal()`: the date's ordinal lies inside its own year's range. */
  function ToOrdinal(d: Date): (n: int)
    requires ValidDate(d)
    ensures DaysBeforeYear(d.year) < n <= DaysBeforeYear(d.year + 1)
    ensures 1 <= n <= MaxOrdinal
  {
    YearLength(d.year);
    DaysBeforeYearMonotone(MinYear, d.year);
    DaysBeforeYearMonotone(d.year + 1, MaxYear + 1);
    DaysBeforeYearClosedForm(MaxYear + 1);
    DaysBeforeYear(d.year) + DaysBeforeMonth(d.year, d.month) + d.day
  }

  /** `date.weekday()`: Monday is 0 and Sunday is 6. */
  function Weekday(d: Date): (w: int)
    requires ValidDate(d)
    ensures 0 <= w <= 6
  {
    (ToOrdinal(d) + 6) % 7
  }

  /** `date.fromordinal(n)`: the one valid date whose ordinal is `n`. */
  function FromOrdinal(n: int): (d: Date)
    requires 1 <= n <= MaxOrdinal
    ensures ValidDate(d) && ToOrdinal(d) == n
  {
    var q := (n - 1) / DaysPer400Years;
    var r := (n - 1) % DaysPer400Years;
    var k := YearInCycle(r);
    var y := 400 * q + 1 + k;
    var doy := r - DaysBeforeYear(1 + k);
    YearOfOrdinal(n, q, r, k);
    MonthLength(y, 12);
    var m := MonthOfDay(y, doy, 12);
    Date(y, m, doy - DaysBeforeMonth(y, m) + 1)
  }

  /** The cycle, year-in-cycle split of `n` names the year whose range holds `n`. */
  lemma YearOfOrdinal(n: int, q: int, r: int, k: int)
    requires 1 <= n <= MaxOrdinal
    requires q == (n - 1) / DaysPer400Years && r == (n - 1) % DaysPer400Years
    requires 0 <= k < 400 && DaysBeforeYear(1 + k) <= r < DaysBeforeYear(2 + k)
    ensures MinYear <= 400 * q + 1 + k <= MaxYear
    ensures DaysBeforeYear(400 * q + 1 + k) == n - 1 - (r - DaysBeforeYear(1 + k))
    ensures 0 <= r - DaysBeforeYear(1 + k) < DaysInYear(400 * q + 1 + k)
  {
    var y := 400 * q + 1 + k;
    assert n - 1 == DaysPer400Years * q + r;
    CycleShift(q, k);
    CycleShift(q, k + 1);
    YearLength(y);
    OrdinalYearInRange(y, n);
  }

  /**
   * The year index `k` (0-based) inside a 400-year cycle that holds the
   * day `r` days after the cycle's first day.
   */
  function YearInCycle(r: int): (k: int)
    requires 0 <= r < DaysPer400Years
    ensures 0 <= k < 400
    ensures DaysBeforeYear(1 + k) <= r < DaysBeforeYear(2 + k)
  {
    // Only the last century of a cycle has its extra leap day, so a day
    // past three short centuries always belongs to the fourth.
    var c := if r < 3 * DaysPer100Years then r / DaysPer100Years else 3;
    var s := r - DaysPer100Years * c;
    var g := s / DaysPer4Years;
    var t := s - DaysPer4Years * g;
    // The leap year ends its 4-year group; its last day is day 1460.
    var j := if t < 4 * 365 then t / 365 else 3;
    CycleYearStart(c, g, j);
    CycleLeapYear(c, g, j);
    YearLength(1 + 100 * c + 4 * g + j);
    100 * c + 4 * g + j
  }

  /** The month of year `y` that holds day-of-year `doy` (0-based), searching down from `m`. */
  function MonthOfDay(y: int, doy: int, m: int): (r: int)
    requires 1 <= m <= 12
    requires 0 <= doy < DaysBeforeMonth(y, m) + DaysInMonth(y, m)
    ensures 1 <= r <= m
    ensures DaysBeforeMonth(y, r) <= doy < DaysBeforeMonth(y, r) + DaysInMonth(y, r)
  {
    if DaysBeforeMonth(y, m) <= doy then m
    else MonthLength(y, m - 1); MonthOfDay(y, doy, m - 1)
  }

  /** The month after `m` starts where `m` ends; December ends the year. */
  lemma MonthLength(y: int, m: int)
    requires 1 <= m <= 12
    ensures DaysBeforeMonth(y, m) + DaysInMonth(y, m) == if m == 12 then DaysInYear(y) else DaysBeforeMonth(y, m + 1)
  {
  }

  /**
   * The count of days before year `y` has the closed form `date.toordinal`
   * computes: 365 days a year plus one for every fourth year, less one for
   * every hundredth, plus one for every four-hundredth.
   */
  lemma {:induction false} DaysBeforeYearClosedForm(y: int)
    requires y >= 1
    ensures DaysBeforeYear(y) == 365 * (y - 1) + (y - 1) / 4 - (y - 1) / 100 + (y - 1) / 400
  {
    if y > 1 {
      DaysBeforeYearClosedForm(y - 1);
      LeapCountStep(y - 2);
    }
  }

  /** One more year adds its own length to the closed form. */
  lemma LeapCountStep(x: int)
    ensures 365 * (x + 1) + (x + 1) / 4 - (x + 1) / 100 + (x + 1) / 400
         == 365 * x + x / 4 - x / 100 + x / 400 + DaysInYear(x + 1)
  {
    FloorStep(x, 4);
    FloorStep(x, 100);
    FloorStep(x, 400);
  }

  lemma YearLength(y: int)
    requires y >= 1
    ensures DaysBeforeYear(y + 1) == DaysBeforeYear(y) + DaysInYear(y)
  {
  }

  /** Stepping `x` by one raises `x / k` exactly when `x + 1` is a multiple of `k`. */
  lemma FloorStep(x: int, k: int)
    requires k == 4 || k == 100 || k == 400
    ensures (x + 1) / k == x / k + (if (x + 1) % k == 0 then 1 else 0)
  {
  }

  lemma Shift400(y: int)
    requires y >= 1
    ensures DaysBeforeYear(y + 400) == DaysBeforeYear(y) + DaysPer400Years
  {
    DaysBeforeYearClosedForm(y);
    DaysBeforeYearClosedForm(y + 400);
    var x := y - 1;
    assert (x + 400) / 4 == x / 4 + 100;
    assert (x + 400) / 100 == x / 100 + 4;
    assert (x + 400) / 400 == x / 400 + 1;
  }

  lemma {:induction false} DaysBeforeYearMonotone(a: int, b: int)
    requires 1 <= a <= b
    ensures DaysBeforeYear(a) + 365 * (b - a) <= DaysBeforeYear(b)
    decreases b - a
  {
    if a < b {
      YearLength(a);
      DaysBeforeYearMonotone(a + 1, b);
    }
  }

  lemma CycleYearStart(c: int, g: int, j: int)
    requires 0 <= c <= 3 && 0 <= g <= 24 && 0 <= j <= 3
    ensures DaysBeforeYear(1 + 100 * c + 4 * g + j) == DaysPer100Years * c + DaysPer4Years * g + 365 * j
  {
    var k := 100 * c + 4 * g + j;
    DaysBeforeYearClosedForm(1 + k);
    assert k / 4 == 25 * c + g;
    assert k / 100 == c;
    assert k / 400 == 0;
  }

  /**
   * Inside a cycle, the leap years end a 4-year group, except the one that
   * ends a century other than the cycle's last.
   */
  lemma CycleLeapYear(c: int, g: int, j: int)
    requires 0 <= c <= 3 && 0 <= g <= 24 && 0 <= j <= 3
    ensures IsLeapYear(1 + 100 * c + 4 * g + j) <==> j == 3 && (g != 24 || c == 3)
  {
    var y := 1 + 100 * c + 4 * g + j;
    assert y % 4 == (j + 1) % 4;
    if j == 3 {
      assert y == 100 * c + 4 * (g + 1);
      assert y % 100 == 0 <==> g == 24;
      assert y % 400 == 0 <==> g == 24 && c == 3;
    }
  }

  lemma {:induction false} CycleShift(q: int, k: int)
    requires q >= 0 && k >= 0
    ensures DaysBeforeYear(400 * q + 1 + k) == DaysPer400Years * q + DaysBeforeYear(1 + k)
    decreases q
  {
    if q > 0 {
      CycleShift(q - 1, k);
      Shift400(400 * (q - 1) + 1 + k);
    }
  }

  lemma OrdinalYearInRange(y: int, n: int)
    requires y >= 1 && 1 <= n <= MaxOrdinal
    requires DaysBeforeYear(y) < n <= DaysBeforeYear(y + 1)
    ensures y <= MaxYear
  {
    if y > MaxYear {
      DaysBeforeYearMonotone(MaxYear + 1, y);
      DaysBeforeYearClosedForm(MaxYear + 1);
    }
  }

  lemma {:induction false} DaysBeforeMonthMonotone(y: int, m1: int, m2: int)
    requires 1 <= m1 < m2 <= 12
    ensures DaysBeforeMonth(y, m1) + DaysInMonth(y, m1) <= DaysBeforeMonth(y, m2)
    decreases m2 - m1
  {
    MonthLength(y, m1);
    if m1 + 1 < m2 {
      DaysBeforeMonthMonotone(y, m1 + 1, m2);
    }
  }

  /** A date strictly before another has a strictly smaller ordinal. */
  lemma OrdinalStrictlyIncreasing(a: Date, b: Date)
    requires ValidDate(a) && ValidDate(b) && Before(a, b)
    ensures ToOrdinal(a) < ToOrdinal(b)
  {
    if a.year < b.year {
      DaysBeforeYearMonotone(a.year + 1, b.year);
    } else if a.month < b.month {
      DaysBeforeMonthMonotone(a.year, a.month, b.month);
    }
  }

  /** Ordinals order dates exactly as the calendar does. */
  lemma OrdinalOrder(a: Date, b: Date)
    requires ValidDate(a) && ValidDate(b)
    ensures Before(a, b) <==> ToOrdinal(a) < ToOrdinal(b)
  {
    if Before(a, b) {
      OrdinalStrictlyIncreasing(a, b);
    } else if a != b {
      OrdinalStrictlyIncreasing(b, a);
    }
  }

  /** Distinct valid dates have distinct ordinals. */
  lemma OrdinalInjective(a: Date, b: Date)
    requires ValidDate(a) && ValidDate(b)
    ensures ToOrdinal(a) == ToOrdinal(b) <==> a == b
  {
    OrdinalOrder(a, b);
    OrdinalOrder(b, a);
  }

  /** `date.fromordinal(d.toordinal()) == d` for every valid date. */
  lemma FromToOrdinal(d: Date)
    requires ValidDate(d)
    ensures FromOrdinal(ToOrdinal(d)) == d
  {
    OrdinalInjective(FromOrdinal(ToOrdinal(d)), d);
  }

  /** Consecutive ordinals fall on consecutive weekdays, and ordinal 1 is a Monday. */
  lemma WeekdayOfOrdinal(n: int)
    requires 1 <= n <= MaxOrdinal
    ensures Weekday(FromOrdinal(n)) == (n - 1) % 7
  {
    assert ToOrdinal(FromOrdinal(n)) == n;
    assert (n + 6) % 7 == (n - 1) % 7 by {
      assert n + 6 == (n - 1) + 7;
    }
  }
}
