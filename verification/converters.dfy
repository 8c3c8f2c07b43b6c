/**
 * The truncation rules of `StructTimeConverters`. Each rule takes the local
 * calendar fields of an instant (a `time.struct_time`) and returns the first
 * date of the day, week, month, quarter or year that holds the instant.
 */
module Converters {
  import opened Wrappers
  import opened Calendar

  datatype Unit = Day | Week | Month | Quarter | Year

  /** The unit as the `unit` parameter spells it. */
  function UnitName(unit: Unit): string {
    match unit
    case Day => "day"
    case Week => "week"
    case Month => "month"
    case Quarter => "quarter"
    case Year => "year"
  }

  /**
   * The lookup `StructTimeConverters[unit]`: the rule a unit name selects,
   * or `None` where the dictionary raises `KeyError`.
   */
  function ParseUnit(name: string): (r: Option<Unit>)
    ensures r.Some? ==> UnitName(r.value) == name
  {
    if name == "day" then Some(Day)
    else if name == "week" then Some(Week)
    else if name == "month" then Some(Month)
    else if name == "quarter" then Some(Quarter)
    else if name == "year" then Some(Year)
    else None
  }

  /** Every unit is found under its own name, so the lookup never fails on a valid parameter. */
  lemma ParseUnitName(unit: Unit)
    ensures ParseUnit(UnitName(unit)) == Some(unit)
  {
  }

  /**
   * The fields of a `time.struct_time` the rules read: `tm_year`, `tm_mon`,
   * `tm_mday` and `tm_wday`, whose Monday is 0.
   */
  datatype StructTime = StructTime(year: int, mon: int, mday: int, wday: int)

  function LocalDate(st: StructTime): Date {
    Date(st.year, st.mon, st.mday)
  }

  /** What `time.localtime` guarantees: a real date and its own weekday. */
  predicate WellFormed(st: StructTime) {
    ValidDate(LocalDate(st)) && st.wday == Weekday(LocalDate(st))
  }

  type LocalFields = st: StructTime | WellFormed(st) witness StructTime(1, 1, 1, 0)

  /** The local fields of the first instant of date `d`. */
  function AtMidnight(d: Date): (st: LocalFields)
    requires ValidDate(d)
    ensures LocalDate(st) == d
  {
    StructTime(d.year, d.month, d.day, Weekday(d))
  }

  /** The month-indexed table of quarter starts; index 0 is unused. */
  const QuarterStartMonth: seq<int> := [0, 1, 1, 1, 4, 4, 4, 7, 7, 7, 10, 10, 10]

  /** The first month of the quarter holding month `m`. */
  function QuarterStart(m: int): (q: int)
    requires 1 <= m <= 12
    ensures q == (m - 1) / 3 * 3 + 1
    ensures q <= m < q + 3
  {
    QuarterStartMonth[m]
  }

  /** The rule `StructTimeConverters[unit]` applied to `st`. */
  function Truncate(unit: Unit, st: LocalFields): (d: Date)
    ensures ValidDate(d)
    ensures ToOrdinal(d) <= ToOrdinal(LocalDate(st))
    ensures unit != Week ==> d.year == st.year && d.month <= st.mon
    ensures unit != Day && unit != Week ==> d.day == 1
    ensures unit == Week ==> Weekday(d) == 0 && ToOrdinal(LocalDate(st)) - ToOrdinal(d) <= 6
  {
    var d :=
      match unit
      case Day => Date(st.year, st.mon, st.mday)
      case Week => (
        WeekRule(st);
        FromOrdinal(ToOrdinal(LocalDate(st)) - st.wday))
      case Month => Date(st.year, st.mon, 1)
      case Quarter => Date(st.year, QuarterStart(st.mon), 1)
      case Year => Date(st.year, 1, 1);
    OrdinalOrder(d, LocalDate(st));
    d
  }

  /**
   * Two dates share a bucket of `unit`: the same date, the same Monday-to-Sunday
   * week (ordinal 1 is a Monday), the same month, quarter or year.
   */
  ghost predicate SameBucket(unit: Unit, a: Date, b: Date)
    requires ValidDate(a) && ValidDate(b)
  {
    match unit
    case Day => a == b
    case Week => (ToOrdinal(a) - 1) / 7 == (ToOrdinal(b) - 1) / 7
    case Month => a.year == b.year && a.month == b.month
    case Quarter => a.year == b.year && (a.month - 1) / 3 == (b.month - 1) / 3
    case Year => a.year == b.year
  }

  /**
   * Stepping back from ordinal `o` by its Monday-based weekday reaches the
   * Monday that starts `o`'s 7-day block, never before ordinal 1.
   */
  lemma MondayOfOrdinal(o: int)
    requires 1 <= o
    ensures (o + 6) % 7 == (o - 1) % 7
    ensures o - (o + 6) % 7 == (o - 1) / 7 * 7 + 1
    ensures (o - (o + 6) % 7 + 6) % 7 == 0
  {
    assert o + 6 == (o - 1) + 7;
  }

  /** The week rule's ordinal arithmetic stays in range and lands on a Monday. */
  lemma WeekRule(st: LocalFields)
    ensures 1 <= ToOrdinal(LocalDate(st)) - st.wday
    ensures Weekday(FromOrdinal(ToOrdinal(LocalDate(st)) - st.wday)) == 0
  {
    var o := ToOrdinal(LocalDate(st));
    MondayOfOrdinal(o);
    assert st.wday == (o + 6) % 7;
    var n := o - st.wday;
    assert ToOrdinal(FromOrdinal(n)) == n;
    assert Weekday(FromOrdinal(n)) == (n + 6) % 7;
  }

  /** The week rule lands on the Monday that starts the ordinal's 7-day block. */
  lemma WeekStartOrdinal(st: LocalFields)
    ensures ToOrdinal(Truncate(Week, st)) == (ToOrdinal(LocalDate(st)) - 1) / 7 * 7 + 1
  {
    MondayOfOrdinal(ToOrdinal(LocalDate(st)));
  }

  /** Every rule returns the earliest date of the bucket holding the local date. */
  lemma TruncateIsBucketStart(unit: Unit, st: LocalFields, d: Date)
    requires ValidDate(d)
    ensures SameBucket(unit, LocalDate(st), Truncate(unit, st))
    ensures SameBucket(unit, LocalDate(st), d) ==> ToOrdinal(Truncate(unit, st)) <= ToOrdinal(d)
  {
    var t := Truncate(unit, st);
    OrdinalOrder(t, d);
    if unit == Week {
      WeekStartOrdinal(st);
    }
  }

  /** Two instants get the same date exactly when their local dates share a bucket. */
  lemma TruncateGroups(unit: Unit, a: LocalFields, b: LocalFields)
    ensures Truncate(unit, a) == Truncate(unit, b) <==> SameBucket(unit, LocalDate(a), LocalDate(b))
  {
    if unit == Week {
      WeekStartOrdinal(a);
      WeekStartOrdinal(b);
      OrdinalInjective(Truncate(unit, a), Truncate(unit, b));
    }
  }

  /** Applying a rule to the first instant of its own result changes nothing. */
  lemma TruncateIdempotent(unit: Unit, st: LocalFields)
    ensures Truncate(unit, AtMidnight(Truncate(unit, st))) == Truncate(unit, st)
  {
    match unit
    case Week => WeekIdempotent(st);
    case Quarter => QuarterIdempotent(st);
    case _ =>
  }

  lemma WeekIdempotent(st: LocalFields)
    ensures Truncate(Week, AtMidnight(Truncate(Week, st))) == Truncate(Week, st)
  {
    WeekOfMonday(AtMidnight(Truncate(Week, st)));
  }

  /** A Monday is its own week's start. */
  lemma WeekOfMonday(st: LocalFields)
    requires st.wday == 0
    ensures Truncate(Week, st) == LocalDate(st)
  {
    WeekStartOrdinal(st);
    MondayOfOrdinal(ToOrdinal(LocalDate(st)));
    OrdinalInjective(Truncate(Week, st), LocalDate(st));
  }

  lemma QuarterIdempotent(st: LocalFields)
    ensures Truncate(Quarter, AtMidnight(Truncate(Quarter, st))) == Truncate(Quarter, st)
  {
    var t := Truncate(Quarter, st);
    assert QuarterStart(AtMidnight(t).mon) == t.month;
  }
}
