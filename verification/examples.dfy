/**
 * The expectations of `tests/test_render.py`, stated about the model. The
 * `America/Toronto` cases fall in April 2021, when that zone is four hours
 * behind UTC, so they use the fixed offset of -4 hours.
 */
module Examples {
  import opened Wrappers
  import opened Calendar
  import opened Converters
  import opened LocalClock
  import opened Conversion
  import opened Render

  /** Eastern Daylight Time: four hours behind UTC. */
  const Edt: int := -14400

  /** The timestamp of a whole number of seconds after the epoch. */
  function FromSeconds(s: int): (ns: Nanos)
    requires 0 <= s <= MaxSecond
    ensures TruncatedSeconds(ns) == s
  {
    s * 1000000000
  }

  /** Ordinals in 2021: the year starts after 737790 days. */
  lemma OrdinalIn2021(month: int, day: int)
    requires ValidDate(Date(2021, month, day))
    ensures ToOrdinal(Date(2021, month, day)) == 737790 + DaysBeforeMonth(2021, month) + day
  {
    DaysBeforeYearClosedForm(2021);
  }

  /**
   * An instant whose wall-clock time under the fixed offset falls within
   * day number `epochDay` after the epoch, the day `d`: the day rule gives `d`.
   */
  lemma DayUnderOffset(s: int, offset: int, d: Date, epochDay: int)
    requires 0 <= s <= MaxSecond && -MaxOffset <= offset <= MaxOffset && ValidDate(d)
    requires ToOrdinal(d) == EpochOrdinal + epochDay
    requires epochDay * 86400 <= s + offset < epochDay * 86400 + 86400
    ensures DateOf(FromSeconds(s), Day, FixedOffset(offset)) == d
    ensures LocalDate(FixedOffset(offset)(s)) == d
  {
    var st := FixedOffset(offset)(s);
    assert st == UtcFields(s + offset);
    OrdinalInjective(LocalDate(st), d);
  }

  /** The five instants of `test_timezone`: 01:31:01 to 05:31:01 UTC on 2021-04-22. */
  const Instants: seq<Option<Nanos>> := [
    Some(FromSeconds(1619055061)), Some(FromSeconds(1619058661)), Some(FromSeconds(1619062261)),
    Some(FromSeconds(1619065861)), Some(FromSeconds(1619069461))]

  /** `test_timezone`, UTC: every instant falls on 2021-04-22. */
  lemma TimezoneUtc()
    ensures Bucketed(Instants, Day, Utc) == [
      Some(Date(2021, 4, 22)), Some(Date(2021, 4, 22)), Some(Date(2021, 4, 22)),
      Some(Date(2021, 4, 22)), Some(Date(2021, 4, 22))]
  {
    var d := Date(2021, 4, 22);
    OrdinalIn2021(4, 22);
    DayUnderOffset(1619055061, 0, d, 18739);
    DayUnderOffset(1619058661, 0, d, 18739);
    DayUnderOffset(1619062261, 0, d, 18739);
    DayUnderOffset(1619065861, 0, d, 18739);
    DayUnderOffset(1619069461, 0, d, 18739);
  }

  /**
   * `test_timezone`, Toronto: the first three instants are still
   * 2021-04-21 on the wall clock, the last two are 2021-04-22.
   */
  lemma TimezoneToronto()
    ensures Bucketed(Instants, Day, FixedOffset(Edt)) == [
      Some(Date(2021, 4, 21)), Some(Date(2021, 4, 21)), Some(Date(2021, 4, 21)),
      Some(Date(2021, 4, 22)), Some(Date(2021, 4, 22))]
  {
    OrdinalIn2021(4, 21);
    OrdinalIn2021(4, 22);
    DayUnderOffset(1619055061, Edt, Date(2021, 4, 21), 18738);
    DayUnderOffset(1619058661, Edt, Date(2021, 4, 21), 18738);
    DayUnderOffset(1619062261, Edt, Date(2021, 4, 21), 18738);
    DayUnderOffset(1619065861, Edt, Date(2021, 4, 22), 18739);
    DayUnderOffset(1619069461, Edt, Date(2021, 4, 22), 18739);
  }

  /** The two instants of `test_unit`: midnight UTC on 2021-04-21 and 2021-06-01. */
  const Midnights: seq<Option<Nanos>> := [Some(FromSeconds(1618963200)), Some(FromSeconds(1622505600))]

  /** The local fields of both instants under UTC. */
  lemma MidnightFields()
    ensures LocalDate(Utc(1618963200)) == Date(2021, 4, 21)
    ensures LocalDate(Utc(1622505600)) == Date(2021, 6, 1)
    ensures ToOrdinal(Date(2021, 4, 21)) == 737901
    ensures ToOrdinal(Date(2021, 6, 1)) == 737942
  {
    OrdinalIn2021(4, 21);
    OrdinalIn2021(6, 1);
    DayUnderOffset(1618963200, 0, Date(2021, 4, 21), 18738);
    DayUnderOffset(1622505600, 0, Date(2021, 6, 1), 18779);
  }

  /** `test_unit`, unit "day": each instant keeps its own date. */
  lemma UnitDay()
    ensures Bucketed(Midnights, Day, Utc) == [Some(Date(2021, 4, 21)), Some(Date(2021, 6, 1))]
  {
    MidnightFields();
  }

  /**
   * An instant on the UTC day `d`: the week rule gives the Monday whose
   * ordinal starts the 7-day block of `d`.
   */
  lemma UtcWeekStart(s: int, d: Date, epochDay: int, monday: Date)
    requires 0 <= s <= MaxSecond && ValidDate(d) && ValidDate(monday)
    requires ToOrdinal(d) == EpochOrdinal + epochDay
    requires epochDay * 86400 <= s < epochDay * 86400 + 86400
    requires ToOrdinal(monday) == (ToOrdinal(d) - 1) / 7 * 7 + 1
    ensures DateOf(FromSeconds(s), Week, Utc) == monday
  {
    DayUnderOffset(s, 0, d, epochDay);
    var st := Utc(s);
    WeekStartOrdinal(st);
    OrdinalInjective(Truncate(Week, st), monday);
  }

  /** `test_unit`, unit "week": the Mondays 2021-04-19 and 2021-05-31. */
  lemma UnitWeek()
    ensures Bucketed(Midnights, Week, Utc) == [Some(Date(2021, 4, 19)), Some(Date(2021, 5, 31))]
  {
    MidnightFields();
    OrdinalIn2021(4, 19);
    OrdinalIn2021(5, 31);
    assert (737901 - 1) / 7 * 7 + 1 == 737899;
    assert (737942 - 1) / 7 * 7 + 1 == 737941;
    UtcWeekStart(1618963200, Date(2021, 4, 21), 18738, Date(2021, 4, 19));
    UtcWeekStart(1622505600, Date(2021, 6, 1), 18779, Date(2021, 5, 31));
  }

  /** `test_unit`, unit "month": the first of April and the first of June. */
  lemma UnitMonth()
    ensures Bucketed(Midnights, Month, Utc) == [Some(Date(2021, 4, 1)), Some(Date(2021, 6, 1))]
  {
    MidnightFields();
  }

  /** `test_unit`, unit "quarter": both instants lie in the quarter starting 2021-04-01. */
  lemma UnitQuarter()
    ensures Bucketed(Midnights, Quarter, Utc) == [Some(Date(2021, 4, 1)), Some(Date(2021, 4, 1))]
  {
    MidnightFields();
  }

  /** `test_unit`, unit "year": both instants lie in 2021. */
  lemma UnitYear()
    ensures Bucketed(Midnights, Year, Utc) == [Some(Date(2021, 1, 1)), Some(Date(2021, 1, 1))]
  {
    MidnightFields();
  }

  /** `test_no_columns_no_op`: with no column requested the table comes back as it was. */
  method NoColumnsNoOp(table: Table, unit: Unit, localtime: LocalTime) returns (result: Result<Table, RenderError>)
    ensures result == Ok(table)
  {
    result := RenderArrow(table, [], unit, localtime);
    assert result.Ok?;
    assert result.value == table;
  }

  /**
   * `test_replace_timestamp` and `test_passthrough_null`: column "A" holding
   * 2021-04-21 17:31:01 UTC and a null becomes a date column tagged "day"
   * holding 2021-04-21 and the null.
   */
  method ReplaceTimestamp() returns (result: Result<Table, RenderError>)
    ensures result == Ok([Column("A", map["unit" := "day"], Dates([[Some(Date(2021, 4, 21)), None]]))])
  {
    var table := [Column("A", map[], Timestamps([[Some(FromSeconds(1619026261)), None]]))];
    result := RenderArrow(table, ["A"], Day, Utc);
    OrdinalIn2021(4, 21);
    DayUnderOffset(1619026261, 0, Date(2021, 4, 21), 18738);
    assert result.Ok? by {
      assert ColumnNames(table)[0] == "A";
    }
    assert Selected(table, ["A"], 0);
    var chunk := [Some(FromSeconds(1619026261)), None];
    assert Bucketed(chunk, Day, Utc) == [Some(Date(2021, 4, 21)), None];
    assert ConvertChunked([chunk], Day, Utc) == [[Some(Date(2021, 4, 21)), None]];
    assert result.value == [DateColumn(table[0], Day, Utc)];
  }
}
