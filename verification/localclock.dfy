/**
 * `time.localtime` under the process-wide `TZ` setting, as an oracle from
 * epoch seconds to local calendar fields. The timezone database is not part
 * of this model; two concrete oracles stand in for it: UTC, and a zone that
 * keeps one fixed offset from UTC.
 */
module LocalClock {
  import opened Calendar
  import opened Converters

  /** The whole seconds of a signed 64-bit nanosecond count. */
  const MinSecond: int := -9223372037
  const MaxSecond: int := 9223372036

  type Seconds = s: int | MinSecond <= s <= MaxSecond

  /** What `time.localtime` returns under one timezone, for every second it is asked about. */
  type LocalTime = Seconds -> LocalFields

  /** The ordinal of 1970-01-01, the day of epoch second 0. */
  const EpochOrdinal: int := 719163

  /** The widest offset from UTC any zone uses: 14 hours, in seconds. */
  const MaxOffset: int := 50400

  /** The UTC calendar fields of the instant `s` seconds after the epoch. */
  function UtcFields(s: int): (st: LocalFields)
    requires MinSecond - MaxOffset <= s <= MaxSecond + MaxOffset
    ensures (ToOrdinal(LocalDate(st)) - EpochOrdinal) * 86400 <= s
    ensures s < (ToOrdinal(LocalDate(st)) - EpochOrdinal) * 86400 + 86400
  {
    var n := EpochOrdinal + s / 86400;
    var d := FromOrdinal(n);
    StructTime(d.year, d.month, d.day, (n + 6) % 7)
  }

  /** `EpochOrdinal` is the ordinal of 1970-01-01, and 1969-12-31 is the day before. */
  lemma EpochDates()
    ensures ToOrdinal(Date(1970, 1, 1)) == EpochOrdinal
    ensures ToOrdinal(Date(1969, 12, 31)) == EpochOrdinal - 1
  {
    DaysBeforeYearClosedForm(1970);
    assert DaysBeforeYear(1970) == DaysBeforeYear(1969) + 365;
  }

  /** The UTC date of second `s` is the date `s / 86400` days after 1970-01-01. */
  lemma UtcDate(s: int, d: Date)
    requires MinSecond - MaxOffset <= s <= MaxSecond + MaxOffset && ValidDate(d)
    requires ToOrdinal(d) == EpochOrdinal + s / 86400
    ensures LocalDate(UtcFields(s)) == d
  {
    OrdinalInjective(LocalDate(UtcFields(s)), d);
  }

  /** `time.localtime` in a zone whose wall clock is always `offset` seconds ahead of UTC. */
  function FixedOffset(offset: int): LocalTime
    requires -MaxOffset <= offset <= MaxOffset
  {
    (s: Seconds) => UtcFields(s + offset)
  }

  /** `time.localtime` with `TZ=UTC`: the zone whose offset is zero. */
  const Utc: LocalTime := FixedOffset(0)
}
