/**
 * `convert_array` and `convert_chunked_array`: a column of nullable
 * nanosecond timestamps becomes a column of nullable dates, position by
 * position, through the local-time oracle and one truncation rule.
 */
module Conversion {
  import opened Wrappers
  import opened Calendar
  import opened Converters
  import opened LocalClock

  /** A timestamp as Arrow stores it: signed 64-bit nanoseconds since the epoch. */
  type Nanos = n: int | -0x8000_0000_0000_0000 <= n < 0x8000_0000_0000_0000

  /**
   * The division of `convert_array` as written: Arrow's integer `divide`
   * by 1,000,000,000, which rounds toward zero, so an instant less than a
   * second before the epoch becomes second 0.
   */
  function TruncatedSeconds(ns: Nanos): (s: Seconds)
    ensures 0 <= ns ==> 0 <= s && s * 1000000000 <= ns < s * 1000000000 + 1000000000
    ensures ns < 0 ==> s <= 0 && s * 1000000000 - 1000000000 < ns <= s * 1000000000
  {
    if ns >= 0 then ns / 1000000000 else -((-(ns as int)) / 1000000000)
  }

  /**
   * The whole seconds of a timestamp, rounded down: the second that holds
   * the instant, before the epoch as well as after it.
   */
  function NanosToSeconds(ns: Nanos): (s: Seconds)
    ensures s * 1000000000 <= ns < s * 1000000000 + 1000000000
  {
    ns / 1000000000
  }

  /** From the epoch on, the two divisions agree. */
  lemma TruncationAgreesFromEpoch(ns: Nanos)
    requires 0 <= ns
    ensures TruncatedSeconds(ns) == NanosToSeconds(ns)
  {
  }

  /**
   * Half a second before the epoch, 1969-12-31 23:59:59.5 UTC: rounding
   * toward zero gives the UTC date 1970-01-01, rounding down gives the
   * date the instant lies on.
   */
  lemma TruncationCrossesMidnight()
    ensures TruncatedSeconds(-500000000) == 0 && NanosToSeconds(-500000000) == -1
    ensures LocalDate(Utc(TruncatedSeconds(-500000000))) == Date(1970, 1, 1)
    ensures LocalDate(Utc(NanosToSeconds(-500000000))) == Date(1969, 12, 31)
  {
    assert TruncatedSeconds(-500000000) == 0;
    assert NanosToSeconds(-500000000) == -1;
    EpochDates();
    UtcDate(0, Date(1970, 1, 1));
    UtcDate(-1, Date(1969, 12, 31));
    assert Utc(0) == UtcFields(0);
    assert Utc(-1) == UtcFields(-1);
  }

  /** The division as written applied to a whole array; a null stays null. */
  function UnixSeconds(values: seq<Option<Nanos>>): (r: seq<Option<Seconds>>)
    ensures |r| == |values|
    ensures forall i :: 0 <= i < |values| ==> (r[i].None? <==> values[i].None?)
    ensures forall i :: 0 <= i < |values| && values[i].Some? ==> r[i].value == TruncatedSeconds(values[i].value)
  {
    if values == [] then []
    else
      var head := if values[0].None? then None else Some(TruncatedSeconds(values[0].value));
      [head] + UnixSeconds(values[1..])
  }

  /**
   * The date `convert_array` gives one timestamp: the local fields of its
   * second, as the code divides it, truncated to `unit`.
   */
  function DateOf(ns: Nanos, unit: Unit, localtime: LocalTime): Date {
    Truncate(unit, localtime(TruncatedSeconds(ns)))
  }

  /** The date intended for one timestamp: that of the second holding it. */
  function CorrectedDateOf(ns: Nanos, unit: Unit, localtime: LocalTime): Date {
    Truncate(unit, localtime(NanosToSeconds(ns)))
  }

  /**
   * The dates `convert_array` returns: as many as there are timestamps, null
   * exactly where the timestamp is null, and otherwise the date of the
   * timestamp at the same position.
   */
  function Bucketed(values: seq<Option<Nanos>>, unit: Unit, localtime: LocalTime): (r: seq<Option<Date>>)
    ensures |r| == |values|
    ensures forall i :: 0 <= i < |values| ==> (r[i].None? <==> values[i].None?)
    ensures forall i :: 0 <= i < |values| && values[i].Some? ==> r[i].value == DateOf(values[i].value, unit, localtime)
  {
    if values == [] then []
    else
      var head := if values[0].None? then None else Some(DateOf(values[0].value, unit, localtime));
      [head] + Bucketed(values[1..], unit, localtime)
  }

  /**
   * `convert_array`: divide the timestamps down to seconds, preallocate a
   * list of nulls, and fill in, position by position, the date of each
   * non-null timestamp.
   */
  method ConvertArray(values: seq<Option<Nanos>>, unit: Unit, localtime: LocalTime) returns (dates: seq<Option<Date>>)
    ensures dates == Bucketed(values, unit, localtime)
  {
    var seconds := UnixSeconds(values);
    var dateList: seq<Option<Date>> := seq(|seconds|, _ => None);
    for i := 0 to |seconds|
      invariant |dateList| == |seconds|
      invariant forall j :: 0 <= j < i ==> dateList[j] == if values[j].None? then None else Some(DateOf(values[j].value, unit, localtime))
      invariant forall j :: i <= j < |seconds| ==> dateList[j] == None
    {
      if seconds[i].Some? {
        var structTime := localtime(seconds[i].value);
        var date := Truncate(unit, structTime);
        assert date == DateOf(values[i].value, unit, localtime);
        dateList := dateList[i := Some(date)];
      }
    }
    dates := dateList;
    assert forall j :: 0 <= j < |values| ==> dates[j] == Bucketed(values, unit, localtime)[j];
  }

  /** Converting two columns one after the other is converting their concatenation. */
  lemma BucketedAppend(a: seq<Option<Nanos>>, b: seq<Option<Nanos>>, unit: Unit, localtime: LocalTime)
    ensures Bucketed(a + b, unit, localtime) == Bucketed(a, unit, localtime) + Bucketed(b, unit, localtime)
  {
    var whole := Bucketed(a + b, unit, localtime);
    var parts := Bucketed(a, unit, localtime) + Bucketed(b, unit, localtime);
    assert |whole| == |parts|;
    forall i | 0 <= i < |whole|
      ensures whole[i] == parts[i]
    {
      if i < |a| {
        assert (a + b)[i] == a[i];
      } else {
        assert (a + b)[i] == b[i - |a|];
      }
    }
  }

  /** Two non-negative timestamps within the same second get the same date. */
  lemma SameSecondSameDate(a: Nanos, b: Nanos, unit: Unit, localtime: LocalTime)
    requires 0 <= a && 0 <= b && a / 1000000000 == b / 1000000000
    ensures Bucketed([Some(a)], unit, localtime) == Bucketed([Some(b)], unit, localtime)
  {
  }

  /**
   * From the epoch on, `convert_array` as written gives every timestamp its
   * intended date.
   */
  lemma BucketedFromEpoch(values: seq<Option<Nanos>>, unit: Unit, localtime: LocalTime)
    requires forall i :: 0 <= i < |values| && values[i].Some? ==> 0 <= values[i].value
    ensures forall i :: 0 <= i < |values| && values[i].Some? ==>
      Bucketed(values, unit, localtime)[i] == Some(CorrectedDateOf(values[i].value, unit, localtime))
  {
    forall i | 0 <= i < |values| && values[i].Some?
      ensures Bucketed(values, unit, localtime)[i] == Some(CorrectedDateOf(values[i].value, unit, localtime))
    {
      TruncationAgreesFromEpoch(values[i].value);
    }
  }

  /**
   * Under UTC, the corrected day rule gives the UTC day that holds the
   * timestamp, before the epoch as well as after it.
   */
  lemma UtcDayHoldsInstant(ns: Nanos)
    ensures var d := CorrectedDateOf(ns, Day, Utc);
      && (ToOrdinal(d) - EpochOrdinal) * 86400000000000 <= ns
      && ns < (ToOrdinal(d) - EpochOrdinal) * 86400000000000 + 86400000000000
  {
    var s := NanosToSeconds(ns);
    assert Utc(s) == UtcFields(s);
  }

  function Flatten<T>(chunks: seq<seq<T>>): seq<T> {
    if chunks == [] then [] else chunks[0] + Flatten(chunks[1..])
  }

  /** `convert_chunked_array`: every chunk converted on its own. */
  function ConvertChunked(chunks: seq<seq<Option<Nanos>>>, unit: Unit, localtime: LocalTime): (r: seq<seq<Option<Date>>>)
    ensures |r| == |chunks|
    ensures forall i :: 0 <= i < |chunks| ==> r[i] == Bucketed(chunks[i], unit, localtime)
  {
    if chunks == [] then []
    else [Bucketed(chunks[0], unit, localtime)] + ConvertChunked(chunks[1..], unit, localtime)
  }

  /** Chunking does not change the dates: the chunked result flattens to the flat conversion. */
  lemma {:induction false} ConvertChunkedFlatten(chunks: seq<seq<Option<Nanos>>>, unit: Unit, localtime: LocalTime)
    ensures Flatten(ConvertChunked(chunks, unit, localtime)) == Bucketed(Flatten(chunks), unit, localtime)
  {
    if chunks != [] {
      ConvertChunkedFlatten(chunks[1..], unit, localtime);
      BucketedAppend(chunks[0], Flatten(chunks[1..]), unit, localtime);
      assert ConvertChunked(chunks, unit, localtime)[1..] == ConvertChunked(chunks[1..], unit, localtime);
    }
  }
}
