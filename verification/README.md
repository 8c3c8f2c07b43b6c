# converttimestamptodate in Dafny

A model of the Workbench step "Convert timestamp to date". The step takes a
table, a list of column names, a unit (`day`, `week`, `month`, `quarter` or
`year`) and a timezone. It replaces each named timestamp column, at its own
position and under its own name, with a `date32` column whose field metadata
records the unit. Each timestamp is read as signed 64-bit nanoseconds since
the epoch. It is divided down to whole seconds, rounding toward zero as
Arrow's integer `divide` does, turned into local calendar
fields by `time.localtime` under the timezone, and truncated to the first
day of its day, Monday-based week, month, quarter or year. Nulls stay null.

Modules, one file each:

- `wrappers.dfy` — `Option` and `Result`.
- `calendar.dfy` — the proleptic Gregorian calendar of Python's
  `datetime.date`: `toordinal` (day 1 is 0001-01-01), `weekday` (Monday is
  0), and `fromordinal` built from the 400-year cycle and proved to be the
  inverse of `toordinal`. Valid years are 1 to 9999, as in `datetime`.
- `converters.dfy` — `StructTimeConverters`: the unit names, the lookup by
  name, and the five truncation rules over well-formed `struct_time`
  fields. Lemmas characterise each rule as "the earliest date of the bucket
  holding the local date", and prove it groups dates by bucket and is
  idempotent.
- `localclock.dfy` — `time.localtime` as an oracle from epoch seconds to
  well-formed local fields, with two concrete oracles: UTC and a zone at a
  fixed offset from UTC.
- `conversion.dfy` — `convert_array` (a loop filling a list preallocated
  with nulls) proved against a position-by-position specification, and
  `convert_chunked_array`, proved to agree with the flat conversion.
- `render.dfy` — `render_arrow_v1`: a loop over the requested names that
  finds each column with `list.index` and replaces it.
- `examples.dfy` — the expectations of `tests/test_render.py`, proved about
  the model.

## Model

| member | source | states |
|---|---|---|
| Calendar.ToOrdinal | converttimestamptodate.py:15-16 | `date.toordinal`: a valid date's ordinal lies within its year's span of days and in 1..3652059 (0001-01-01 to 9999-12-31) |
| Calendar.Weekday | converttimestamptodate.py:15-17 | `date.weekday`, derived from the ordinal, is in 0..6; that 0 is Monday is proved by Calendar.WeekdayOfOrdinal |
| Calendar.FromOrdinal | converttimestamptodate.py:15 | `date.fromordinal`: for every ordinal in range it returns a valid date whose ordinal is the argument |
| Calendar.DaysBeforeYearClosedForm | converttimestamptodate.py:15-16 | the sum of the lengths of the years before `y` equals 365(y−1) + ⌊(y−1)/4⌋ − ⌊(y−1)/100⌋ + ⌊(y−1)/400⌋, Python's closed form |
| Calendar.OrdinalOrder | converttimestamptodate.py:15-16 | one date is before another exactly when its ordinal is smaller |
| Calendar.OrdinalInjective | converttimestamptodate.py:15-16 | two valid dates are equal exactly when their ordinals are |
| Calendar.FromToOrdinal | converttimestamptodate.py:15-16 | `fromordinal(toordinal(d)) == d` for every valid date |
| Calendar.WeekdayOfOrdinal | converttimestamptodate.py:15-17 | the date with ordinal `n` has weekday `(n − 1) mod 7`: ordinal 1 is a Monday |
| Converters.ParseUnit | converttimestamptodate.py:31 | the lookup `StructTimeConverters[unit]` (the dictionary of lines 13-23) yields a rule only under that rule's own name, and `None` where it raises `KeyError` |
| Converters.ParseUnitName | converttimestamptodate.py:13-23 | every unit is found under its own name, so the lookup of line 31 fails only off the five names |
| Converters.QuarterStart | converttimestamptodate.py:20 | the 13-entry table maps month `m` to `(m−1)/3·3+1`, the quarter's first month, with `q <= m < q+3` |
| Converters.Truncate | converttimestamptodate.py:13-23 | every rule returns a valid date on or before the local date. Except for `week` it keeps the year and never raises the month. `month`, `quarter` and `year` return a first of the month. `week` returns a Monday at most 6 days earlier |
| Converters.WeekRule | converttimestamptodate.py:15-17 | stepping back `tm_wday` days from the local date stays at ordinal 1 or later and lands on a Monday |
| Converters.WeekStartOrdinal | converttimestamptodate.py:15-17 | the week rule returns the ordinal `⌊(o−1)/7⌋·7+1`, the start of the local date's Monday-based 7-day block |
| Converters.TruncateIsBucketStart | converttimestamptodate.py:13-23 | each rule's result shares the local date's day, week, month, quarter or year, and is no later than any valid date in that bucket |
| Converters.TruncateGroups | converttimestamptodate.py:13-23 | two local dates give the same result exactly when they share a bucket |
| Converters.TruncateIdempotent | converttimestamptodate.py:13-23 | applying a rule to midnight of its own result gives that result again |
| Converters.WeekIdempotent | converttimestamptodate.py:15-17 | the week rule is idempotent |
| Converters.WeekOfMonday | converttimestamptodate.py:15-17 | a local date that is a Monday is its own week's start |
| Converters.QuarterIdempotent | converttimestamptodate.py:19-21 | the quarter rule is idempotent |
| LocalClock.UtcFields | converttimestamptodate.py:37 | `time.localtime` under UTC: second `s` lies within the UTC day its fields name |
| LocalClock.EpochDates | converttimestamptodate.py:28-37 | 1970-01-01, the day of epoch second 0, has ordinal 719163, and 1969-12-31 comes just before it |
| LocalClock.UtcDate | converttimestamptodate.py:37 | under UTC, second `s` falls on the date `⌊s/86400⌋` days after 1970-01-01 |
| Conversion.TruncatedSeconds | converttimestamptodate.py:28 | the division as written rounds toward zero. From the epoch on, the result is the second holding the instant. Before the epoch, it is the second just after the instant (or the instant's own second when it falls exactly on one) |
| Conversion.NanosToSeconds | converttimestamptodate.py:28 | the corrected division: the second that holds the instant, for every 64-bit timestamp |
| Conversion.TruncationAgreesFromEpoch | converttimestamptodate.py:28 | the two divisions agree on every timestamp from the epoch on |
| Conversion.TruncationCrossesMidnight | converttimestamptodate.py:28-38 | half a second before the epoch, the division as written gives the UTC date 1970-01-01; the corrected one gives 1969-12-31 |
| Conversion.UnixSeconds | converttimestamptodate.py:28-29 | the division of a whole array keeps its length, keeps nulls exactly where they were, and divides every other value, rounding toward zero |
| Conversion.Bucketed | converttimestamptodate.py:34-38 | the specification of the result: the same length as the input, null exactly where the input is null, and otherwise the rule applied to the local time of the value's second (divided as line 28 divides) at that position |
| Conversion.ConvertArray | converttimestamptodate.py:26-41 | the loop over a list preallocated with nulls returns exactly the specified sequence |
| Conversion.BucketedAppend | converttimestamptodate.py:34-38 | converting a concatenation equals concatenating the conversions |
| Conversion.SameSecondSameDate | converttimestamptodate.py:28 | two non-negative timestamps within the same second get the same date |
| Conversion.BucketedFromEpoch | converttimestamptodate.py:28-38 | when no timestamp is before the epoch, every date of `convert_array` as written is the intended date, that of the second holding the timestamp |
| Conversion.UtcDayHoldsInstant | converttimestamptodate.py:28-38 | under UTC, the corrected day rule returns the UTC day whose nanosecond span holds the timestamp, for every timestamp |
| Conversion.ConvertChunked | converttimestamptodate.py:44-48 | `convert_chunked_array` keeps the number of chunks and converts each chunk on its own |
| Conversion.ConvertChunkedFlatten | converttimestamptodate.py:44-48 | flattening the chunked result gives the conversion of the flattened input |
| Render.IndexOf | converttimestamptodate.py:57 | `list.index` fails exactly when the name is absent, and otherwise returns the first position holding it |
| Render.DateColumn | converttimestamptodate.py:58-62 | the replacement column keeps the name, carries `{"unit": unit}` metadata and as many chunks as before, and its flattened dates are the conversion of the flattened timestamps |
| Render.RenderArrow | converttimestamptodate.py:51-64 | the result is an error exactly when a requested name is missing, and then names the first missing one. Otherwise it has the same length and column names, each column `list.index` finds for a requested name becomes its date column, and every other column is unchanged |
| Examples.TimezoneUtc | tests/test_render.py:38-68 | under UTC, 01:31:01 to 05:31:01 on 2021-04-22 all give 2021-04-22 |
| Examples.TimezoneToronto | tests/test_render.py:38-60 | four hours behind UTC, the same five instants give 04-21, 04-21, 04-21, 04-22, 04-22 |
| Examples.UnitDay | tests/test_render.py:71-82 | midnight UTC on 2021-04-21 and 2021-06-01 keep their dates |
| Examples.UnitWeek | tests/test_render.py:84-88 | the week rule gives the Mondays 2021-04-19 and 2021-05-31 |
| Examples.UnitMonth | tests/test_render.py:90-94 | the month rule gives 2021-04-01 and 2021-06-01 |
| Examples.UnitQuarter | tests/test_render.py:96-100 | the quarter rule gives 2021-04-01 for both |
| Examples.UnitYear | tests/test_render.py:102-106 | the year rule gives 2021-01-01 for both |
| Examples.NoColumnsNoOp | tests/test_render.py:13-16 | with no column requested, the table comes back unchanged |
| Examples.ReplaceTimestamp | tests/test_render.py:19-35 | column "A" holding 2021-04-21 17:31:01 UTC and a null becomes a date column tagged `day` holding 2021-04-21 and the null |

## Left out

- The timezone: `os.environ["TZ"]`, `time.tzset` and the timezone database are not modelled. `time.localtime` is an oracle parameter, and the model only assumes what it guarantees: fields that name a real date together with that date's weekday. UTC and fixed-offset zones are the only concrete oracles. The Toronto test is stated under the fixed offset −4 h that the zone uses in April 2021. Daylight-saving transitions are not modelled.
- Process-wide state: setting `TZ` is a global side effect, so the result depends on no other conversion changing it. The model passes the oracle explicitly and does not capture that hazard.
- Only the `struct_time` fields the rules read are modelled (`tm_year`, `tm_mon`, `tm_mday`, `tm_wday`). Hours, minutes, seconds, `tm_yday` and `tm_isdst` are not.
- Arrow plumbing: `array.view(pa.int64())`, `to_pylist`, `table.column_names`, `pa.array(..., pa.date32())`, `pa.chunked_array` and `set_column` are modelled only by the values they carry. Columns are sequences of chunks of nullable values, and fields are a name plus string metadata. `date32` storage (days since the epoch) is represented by `Date` values.
- Render.RenderArrow: takes the unit already parsed and requires the requested names to be distinct, with every column they select holding timestamps. Within this step the host's parameter schema provides these guarantees. Requesting a name twice would make the second pass read a `date32` column as timestamps, and that case is not modelled.
- Converters.ParseUnit: the failed lookup (`KeyError`) of an unknown unit name is modelled, but `RenderArrow` and `ConvertArray` take a `Unit`. The host validates the name before the step runs.
- `datetime.date` raising `ValueError` for a date outside years 1 to 9999 is not modelled as an error path. The rules are applied only to well-formed local fields, and every rule's result is proved valid.
- `ArrowRenderResult`, `params` handling and the step's YAML parameter specification are not part of this model. The parameter defaults are not modelled either, so the unit tests are stated under UTC.
- Conversion.ConvertArray: the Python list is modelled as a sequence value that the loop reassigns, not as a mutable array.

## Findings

| source | as written | input that shows it | evidently intended | confidence | as-written member | corrected member |
|---|---|---|---|---|---|---|
| converttimestamptodate.py:28 | `pa.compute.divide` on int64 rounds toward zero, so a timestamp a fraction of a second before the epoch becomes second 0 | −500000000 ns (1969-12-31 23:59:59.5 UTC) gets the date 1970-01-01 under UTC | the whole second that holds the instant (rounding down), so the date is the day the instant lies on: 1969-12-31 | medium: depends on Arrow's integer division rounding toward zero, as C++ division does; not executed | Conversion.TruncatedSeconds, Conversion.TruncationCrossesMidnight | Conversion.NanosToSeconds, Conversion.UtcDayHoldsInstant |

The conversion (`UnixSeconds`, `Bucketed`, `ConvertArray` and what is built on them) follows the code as written. The corrected division and the date built on it stand beside it. Conversion.TruncationAgreesFromEpoch and Conversion.BucketedFromEpoch show that the two agree on every timestamp from the epoch on. They differ only on timestamps before 1970-01-01 that do not fall on a whole second.
