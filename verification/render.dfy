/**
 * `render_arrow_v1`: every selected column of timestamps is replaced, in
 * place and under its own name, by the column of their dates, tagged with
 * the unit in its field metadata.
 */
module Render {
  import opened Wrappers
  import opened Calendar
  import opened Converters
  import opened LocalClock
  import opened Conversion

  /** The data of a column: chunks of timestamps, chunks of dates, or anything else. */
  datatype ColumnData =
    | Timestamps(chunks: seq<seq<Option<Nanos>>>)
    | Dates(dates: seq<seq<Option<Date>>>)
    | Other(typeName: string)

  /** A column with its field: name, field metadata and data. */
  datatype Column = Column(name: string, metadata: map<string, string>, data: ColumnData)

  type Table = seq<Column>

  /** `list.index` raises `ValueError` for a column name the table lacks. */
  datatype RenderError = ColumnNotFound(name: string)

  function ColumnNames(table: Table): (names: seq<string>)
    ensures |names| == |table|
    ensures forall j :: 0 <= j < |table| ==> names[j] == table[j].name
  {
    seq(|table|, j requires 0 <= j < |table| => table[j].name)
  }

  /** `names.index(name)`: the first position holding `name`, if any. */
  function IndexOf(names: seq<string>, name: string): (r: Option<nat>)
    ensures r.None? <==> name !in names
    ensures r.Some? ==> r.value < |names| && names[r.value] == name && name !in names[..r.value]
  {
    if names == [] then None
    else if names[0] == name then Some(0)
    else
      var rest := IndexOf(names[1..], name);
      if rest.None? then None
      else
        assert names[..rest.value + 1] == [names[0]] + names[1..][..rest.value];
        Some(rest.value + 1)
  }

  /**
   * The column `set_column` puts in place of a timestamp column: same name,
   * a `date32` field whose metadata records the unit, and the converted chunks.
   */
  function DateColumn(column: Column, unit: Unit, localtime: LocalTime): (c: Column)
    requires column.data.Timestamps?
    ensures c.name == column.name && c.metadata == map["unit" := UnitName(unit)]
    ensures c.data.Dates? && |c.data.dates| == |column.data.chunks|
    ensures Flatten(c.data.dates) == Bucketed(Flatten(column.data.chunks), unit, localtime)
  {
    ConvertChunkedFlatten(column.data.chunks, unit, localtime);
    Column(column.name, map["unit" := UnitName(unit)], Dates(ConvertChunked(column.data.chunks, unit, localtime)))
  }

  /**
   * Column `j` is the one `names.index` finds for one of `colnames`: the
   * first column carrying a requested name.
   */
  predicate Selected(table: Table, colnames: seq<string>, j: int)
    requires 0 <= j < |table|
  {
    table[j].name in colnames && IndexOf(ColumnNames(table), table[j].name) == Some(j)
  }

  /** The requested names appear once each, as the column parameter delivers them. */
  predicate Distinct(colnames: seq<string>) {
    forall a, b :: 0 <= a < b < |colnames| ==> colnames[a] != colnames[b]
  }

  /** `colnames[k]` is the first requested name the table lacks. */
  predicate FirstMissing(table: Table, colnames: seq<string>, k: int) {
    && 0 <= k < |colnames|
    && colnames[k] !in ColumnNames(table)
    && forall k' :: 0 <= k' < k ==> colnames[k'] in ColumnNames(table)
  }

  /**
   * `render_arrow_v1` for one unit and one local-time oracle. A requested
   * name the table lacks fails with that name (the first such name). Otherwise
   * the table keeps its length and its column names, each selected column
   * becomes its date column and every other column is untouched.
   */
  method RenderArrow(table: Table, colnames: seq<string>, unit: Unit, localtime: LocalTime)
    returns (result: Result<Table, RenderError>)
    requires Distinct(colnames)
    requires forall j :: 0 <= j < |table| && Selected(table, colnames, j) ==> table[j].data.Timestamps?
    ensures result.Err? <==> exists k :: 0 <= k < |colnames| && colnames[k] !in ColumnNames(table)
    ensures result.Err? ==> exists k :: FirstMissing(table, colnames, k) && result.error == ColumnNotFound(colnames[k])
    ensures result.Ok? ==> |result.value| == |table| && ColumnNames(result.value) == ColumnNames(table)
    ensures result.Ok? ==> forall j :: 0 <= j < |table| ==>
      result.value[j] == if Selected(table, colnames, j) then DateColumn(table[j], unit, localtime) else table[j]
  {
    var names := ColumnNames(table);
    var current := table;
    for k := 0 to |colnames|
      invariant |current| == |table|
      invariant forall k' :: 0 <= k' < k ==> colnames[k'] in names
      invariant forall j :: 0 <= j < |table| ==>
        current[j] == if Selected(table, colnames[..k], j) then DateColumn(table[j], unit, localtime) else table[j]
    {
      var colname := colnames[k];
      var found := IndexOf(ColumnNames(current), colname);
      assert ColumnNames(current) == names;
      if found.None? {
        return Err(ColumnNotFound(colname));
      }
      var i := found.value;
      assert Selected(table, colnames, i);
      assert colname !in colnames[..k];
      current := current[i := DateColumn(current[i], unit, localtime)];
      assert colnames[..k + 1] == colnames[..k] + [colname];
    }
    assert colnames[..|colnames|] == colnames;
    assert forall j :: 0 <= j < |table| ==> current[j].name == table[j].name;
    return Ok(current);
  }
}
