/** The rows handed to the CSV writer (`write_csv`). */
module CsvExport {
  import opened Api

  /** The CSV columns, in order; also the header row. */
  const FIELDS: seq<string> := [
    "case_id",
    "open_date",
    "close_date",
    "target_close_date",
    "case_topic",
    "service_name",
    "assigned_department",
    "assigned_team",
    "case_status",
    "closure_reason",
    "closure_comments",
    "on_time",
    "report_source",
    "full_address",
    "street_number",
    "street_name",
    "zip_code",
    "neighborhood",
    "public_works_district",
    "city_council_district",
    "fire_district",
    "police_district",
    "ward",
    "precinct",
    "longitude",
    "latitude"
  ]

  /** No column is listed twice, so a row keyed by `FIELDS` has one cell per
      distinct key, as the dict built for each record does. */
  lemma FieldsDistinct()
    ensures forall i, j :: 0 <= i < j < |FIELDS| ==> FIELDS[i] != FIELDS[j]
  {
  }

  /** One column of a row: its name and the value written there. */
  datatype Cell = Cell(field: string, value: Value)

  type Row = seq<Cell>

  /** What the writer receives: the header, then one row per record. */
  datatype Table = Table(header: seq<string>, rows: seq<Row>)

  /** `record.get(key) or ""`. */
  function Cleaned(record: Record, key: string): Value
  {
    if key in record && IsTruthy(record[key]) then record[key] else Str("")
  }

  /** The row for `record` over the columns `fields`: one cell per column,
      in column order; a missing or falsy value becomes the empty string,
      any other value is kept, and keys of `record` outside `fields` play no part. */
  function Project(record: Record, fields: seq<string>): (row: Row)
    ensures |row| == |fields|
    ensures forall i :: 0 <= i < |row| ==> row[i].field == fields[i]
    ensures forall i :: 0 <= i < |row| && fields[i] in record && IsTruthy(record[fields[i]]) ==>
      row[i].value == record[fields[i]]
    ensures forall i :: 0 <= i < |row| && (fields[i] !in record || !IsTruthy(record[fields[i]])) ==>
      row[i].value == Str("")
  {
    if fields == [] then [] else [Cell(fields[0], Cleaned(record, fields[0]))] + Project(record, fields[1..])
  }

  /** The dict built for one record, keyed by exactly `FIELDS` in `FIELDS` order. */
  function ProjectRow(record: Record): (row: Row)
    ensures |row| == |FIELDS|
    ensures forall i :: 0 <= i < |row| ==> row[i].field == FIELDS[i]
    ensures forall i :: 0 <= i < |row| && FIELDS[i] in record && IsTruthy(record[FIELDS[i]]) ==>
      row[i].value == record[FIELDS[i]]
    ensures forall i :: 0 <= i < |row| && (FIELDS[i] !in record || !IsTruthy(record[FIELDS[i]])) ==>
      row[i].value == Str("")
  {
    Project(record, FIELDS)
  }

  /** `write_csv`: the header is `FIELDS`, and the records are written one
      row each, in order. */
  method WriteCsv(records: seq<Record>) returns (table: Table)
    ensures table.header == FIELDS
    ensures |table.rows| == |records|
    ensures forall i :: 0 <= i < |records| ==> table.rows[i] == ProjectRow(records[i])
  {
    var rows: seq<Row> := [];
    for i := 0 to |records|
      invariant |rows| == i
      invariant forall j :: 0 <= j < i ==> rows[j] == ProjectRow(records[j])
    {
      rows := rows + [ProjectRow(records[i])];
    }
    table := Table(FIELDS, rows);
  }

  /** The columns a record can appear in. */
  function FieldSet(): set<string>
  {
    set f | f in FIELDS
  }

  /** What a row still says about its record when read back: the columns
      whose value is not falsy. */
  function RowRecord(row: Row): Record
  {
    if row == [] then map[]
    else
      var rest := RowRecord(row[1..]);
      if IsTruthy(row[0].value) then rest[row[0].field := row[0].value] else rest
  }

  /** The entries of `record` that survive projection onto `fields`. */
  function TruthyEntries(record: Record, fields: seq<string>): Record
  {
    map k | k in record && k in fields && IsTruthy(record[k]) :: record[k]
  }

  /** Reading a projected row back gives the record's truthy entries among
      `fields` and nothing else. */
  lemma {:induction false} ProjectReadBack(record: Record, fields: seq<string>)
    ensures RowRecord(Project(record, fields)) == TruthyEntries(record, fields)
  {
    if fields != [] {
      var f := fields[0];
      ProjectReadBack(record, fields[1..]);
      var rest := TruthyEntries(record, fields[1..]);
      var all := TruthyEntries(record, fields);
      if f in record && IsTruthy(record[f]) {
        assert all == rest[f := record[f]];
      } else {
        assert all == rest;
      }
    }
  }

  /** A record whose keys are all columns and whose values are all truthy is
      written losslessly: reading its row back gives the record again. */
  lemma ProjectRowRoundTrip(record: Record)
    requires record.Keys <= FieldSet()
    requires forall k :: k in record ==> IsTruthy(record[k])
    ensures RowRecord(ProjectRow(record)) == record
  {
    ProjectReadBack(record, FIELDS);
    assert TruthyEntries(record, FIELDS) == record;
  }

  /** Keys outside `FIELDS` are dropped: removing them leaves the row unchanged. */
  lemma ProjectRowIgnoresExtraKeys(record: Record)
    ensures ProjectRow(record) == ProjectRow(record - (record.Keys - FieldSet()))
  {
    var kept := record - (record.Keys - FieldSet());
    forall i | 0 <= i < |FIELDS|
      ensures ProjectRow(record)[i] == ProjectRow(kept)[i]
    {
      assert FIELDS[i] in FieldSet();
    }
  }
}
