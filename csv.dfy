/**
 * The parsed upload: what `pd.read_csv` hands to the upload view. Parsing
 * itself is not part of this model; a table arrives as its header and its
 * rows, and a row maps each column name to the cell pandas read for it.
 */
module Csv {

  datatype Option<+T> = None | Some(value: T)

  datatype Result<+T, +E> = Success(value: T) | Failure(error: E)

  /** A cell as pandas parsed it: a number, or text it could not read as one. */
  datatype Cell = Text(text: string) | Num(value: real)

  /** A row of the table. A column absent from the map is a missing (NaN) cell. */
  type Row = map<string, Cell>

  datatype Table = Table(columns: seq<string>, rows: seq<Row>)

  const NameColumn: string := "Equipment Name"
  const TypeColumn: string := "Type"
  const FlowrateColumn: string := "Flowrate"
  const PressureColumn: string := "Pressure"
  const TemperatureColumn: string := "Temperature"

  /** The columns an upload must have, in the order the upload view lists them. */
  const RequiredColumns: seq<string> :=
    [NameColumn, TypeColumn, FlowrateColumn, PressureColumn, TemperatureColumn]

  /** A row with a value in every required column (the rows `dropna` keeps). */
  predicate Complete(row: Row)
    ensures Complete(row) <==> forall c :: c in RequiredColumns ==> c in row
  {
    NameColumn in row && TypeColumn in row && FlowrateColumn in row
    && PressureColumn in row && TemperatureColumn in row
  }

  /** The columns holding numeric readings. */
  const Measurements: seq<string> := [FlowrateColumn, PressureColumn, TemperatureColumn]

  /** A complete row whose three measurement cells hold numbers. */
  predicate Numeric(row: Row)
  {
    && Complete(row)
    && row[FlowrateColumn].Num?
    && row[PressureColumn].Num?
    && row[TemperatureColumn].Num?
  }

  /** The row has a text cell in a measurement column. */
  predicate HasText(row: Row)
  {
    || (FlowrateColumn in row && row[FlowrateColumn].Text?)
    || (PressureColumn in row && row[PressureColumn].Text?)
    || (TemperatureColumn in row && row[TemperatureColumn].Text?)
  }

  /**
   * pandas gives a whole column one dtype: the present cells of a column
   * are all numbers, or all text once any of them is not a number. Missing
   * cells do not decide the dtype.
   */
  predicate OneKind(rows: seq<Row>, column: string)
  {
    || (forall k :: 0 <= k < |rows| && column in rows[k] ==> rows[k][column].Num?)
    || (forall k :: 0 <= k < |rows| && column in rows[k] ==> rows[k][column].Text?)
  }

  /** Every measurement column of the table has one dtype. */
  predicate ColumnTyped(table: Table)
  {
    OneKind(table.rows, FlowrateColumn) && OneKind(table.rows, PressureColumn)
    && OneKind(table.rows, TemperatureColumn)
  }

  /** The tables `pd.read_csv` produces: typed column by column. */
  type ParsedTable = t: Table | ColumnTyped(t) witness Table([], [])

  /**
   * In a typed table, text in one row's measurement column means text in
   * that column of every row that has a value there.
   */
  lemma TextSpreads(table: Table, column: string, i: nat, j: nat)
    requires ColumnTyped(table)
    requires column in Measurements
    requires i < |table.rows| && j < |table.rows|
    requires column in table.rows[j] && table.rows[j][column].Text?
    requires column in table.rows[i]
    ensures table.rows[i][column].Text?
  {
    assert OneKind(table.rows, column);
  }

  /** Rows whose measurements are all numbers are complete. */
  lemma NumericComplete(rows: seq<Row>)
    requires forall k :: 0 <= k < |rows| ==> Numeric(rows[k])
    ensures forall k :: 0 <= k < |rows| ==> Complete(rows[k])
  {
    forall k | 0 <= k < |rows| ensures Complete(rows[k]) { assert Numeric(rows[k]); }
  }

  /** The `Equipment Name` cell of a complete row. */
  function NameOf(row: Row): Cell
    requires Complete(row)
  {
    row[NameColumn]
  }

  /** The `Type` cell of a complete row. */
  function TypeOf(row: Row): Cell
    requires Complete(row)
  {
    row[TypeColumn]
  }

  /** The number in one measurement column of a numeric row. */
  function Reading(row: Row, column: string): real
    requires Numeric(row) && column in Measurements
  {
    row[column].value
  }
}
