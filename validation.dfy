/**
 * The checks the upload view makes before anything is stored
 * (backend/chemical_equipment/equipment/views.py, lines 43-79): a file must
 * be present, its name must end in `.csv`, the table must have every
 * required column, and at least one row must have all required cells.
 */
module Validation {
  import opened Csv
  import opened Seqs

  datatype UploadError =
    | NoFileProvided
    | NotCsv
    | MissingColumns(columns: seq<string>)
    | NoValidData
      /** `pd.read_csv` or the statistics raised; caught by the view's `except`. */
    | ProcessingFailed

  /**
   * The uploaded file: its name, and what `pd.read_csv` made of it
   * (`None` when reading raised).
   */
  datatype UploadedFile = UploadedFile(name: string, content: Option<ParsedTable>)

  const CsvSuffix: string := ".csv"

  /** Python's case-sensitive `str.endswith`: `s` is some text followed by `suffix`. */
  predicate EndsWith(s: string, suffix: string)
    ensures EndsWith(s, suffix) <==> exists p :: s == p + suffix
  {
    if |suffix| <= |s| then
      assert s == s[..|s| - |suffix|] + s[|s| - |suffix|..];
      s[|s| - |suffix|..] == suffix
    else false
  }

  /** The elements of `required` that are not in `columns`, in the order of `required`. */
  function MissingFrom(required: seq<string>, columns: seq<string>): (missing: seq<string>)
    ensures forall c :: c in missing <==> c in required && c !in columns
    ensures SubsequenceOf(missing, required)
  {
    if required == [] then []
    else
      var rest := MissingFrom(required[1..], columns);
      if required[0] in columns then rest else [required[0]] + rest
  }

  /** The list comprehension of views.py line 64 over the required columns. */
  function MissingRequired(columns: seq<string>): (missing: seq<string>)
    ensures forall c :: c in missing <==> c in RequiredColumns && c !in columns
    ensures SubsequenceOf(missing, RequiredColumns)
    ensures missing == [] <==> forall c :: c in RequiredColumns ==> c in columns
  {
    var missing := MissingFrom(RequiredColumns, columns);
    assert missing != [] ==> missing[0] in missing;
    missing
  }

  /**
   * The missing-column list is the ONLY list that names exactly the absent
   * required columns in the order of the required list.
   */
  lemma MissingRequiredExact(columns: seq<string>, named: seq<string>)
    requires forall c :: c in named <==> c in RequiredColumns && c !in columns
    requires SubsequenceOf(named, RequiredColumns)
    ensures named == MissingRequired(columns)
  {
    assert Distinct(RequiredColumns);
    SubsequenceUnique(named, MissingRequired(columns), RequiredColumns);
  }

  /**
   * `df.dropna(subset=required_columns)`: the rows with every required cell,
   * in their original order, with their other columns untouched.
   */
  function DropIncomplete(rows: seq<Row>): (clean: seq<Row>)
    ensures forall k :: 0 <= k < |clean| ==> Complete(clean[k])
    ensures forall row :: Complete(row) ==> multiset(clean)[row] == multiset(rows)[row]
    ensures SubsequenceOf(clean, rows)
  {
    if rows == [] then []
    else
      assert rows == [rows[0]] + rows[1..];
      var rest := DropIncomplete(rows[1..]);
      if Complete(rows[0]) then [rows[0]] + rest else rest
  }

  /** Cleaning an already cleaned table changes nothing. */
  lemma {:induction false} DropIncompleteIdempotent(rows: seq<Row>)
    ensures DropIncomplete(DropIncomplete(rows)) == DropIncomplete(rows)
  {
    AllCompleteKept(DropIncomplete(rows));
  }

  /** A table whose rows are all complete is left as it is. */
  lemma {:induction false} AllCompleteKept(rows: seq<Row>)
    requires forall k :: 0 <= k < |rows| ==> Complete(rows[k])
    ensures DropIncomplete(rows) == rows
  {
    if rows != [] {
      AllCompleteKept(rows[1..]);
    }
  }

  /** Cleaning drops every row when no row is complete, and only then. */
  lemma {:induction false} NothingLeftExactly(rows: seq<Row>)
    ensures DropIncomplete(rows) == [] <==> forall k :: 0 <= k < |rows| ==> !Complete(rows[k])
  {
    if rows != [] {
      NothingLeftExactly(rows[1..]);
      assert forall k :: 1 <= k < |rows| ==> rows[k] == rows[1..][k - 1];
    }
  }

  /** Every required column is in the header. */
  predicate HasAllColumns(table: Table)
  {
    forall c :: c in RequiredColumns ==> c in table.columns
  }

  /** Some row has a value in every required column. */
  predicate HasCompleteRow(table: Table)
  {
    exists k :: 0 <= k < |table.rows| && Complete(table.rows[k])
  }

  /** A file with a `.csv` name that `pd.read_csv` could read. */
  predicate Readable(file: Option<UploadedFile>)
  {
    file.Some? && EndsWith(file.value.name, CsvSuffix) && file.value.content.Some?
  }

  /**
   * Lines 43-79 of the upload view as one value: the cleaned rows, or the
   * error the view answers with. Nothing is stored on any of these paths.
   */
  function CheckUpload(file: Option<UploadedFile>): (r: Result<seq<Row>, UploadError>)
    ensures r == Failure(NoFileProvided) <==> file.None?
    ensures r == Failure(NotCsv) <==> file.Some? && !EndsWith(file.value.name, CsvSuffix)
    ensures r == Failure(ProcessingFailed) <==>
      file.Some? && EndsWith(file.value.name, CsvSuffix) && file.value.content.None?
    ensures r.Failure? && r.error.MissingColumns? <==>
      Readable(file) && !HasAllColumns(file.value.content.value)
    ensures r.Failure? && r.error.MissingColumns? ==>
      && r.error.columns != []
      && r.error.columns == MissingRequired(file.value.content.value.columns)
    ensures r == Failure(NoValidData) <==>
      && Readable(file) && HasAllColumns(file.value.content.value)
      && !HasCompleteRow(file.value.content.value)
    ensures r.Success? <==>
      && Readable(file) && HasAllColumns(file.value.content.value)
      && HasCompleteRow(file.value.content.value)
    ensures r.Success? ==>
      && r.value != []
      && r.value == DropIncomplete(file.value.content.value.rows)
  {
    match file
    case None => Failure(NoFileProvided)
    case Some(UploadedFile(name, content)) =>
      if !EndsWith(name, CsvSuffix) then Failure(NotCsv)
      else match content
        case None => Failure(ProcessingFailed)
        case Some(table) =>
          var missing := MissingRequired(table.columns);
          if missing != [] then Failure(MissingColumns(missing))
          else
            var clean := DropIncomplete(table.rows);
            NothingLeftExactly(table.rows);
            if |clean| == 0 then Failure(NoValidData) else Success(clean)
  }

  /** A readable `.csv` file with every column and a complete row is accepted, cleaned. */
  lemma Accepted(file: UploadedFile)
    requires EndsWith(file.name, CsvSuffix) && file.content.Some?
    requires HasAllColumns(file.content.value) && HasCompleteRow(file.content.value)
    ensures CheckUpload(Some(file)) == Success(DropIncomplete(file.content.value.rows))
  {
  }

  /** `separator.join(parts)`: the parts in order, with the separator between neighbours. */
  function Join(parts: seq<string>, separator: string): (r: string)
    ensures parts == [] ==> r == ""
    ensures parts != [] ==> parts[0] <= r
  {
    if parts == [] then ""
    else if |parts| == 1 then parts[0]
    else parts[0] + separator + Join(parts[1..], separator)
  }

  /** Joining one more part appends the separator and that part, as building the text left to right does. */
  lemma {:induction false} JoinAppend(parts: seq<string>, last: string, separator: string)
    requires parts != []
    ensures Join(parts + [last], separator) == Join(parts, separator) + separator + last
  {
    if |parts| == 1 {
      assert (parts + [last])[1..] == [last];
    } else {
      assert (parts + [last])[1..] == parts[1..] + [last];
      JoinAppend(parts[1..], last, separator);
    }
  }

  /** The length of a joined text: every part plus one separator per gap. */
  lemma {:induction false} JoinLength(parts: seq<string>, separator: string)
    requires parts != []
    ensures |Join(parts, separator)| == TotalLength(parts) + (|parts| - 1) * |separator|
  {
    if |parts| > 1 {
      JoinLength(parts[1..], separator);
    }
  }

  /** The sum of the lengths of the parts. */
  function TotalLength(parts: seq<string>): nat
  {
    if parts == [] then 0 else |parts[0]| + TotalLength(parts[1..])
  }

  /** The `error` text of the 400 response for each failure. */
  function Message(e: UploadError): (m: string)
    ensures m != ""
    ensures e.MissingColumns? <==> "Missing required columns: " <= m
  {
    match e
    case NoFileProvided => "No file provided"
    case NotCsv => "File must be CSV format"
    case MissingColumns(columns) => "Missing required columns: " + Join(columns, ", ")
    case NoValidData => assert "No valid data found in CSV"[0] == 'N'; "No valid data found in CSV"
    case ProcessingFailed => "Error processing CSV"
  }

  /**
   * The error text tells the kinds of failure apart: equal texts come from
   * the same kind, and apart from the missing-column list, from the same error.
   */
  lemma MessagesTellErrorsApart(e1: UploadError, e2: UploadError)
    requires Message(e1) == Message(e2)
    ensures e1.MissingColumns? <==> e2.MissingColumns?
    ensures !e1.MissingColumns? ==> e1 == e2
  {
    var m1, m2 := Message(e1), Message(e2);
    assert m1[0] == m2[0] && m1[3] == m2[3];
  }

  /** The suffix test is case-sensitive: `data.CSV` is refused as not CSV. */
  lemma UpperCaseSuffixRefused(content: Option<ParsedTable>)
    ensures CheckUpload(Some(UploadedFile("data.CSV", content))) == Failure(NotCsv)
    ensures Message(CheckUpload(Some(UploadedFile("data.CSV", content))).error) == "File must be CSV format"
  {
    assert "data.CSV"[4..] != CsvSuffix by { assert "data.CSV"[4..][1] == 'C'; }
  }

  /** A table without a Temperature column is refused naming that column alone. */
  lemma MissingTemperature(rows: seq<Row>)
    requires ColumnTyped(Table([NameColumn, TypeColumn, FlowrateColumn, PressureColumn], rows))
    ensures var file := UploadedFile("readings.csv", Some(Table([NameColumn, TypeColumn, FlowrateColumn, PressureColumn], rows)));
      && CheckUpload(Some(file)) == Failure(MissingColumns([TemperatureColumn]))
      && Message(CheckUpload(Some(file)).error) == "Missing required columns: Temperature"
  {
    var columns := [NameColumn, TypeColumn, FlowrateColumn, PressureColumn];
    var named := [TemperatureColumn];
    assert SubsequenceOf(named, RequiredColumns) by {
      assert SubsequenceOf(named, RequiredColumns[4..]) by { assert RequiredColumns[4..] == named; }
      assert SubsequenceOf(named, RequiredColumns[3..]);
      assert SubsequenceOf(named, RequiredColumns[2..]);
      assert SubsequenceOf(named, RequiredColumns[1..]);
    }
    MissingRequiredExact(columns, named);
  }

  /** Three rows, one of them without a pressure: two rows survive cleaning, in order. */
  lemma OneRowMissingPressure(a: Row, b: Row, c: Row)
    requires Complete(a) && Complete(c)
    requires PressureColumn !in b
    ensures DropIncomplete([a, b, c]) == [a, c]
  {
    assert !Complete(b);
    assert DropIncomplete([c]) == [c] by { assert [c][1..] == []; }
    assert DropIncomplete([b, c]) == [c] by { assert [b, c][1..] == [c]; }
    assert [a, b, c][1..] == [b, c];
  }
}
