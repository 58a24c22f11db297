/**
 * The two actions of `DatasetViewSet` in
 * backend/chemical_equipment/equipment/views.py: `upload`, which checks a
 * CSV file, stores a Dataset with its summary and one Equipment row per
 * cleaned row, then keeps only the five newest Datasets; and `list`, which
 * answers with the five newest Datasets.
 */
module Views {
  import opened Csv
  import opened Seqs
  import opened Validation
  import opened Summaries
  import opened Models
  import opened Database

  /** How many Datasets survive an upload, and how many `list` returns. */
  const RetentionLimit: nat := 5

  /** The view's answer: 201 with the stored Dataset, or 400 with an error. */
  datatype Response = Created(dataset: DatasetRow) | BadRequest(error: UploadError)

  /** The loop of views.py lines 107-116: one Equipment row per cleaned row, in row order. */
  method BuildEquipment(datasetId: nat, rows: seq<Row>) returns (list: seq<EquipmentRow>)
    requires forall k :: 0 <= k < |rows| ==> Numeric(rows[k])
    ensures list == Records(datasetId, rows)
    ensures |list| == |rows|
    ensures forall k :: 0 <= k < |list| ==>
      && list[k].datasetId == datasetId
      && list[k].name == NameOf(rows[k]) && list[k].equipmentType == TypeOf(rows[k])
      && list[k].flowrate == Reading(rows[k], FlowrateColumn)
      && list[k].pressure == Reading(rows[k], PressureColumn)
      && list[k].temperature == Reading(rows[k], TemperatureColumn)
  {
    list := [];
    var i := 0;
    while i < |rows|
      invariant 0 <= i <= |rows|
      invariant |list| == i
      invariant forall k :: 0 <= k < i ==> list[k] == RecordOf(datasetId, rows[k])
    {
      list := list + [RecordOf(datasetId, rows[i])];
      i := i + 1;
    }
  }

  /**
   * Views.py lines 121-123: `Dataset.objects.all()[5:]` is read once, then
   * each of those Datasets is deleted in turn, cascading to its Equipment.
   */
  method TrimRetained(db: Store)
    requires db.Valid()
    modifies db
    ensures db.Valid()
    ensures db.datasets == Take(old(db.datasets), RetentionLimit)
    ensures db.equipment == KeepOwned(old(db.equipment), Ids(db.datasets))
    ensures forall d, e :: d in old(db.datasets) && d !in db.datasets && e in db.datasets ==> Older(d, e)
    ensures db.clock == old(db.clock) && db.nextId == old(db.nextId)
  {
    ghost var start := db.equipment;
    var kept := Take(db.datasets, RetentionLimit);
    var stale := db.datasets[|kept|..];
    assert db.datasets == kept + stale;
    KeepOwnedAll(start, Ids(db.datasets));
    var i := 0;
    while i < |stale|
      invariant 0 <= i <= |stale|
      invariant db.Valid()
      invariant db.datasets == kept + stale[i..]
      invariant db.equipment == KeepOwned(start, Ids(db.datasets))
      invariant db.clock == old(db.clock) && db.nextId == old(db.nextId)
    {
      ghost var before := db.datasets;
      RemoveAfter(kept, stale[i..]);
      assert stale[i..][1..] == stale[i + 1..];
      db.Delete(stale[i].id);
      KeepOwnedTwice(start, Ids(before), Ids(db.datasets));
      i := i + 1;
    }
    assert db.datasets == kept;
    TakeNewest(old(db.datasets), RetentionLimit);
  }

  /**
   * Views.py lines 103-123, once the Dataset row exists and the summary is
   * known: store the summary, save the row, create the Equipment rows, and
   * keep the five newest Datasets.
   */
  method StoreResults(db: Store, dataset: Dataset, clean: seq<Row>, summary: Summary)
    requires db.Valid()
    requires db.datasets != [] && db.datasets[0] == dataset.AsRow()
    requires forall k :: 0 <= k < |clean| ==> Numeric(clean[k])
    modifies db, dataset`summaryData
    ensures db.Valid()
    ensures dataset.AsRow() == old(dataset.AsRow()).(summaryData := Json(summary))
    ensures db.datasets == Take([dataset.AsRow()] + old(db.datasets)[1..], RetentionLimit)
    ensures db.equipment == KeepOwned(old(db.equipment) + Records(dataset.id, clean), Ids(db.datasets))
    ensures db.datasets[0] == dataset.AsRow()
  {
    ghost var rest := db.datasets[1..];
    dataset.SetSummaryData(summary);
    assert dataset.id in Ids(db.datasets) by { assert db.datasets[0] in db.datasets; }
    ReplaceNewest(db.datasets, dataset.AsRow());
    db.Save(dataset);
    var list := BuildEquipment(dataset.id, clean);
    assert dataset.id in Ids(db.datasets) by { assert db.datasets[0] in db.datasets; }
    db.BulkCreate(list);
    TrimRetained(db);
  }

  /**
   * `DatasetViewSet.upload` as written (views.py lines 38-133). When a
   * measurement column holds text, the statistics raise only after
   * `Dataset.objects.create`: the view answers 400, but the new Dataset row
   * stays, with a blank summary, no Equipment rows and no trimming.
   */
  method Upload(db: Store, file: Option<UploadedFile>) returns (response: Response)
    requires db.Valid()
    modifies db
    ensures db.Valid()
    ensures match CheckUpload(file)
      case Failure(e) =>
        && response == BadRequest(e)
        && db.datasets == old(db.datasets) && db.equipment == old(db.equipment)
      case Success(clean) =>
        var pending := DatasetRow(old(db.nextId), file.value.name, old(db.clock), |clean|, Stored(""));
        match Summarize(clean)
        case None =>
          && response == BadRequest(ProcessingFailed)
          && db.datasets == [pending] + old(db.datasets)
          && db.equipment == old(db.equipment)
        case Some(s) =>
          var row := pending.(summaryData := Json(s));
          && response == Created(row)
          && db.datasets == Take([row] + old(db.datasets), RetentionLimit)
          && db.datasets[0] == row && |db.datasets| <= RetentionLimit
          && db.equipment == KeepOwned(old(db.equipment) + Records(row.id, clean), Ids(db.datasets))
  {
    var checked := CheckUpload(file);
    if checked.Failure? {
      return BadRequest(checked.error);
    }
    var clean := checked.value;
    var dataset := db.Create(file.value.name, |clean|);
    var summary := Summarize(clean);
    if summary.None? {
      return BadRequest(ProcessingFailed);
    }
    StoreResults(db, dataset, clean, summary.value);
    response := Created(dataset.AsRow());
  }

  /**
   * The upload as evidently intended: the summary is computed before the
   * Dataset row is created, so every 400 answer leaves the database as it was.
   */
  method UploadAtomic(db: Store, file: Option<UploadedFile>) returns (response: Response)
    requires db.Valid()
    modifies db
    ensures db.Valid()
    ensures response.BadRequest? ==> db.datasets == old(db.datasets) && db.equipment == old(db.equipment)
    ensures |old(db.datasets)| <= RetentionLimit ==> |db.datasets| <= RetentionLimit
    ensures match CheckUpload(file)
      case Failure(e) => response == BadRequest(e)
      case Success(clean) =>
        match Summarize(clean)
        case None => response == BadRequest(ProcessingFailed)
        case Some(s) =>
          var row := DatasetRow(old(db.nextId), file.value.name, old(db.clock), |clean|, Json(s));
          && response == Created(row)
          && db.datasets == Take([row] + old(db.datasets), RetentionLimit)
          && db.datasets[0] == row && |db.datasets| <= RetentionLimit
          && db.equipment == KeepOwned(old(db.equipment) + Records(row.id, clean), Ids(db.datasets))
  {
    var checked := CheckUpload(file);
    if checked.Failure? {
      return BadRequest(checked.error);
    }
    var clean := checked.value;
    var summary := Summarize(clean);
    if summary.None? {
      return BadRequest(ProcessingFailed);
    }
    var dataset := db.Create(file.value.name, |clean|);
    StoreResults(db, dataset, clean, summary.value);
    response := Created(dataset.AsRow());
  }

  /** A complete row whose Flowrate cell is the text `unknown`. */
  function BrokenRow(): (row: Row)
    ensures Complete(row) && !Numeric(row)
  {
    map[NameColumn := Text("P-1"), TypeColumn := Text("Pump"), FlowrateColumn := Text("unknown"),
        PressureColumn := Num(5.0), TemperatureColumn := Num(80.0)]
  }

  /**
   * Five stored Datasets, then an upload whose Flowrate column holds text:
   * the view answers 400, yet six Datasets remain stored.
   */
  method FailedUploadOverflowsRetention() returns (response: Response, stored: nat)
    ensures response == BadRequest(ProcessingFailed)
    ensures stored == RetentionLimit + 1
  {
    var db := new Store();
    var i := 0;
    while i < RetentionLimit
      invariant 0 <= i <= RetentionLimit
      invariant db.Valid() && |db.datasets| == i
    {
      var _ := db.Create("earlier.csv", 1);
      i := i + 1;
    }
    var file := UploadedFile("broken.csv", Some(Table(RequiredColumns, [BrokenRow()])));
    assert EndsWith(file.name, CsvSuffix);
    assert MissingRequired(RequiredColumns) == [];
    AllCompleteKept([BrokenRow()]);
    assert CheckUpload(Some(file)) == Success([BrokenRow()]);
    assert Summarize([BrokenRow()]) == None by { assert !Numeric([BrokenRow()][0]); }
    response := Upload(db, Some(file));
    stored := |db.datasets|;
  }

  /**
   * `DatasetViewSet.list` (views.py lines 31-35): the five newest Datasets,
   * newest first; every Dataset it leaves out is older than all it returns.
   */
  method List(db: Store) returns (page: seq<DatasetRow>)
    requires db.Valid()
    ensures page == Take(db.datasets, RetentionLimit)
    ensures |page| <= RetentionLimit && NewestFirst(page)
    ensures forall d, e :: d in db.datasets && d !in page && e in page ==> Older(d, e)
  {
    page := Take(db.datasets, RetentionLimit);
    TakeNewest(db.datasets, RetentionLimit);
  }

  /**
   * The Equipment rows an upload stores agree with the summary it stores:
   * as many rows as `total_count`, every reading within its column's
   * minimum and maximum, and every type counted in the distribution.
   */
  lemma RecordsAgreeWithSummary(datasetId: nat, clean: seq<Row>)
    requires clean != []
    requires forall k :: 0 <= k < |clean| ==> Numeric(clean[k])
    ensures var s := SummaryOf(clean); var records := Records(datasetId, clean);
      && |records| == s.totalCount == TotalOf(s.typeDistribution)
      && forall k :: 0 <= k < |records| ==>
        && s.flowrate.min <= records[k].flowrate <= s.flowrate.max
        && s.pressure.min <= records[k].pressure <= s.pressure.max
        && s.temperature.min <= records[k].temperature <= s.temperature.max
        && records[k].equipmentType in s.typeDistribution
  {
    SummaryCounts(clean);
    var s := SummaryOf(clean);
    var records := Records(datasetId, clean);
    forall k | 0 <= k < |records| ensures records[k].equipmentType in s.typeDistribution {
      assert records[k].equipmentType == TypeOf(clean[k]);
    }
  }

  /**
   * Because pandas types a column as a whole, the statistics of an accepted
   * upload fail exactly when the parsed table has text in a measurement
   * column, even in a row that cleaning dropped.
   */
  lemma TextColumnFailsStatistics(file: UploadedFile)
    requires CheckUpload(Some(file)).Success?
    ensures Summarize(CheckUpload(Some(file)).value).None? <==>
      exists j :: 0 <= j < |file.content.value.rows| && HasText(file.content.value.rows[j])
  {
    var table := file.content.value;
    var rows := table.rows;
    var clean := CheckUpload(Some(file)).value;
    assert clean == DropIncomplete(rows);
    if Summarize(clean).None? {
      var k :| 0 <= k < |clean| && !Numeric(clean[k]);
      assert clean[k] in rows by { assert multiset(clean)[clean[k]] > 0; }
      var j :| 0 <= j < |rows| && rows[j] == clean[k];
      assert HasText(rows[j]);
    }
    if j :| 0 <= j < |rows| && HasText(rows[j]) {
      assert clean[0] in rows by { assert multiset(clean)[clean[0]] > 0; }
      var i :| 0 <= i < |rows| && rows[i] == clean[0];
      assert Complete(rows[i]);
      if FlowrateColumn in rows[j] && rows[j][FlowrateColumn].Text? {
        TextSpreads(table, FlowrateColumn, i, j);
      } else if PressureColumn in rows[j] && rows[j][PressureColumn].Text? {
        TextSpreads(table, PressureColumn, i, j);
      } else {
        TextSpreads(table, TemperatureColumn, i, j);
      }
      assert !Numeric(clean[0]);
    }
  }

  /**
   * Three rows, the second without a Pressure and with text in Flowrate
   * (say `10`, `unknown` and `20`): pandas reads the whole Flowrate column as
   * text, so cleaning keeps the first and the third rows and the
   * statistics still fail on them, though the text sat in the dropped row.
   */
  lemma TextFlowrateInDroppedRow(first: Row, second: Row, third: Row)
    requires Complete(first) && Complete(third)
    requires PressureColumn !in second
    requires FlowrateColumn in second && second[FlowrateColumn].Text?
    requires ColumnTyped(Table(RequiredColumns, [first, second, third]))
    ensures CheckUpload(Some(UploadedFile("readings.csv", Some(Table(RequiredColumns, [first, second, third])))))
      == Success([first, third])
    ensures first[FlowrateColumn].Text? && third[FlowrateColumn].Text?
    ensures Summarize([first, third]) == None
  {
    var rows: seq<Row> := [first, second, third];
    var table := Table(RequiredColumns, rows);
    TextSpreads(table, FlowrateColumn, 0, 1);
    TextSpreads(table, FlowrateColumn, 2, 1);
    var file := UploadedFile("readings.csv", Some(table));
    assert EndsWith(file.name, CsvSuffix) by { assert file.name == "readings" + CsvSuffix; }
    assert HasAllColumns(table);
    assert HasCompleteRow(table) by { assert Complete(table.rows[0]); }
    OneRowMissingPressure(first, second, third);
    Accepted(file);
    assert !Numeric([first, third][0]);
  }
}
