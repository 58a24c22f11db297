/**
 * The two stored entities (backend/chemical_equipment/equipment/models.py):
 * a Dataset row per upload, owning one Equipment row per cleaned CSV row.
 * `Dataset` is also modelled as the in-memory model instance the upload
 * view creates and then updates before saving it again.
 */
module Models {
  import opened Csv
  import opened Seqs
  import opened Summaries

  /**
   * The `summary_data` text field. `Json(s)` is the text `json.dumps(s)`
   * wrote (the encoding is abstract and injective); `Stored(text)` is any
   * other text, such as the blank default of a row created without one.
   */
  datatype SummaryText = Stored(text: string) | Json(summary: Summary)

  /** `get_summary_data` on a stored text: the summary it encodes, or `None` for the empty mapping `{}`. */
  function DecodeSummary(t: SummaryText): (r: Option<Summary>)
    ensures forall s :: r == Some(s) <==> t == Json(s)
  {
    match t
    case Json(s) => Some(s)
    case Stored(_) => None
  }

  /** A row of the Dataset table. */
  datatype DatasetRow = DatasetRow(
    id: nat,
    filename: string,
    uploadedAt: nat,
    totalRecords: int,
    summaryData: SummaryText)

  /** A row of the Equipment table; `datasetId` is its foreign key to the owning Dataset. */
  datatype EquipmentRow = EquipmentRow(
    datasetId: nat,
    name: Cell,
    equipmentType: Cell,
    flowrate: real,
    pressure: real,
    temperature: real)

  /** The Equipment row the upload view builds from one cleaned CSV row. */
  function RecordOf(datasetId: nat, row: Row): (e: EquipmentRow)
    requires Numeric(row)
  {
    EquipmentRow(datasetId, NameOf(row), TypeOf(row),
      Reading(row, FlowrateColumn), Reading(row, PressureColumn), Reading(row, TemperatureColumn))
  }

  /** One Equipment row per cleaned row, in row order. */
  function Records(datasetId: nat, rows: seq<Row>): seq<EquipmentRow>
    requires forall k :: 0 <= k < |rows| ==> Numeric(rows[k])
  {
    seq(|rows|, k requires 0 <= k < |rows| => RecordOf(datasetId, rows[k]))
  }

  /**
   * The in-memory Dataset instance. An instance that has not been saved
   * yet has `id` 0 and `uploadedAt` 0 (Django leaves both unset).
   */
  class Dataset {
    var id: nat
    var filename: string
    var uploadedAt: nat
    var totalRecords: int
    var summaryData: SummaryText

    /** `Dataset(filename=...)`: every other field takes its declared default. */
    constructor (filename: string)
      ensures this.filename == filename
      ensures totalRecords == 0 && summaryData == Stored("")
      ensures id == 0 && uploadedAt == 0
    {
      this.filename := filename;
      id, uploadedAt, totalRecords := 0, 0, 0;
      summaryData := Stored("");
    }

    /** The values `save()` writes to this instance's row. */
    function AsRow(): DatasetRow
      reads this
    {
      DatasetRow(id, filename, uploadedAt, totalRecords, summaryData)
    }

    /** `get_summary_data()`: the summary the stored text encodes, if it encodes one. */
    function GetSummaryData(): (r: Option<Summary>)
      reads this
      ensures forall s :: r == Some(s) <==> summaryData == Json(s)
    {
      DecodeSummary(summaryData)
    }

    /** Stores the encoded summary; no other field changes. */
    method SetSummaryData(data: Summary)
      modifies this`summaryData
      ensures summaryData == Json(data)
      ensures GetSummaryData() == Some(data)
    {
      summaryData := Json(data);
    }
  }

  /** `UPDATE dataset SET ... WHERE id = row.id`: each row with that key becomes `row`. */
  function Replace(ds: seq<DatasetRow>, row: DatasetRow): (r: seq<DatasetRow>)
    ensures |r| == |ds|
    ensures forall k :: 0 <= k < |ds| ==> r[k] == if ds[k].id == row.id then row else ds[k]
  {
    seq(|ds|, k requires 0 <= k < |ds| => if ds[k].id == row.id then row else ds[k])
  }

  /** The primary keys of a list of Dataset rows. */
  function Ids(ds: seq<DatasetRow>): set<nat>
  {
    set d | d in ds :: d.id
  }

  /**
   * `ordering = ['-uploaded_at']`: the newest row first. Ids grow with the
   * upload time, since both are assigned when a row is inserted.
   */
  ghost predicate NewestFirst(ds: seq<DatasetRow>)
  {
    forall i, j :: 0 <= i < j < |ds| ==> Older(ds[j], ds[i])
  }

  /** `DELETE FROM dataset WHERE id = id`: every other row, in order. */
  function RemoveById(ds: seq<DatasetRow>, id: nat): (r: seq<DatasetRow>)
    ensures forall d :: d in r <==> d in ds && d.id != id
  {
    if ds == [] then []
    else
      assert ds == [ds[0]] + ds[1..];
      var rest := RemoveById(ds[1..], id);
      if ds[0].id == id then rest else [ds[0]] + rest
  }

  /**
   * The first `n` rows of a newest-first list are the `n` newest: every row
   * left out is older than every row kept, and the kept rows stay in order.
   */
  lemma TakeNewest(ds: seq<DatasetRow>, n: nat)
    requires NewestFirst(ds)
    ensures NewestFirst(Take(ds, n))
    ensures forall d, e :: d in ds && d !in Take(ds, n) && e in Take(ds, n) ==> Older(d, e)
  {
    var t := Take(ds, n);
    assert forall i :: 0 <= i < |t| ==> t[i] in t;
    forall d, e | d in ds && d !in t && e in t ensures Older(d, e) {
      var j :| 0 <= j < |ds| && ds[j] == d;
      var m :| 0 <= m < |t| && t[m] == e;
      assert t[m] == ds[m];
    }
  }

  /** Deleting rows keeps the others newest-first. */
  lemma {:induction false} RemoveKeepsOrder(ds: seq<DatasetRow>, id: nat)
    requires NewestFirst(ds)
    ensures NewestFirst(RemoveById(ds, id))
  {
    if ds != [] {
      var tail := ds[1..];
      RemoveKeepsOrder(tail, id);
      var rest := RemoveById(tail, id);
      if ds[0].id != id {
        forall k | 0 <= k < |rest| ensures Older(rest[k], ds[0]) {
          assert rest[k] in tail;
          var m :| 0 <= m < |tail| && tail[m] == rest[k];
          assert ds[m + 1] == rest[k];
        }
        PrependNewest(ds[0], rest);
      }
    }
  }

  /** `d` was uploaded before `e`. */
  predicate Older(d: DatasetRow, e: DatasetRow)
  {
    d.uploadedAt < e.uploadedAt && d.id < e.id
  }

  /** A row newer than every row of a newest-first list may go in front of it. */
  lemma PrependNewest(d: DatasetRow, ds: seq<DatasetRow>)
    requires NewestFirst(ds)
    requires forall k :: 0 <= k < |ds| ==> Older(ds[k], d)
    ensures NewestFirst([d] + ds)
  {
    var r := [d] + ds;
    forall i, j | 0 <= i < j < |r| ensures Older(r[j], r[i]) {
      if i == 0 {
        assert r[j] == ds[j - 1];
      } else {
        assert r[i] == ds[i - 1] && r[j] == ds[j - 1];
      }
    }
  }

  /** Deleting by id removes exactly that id from the stored ids. */
  lemma RemoveIds(ds: seq<DatasetRow>, id: nat)
    ensures Ids(RemoveById(ds, id)) == Ids(ds) - {id}
  {
    var r := RemoveById(ds, id);
    forall x ensures x in Ids(r) <==> x in Ids(ds) - {id} {
      if x in Ids(ds) - {id} {
        var d :| d in ds && d.id == x;
        assert d in r;
      }
    }
  }

  /** With ids in decreasing order, deleting by the id at index `k` removes exactly that row. */
  lemma {:induction false} RemoveByIdAt(ds: seq<DatasetRow>, k: nat)
    requires NewestFirst(ds) && k < |ds|
    ensures RemoveById(ds, ds[k].id) == ds[..k] + ds[k + 1..]
  {
    var tail := ds[1..];
    if k == 0 {
      forall m | 0 <= m < |tail| ensures tail[m].id != ds[0].id {
        assert Older(ds[m + 1], ds[0]);
      }
      RemoveAbsent(tail, ds[0].id);
    } else {
      assert NewestFirst(tail) by {
        forall i, j | 0 <= i < j < |tail| ensures Older(tail[j], tail[i]) {
          assert Older(ds[j + 1], ds[i + 1]);
        }
      }
      assert Older(ds[k], ds[0]);
      assert tail[k - 1] == ds[k];
      RemoveByIdAt(tail, k - 1);
      assert RemoveById(ds, ds[k].id) == [ds[0]] + RemoveById(tail, ds[k].id);
      assert tail[..k - 1] == ds[1..k];
      assert tail[k..] == ds[k + 1..];
      assert ds[..k] == [ds[0]] + ds[1..k];
    }
  }

  /** Saving the newest row again, under its own key, changes that row alone. */
  lemma ReplaceNewest(ds: seq<DatasetRow>, row: DatasetRow)
    requires NewestFirst(ds) && ds != [] && ds[0].id == row.id
    ensures Replace(ds, row) == [row] + ds[1..]
  {
    var r := Replace(ds, row);
    forall k | 1 <= k < |ds| ensures r[k] == ds[k] {
      assert Older(ds[k], ds[0]);
    }
  }

  /** Deleting the first row after a prefix, by its key, leaves the prefix and the rest. */
  lemma RemoveAfter(kept: seq<DatasetRow>, rest: seq<DatasetRow>)
    requires NewestFirst(kept + rest) && rest != []
    ensures RemoveById(kept + rest, rest[0].id) == kept + rest[1..]
  {
    var ds := kept + rest;
    RemoveByIdAt(ds, |kept|);
    assert ds[|kept|] == rest[0];
    assert ds[..|kept|] == kept;
    assert ds[|kept| + 1..] == rest[1..];
  }

  /** Deleting an id no row has changes nothing. */
  lemma {:induction false} RemoveAbsent(ds: seq<DatasetRow>, id: nat)
    requires forall k :: 0 <= k < |ds| ==> ds[k].id != id
    ensures RemoveById(ds, id) == ds
  {
    if ds != [] {
      RemoveAbsent(ds[1..], id);
    }
  }

  /**
   * The Equipment rows whose Dataset is one of `ids`, in order: what the
   * cascade of `on_delete=models.CASCADE` leaves behind.
   */
  function KeepOwned(es: seq<EquipmentRow>, ids: set<nat>): (r: seq<EquipmentRow>)
    ensures forall k :: 0 <= k < |r| ==> r[k].datasetId in ids
    ensures forall e :: multiset(r)[e] == if e.datasetId in ids then multiset(es)[e] else 0
    ensures SubsequenceOf(r, es)
  {
    if es == [] then []
    else
      assert es == [es[0]] + es[1..];
      var rest := KeepOwned(es[1..], ids);
      if es[0].datasetId in ids then [es[0]] + rest else rest
  }

  /** Keeping the rows of every Dataset that owns one changes nothing. */
  lemma {:induction false} KeepOwnedAll(es: seq<EquipmentRow>, ids: set<nat>)
    requires forall k :: 0 <= k < |es| ==> es[k].datasetId in ids
    ensures KeepOwned(es, ids) == es
  {
    if es != [] {
      KeepOwnedAll(es[1..], ids);
    }
  }

  /** Cascading twice is cascading once to the smaller set of Datasets. */
  lemma {:induction false} KeepOwnedTwice(es: seq<EquipmentRow>, outer: set<nat>, inner: set<nat>)
    requires inner <= outer
    ensures KeepOwned(KeepOwned(es, outer), inner) == KeepOwned(es, inner)
  {
    if es != [] {
      KeepOwnedTwice(es[1..], outer, inner);
    }
  }
}
