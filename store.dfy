/**
 * The database behind `Dataset.objects` and `Equipment.objects`, as one
 * sequential store: the Dataset rows newest-first (models.py line 16), the
 * Equipment rows, and the counters that stand in for the `uploaded_at`
 * timestamp and the auto-incremented primary key.
 */
module Database {
  import opened Csv
  import opened Models

  class Store {
    /** `Dataset.objects.all()`, newest first. */
    var datasets: seq<DatasetRow>
    /** Every Equipment row, in insertion order. */
    var equipment: seq<EquipmentRow>
    /** Strictly increasing stand-in for `auto_now_add` timestamps. */
    var clock: nat
    /** The next primary key to assign. */
    var nextId: nat

    /**
     * Rows are ordered newest first, every stamp and key was handed out
     * before, and every Equipment row's Dataset exists (the foreign key).
     */
    ghost predicate Valid()
      reads this
    {
      && NewestFirst(datasets)
      && (forall k :: 0 <= k < |datasets| ==> datasets[k].uploadedAt < clock && datasets[k].id < nextId)
      && (forall k :: 0 <= k < |equipment| ==> equipment[k].datasetId in Ids(datasets))
    }

    constructor ()
      ensures Valid()
      ensures datasets == [] && equipment == []
    {
      datasets, equipment := [], [];
      clock, nextId := 0, 0;
    }

    /**
     * `Dataset.objects.create(filename=..., total_records=...)`: builds the
     * instance, stamps it, and inserts its row, which is then the newest.
     */
    method Create(filename: string, totalRecords: int) returns (d: Dataset)
      requires Valid()
      modifies this
      ensures Valid() && fresh(d)
      ensures d.AsRow() == DatasetRow(old(nextId), filename, old(clock), totalRecords, Stored(""))
      ensures datasets == [d.AsRow()] + old(datasets)
      ensures equipment == old(equipment)
      ensures forall k :: 0 <= k < |old(datasets)| ==> Older(old(datasets)[k], d.AsRow())
    {
      d := new Dataset(filename);
      d.totalRecords := totalRecords;
      d.id, d.uploadedAt := nextId, clock;
      PrependNewest(d.AsRow(), datasets);
      datasets := [d.AsRow()] + datasets;
      clock, nextId := clock + 1, nextId + 1;
      forall k | 0 <= k < |equipment| ensures equipment[k].datasetId in Ids(datasets) {
        var x := equipment[k].datasetId;
        var e :| e in old(datasets) && e.id == x;
        assert e in datasets;
      }
    }

    /** `dataset.save()` on an instance whose row exists: that row takes the instance's values. */
    method Save(d: Dataset)
      requires Valid()
      requires d.id in Ids(datasets)
      requires forall k :: 0 <= k < |datasets| && datasets[k].id == d.id ==> datasets[k].uploadedAt == d.uploadedAt
      modifies this`datasets
      ensures Valid()
      ensures datasets == Replace(old(datasets), d.AsRow())
      ensures Ids(datasets) == Ids(old(datasets))
    {
      var rows := datasets;
      datasets := Replace(rows, d.AsRow());
      assert forall k :: 0 <= k < |rows| ==> datasets[k].id == rows[k].id && datasets[k].uploadedAt == rows[k].uploadedAt;
      forall x ensures x in Ids(datasets) <==> x in Ids(rows) {
        if x in Ids(rows) {
          var e :| e in rows && e.id == x;
          var k :| 0 <= k < |rows| && rows[k] == e;
          assert datasets[k].id == x;
        }
        if x in Ids(datasets) {
          var e :| e in datasets && e.id == x;
          var k :| 0 <= k < |datasets| && datasets[k] == e;
          assert rows[k].id == x;
        }
      }
    }

    /** `Equipment.objects.bulk_create(records)` for records whose Dataset exists. */
    method BulkCreate(records: seq<EquipmentRow>)
      requires Valid()
      requires forall k :: 0 <= k < |records| ==> records[k].datasetId in Ids(datasets)
      modifies this`equipment
      ensures Valid()
      ensures equipment == old(equipment) + records
    {
      equipment := equipment + records;
    }

    /**
     * `dataset.delete()`: removes the Dataset row with that key and, by the
     * cascade of models.py line 38, every Equipment row it owns and no other.
     */
    method Delete(id: nat)
      requires Valid()
      modifies this`datasets, this`equipment
      ensures Valid()
      ensures datasets == RemoveById(old(datasets), id)
      ensures Ids(datasets) == Ids(old(datasets)) - {id}
      ensures equipment == KeepOwned(old(equipment), Ids(datasets))
      ensures forall e :: multiset(equipment)[e] == if e.datasetId == id then 0 else multiset(old(equipment))[e]
    {
      RemoveKeepsOrder(datasets, id);
      RemoveIds(datasets, id);
      var survivors := RemoveById(datasets, id);
      var kept := KeepOwned(equipment, Ids(survivors));
      forall e: EquipmentRow ensures multiset(kept)[e] == if e.datasetId == id then 0 else multiset(equipment)[e] {
        if e in equipment {
          var k :| 0 <= k < |equipment| && equipment[k] == e;
          assert e.datasetId in Ids(datasets);
        }
      }
      forall d | d in survivors ensures d.uploadedAt < clock && d.id < nextId {
        var k :| 0 <= k < |datasets| && datasets[k] == d;
      }
      datasets, equipment := survivors, kept;
    }
  }
}
