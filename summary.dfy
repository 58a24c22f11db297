/**
 * The summary the upload view computes over the cleaned rows
 * (backend/chemical_equipment/equipment/views.py, lines 89-101): the record
 * count, the mean, minimum and maximum of each measurement, and how many
 * rows there are of each equipment type.
 */
module Summaries {
  import opened Csv
  import opened Stats

  /** `avg_<field>`, `min_<field>` and `max_<field>` of one measurement. */
  datatype FieldStats = FieldStats(avg: real, min: real, max: real)

  datatype Summary = Summary(
    totalCount: nat,
    flowrate: FieldStats,
    pressure: FieldStats,
    temperature: FieldStats,
    typeDistribution: map<Cell, nat>)

  /** The numbers of one measurement column, row by row. */
  function Column(rows: seq<Row>, column: string): (xs: seq<real>)
    requires column in Measurements
    requires forall k :: 0 <= k < |rows| ==> Numeric(rows[k])
    ensures |xs| == |rows|
    ensures forall k :: 0 <= k < |rows| ==> xs[k] == Reading(rows[k], column)
  {
    seq(|rows|, k requires 0 <= k < |rows| => Reading(rows[k], column))
  }

  /** The `Type` cell of each row, in row order. */
  function Types(rows: seq<Row>): (ts: seq<Cell>)
    requires forall k :: 0 <= k < |rows| ==> Complete(rows[k])
    ensures |ts| == |rows|
    ensures forall k :: 0 <= k < |rows| ==> ts[k] == TypeOf(rows[k])
  {
    seq(|rows|, k requires 0 <= k < |rows| => TypeOf(rows[k]))
  }

  /** Mean, minimum and maximum of a non-empty column. */
  function StatsOf(xs: seq<real>): (s: FieldStats)
    requires xs != []
    ensures s.min in xs && s.max in xs
    ensures forall k :: 0 <= k < |xs| ==> s.min <= xs[k] <= s.max
    ensures s.min <= s.avg <= s.max
    ensures s.avg == Sum(xs) / |xs| as real
  {
    MeanBetween(xs);
    FieldStats(Mean(xs), Min(xs), Max(xs))
  }

  /** Adds one occurrence of `t` to a count table. */
  function Increment(d: map<Cell, nat>, t: Cell): map<Cell, nat>
  {
    d[t := if t in d then d[t] + 1 else 1]
  }

  /**
   * `value_counts().to_dict()` on the Type column: one entry per distinct
   * value (exact match), holding how many times it occurs.
   */
  function Distribution(types: seq<Cell>): (d: map<Cell, nat>)
    ensures forall t :: t in d <==> t in types
    ensures forall t :: t in d ==> d[t] == multiset(types)[t]
  {
    if types == [] then map[]
    else
      var init, last := types[..|types| - 1], types[|types| - 1];
      assert types == init + [last];
      Increment(Distribution(init), last)
  }

  /** The sum of the counts over a set of keys. */
  ghost function SumOver(d: map<Cell, nat>, keys: set<Cell>): nat
    requires keys <= d.Keys
    decreases keys
  {
    if keys == {} then 0
    else
      var t :| t in keys;
      d[t] + SumOver(d, keys - {t})
  }

  /** The sum of all the counts of a distribution. */
  ghost function TotalOf(d: map<Cell, nat>): nat
  {
    SumOver(d, d.Keys)
  }

  /** The sum over a set of keys may single out any one of them. */
  lemma {:induction false} SumOverRemove(d: map<Cell, nat>, keys: set<Cell>, t: Cell)
    requires keys <= d.Keys && t in keys
    ensures SumOver(d, keys) == d[t] + SumOver(d, keys - {t})
    decreases keys
  {
    var u :| u in keys && SumOver(d, keys) == d[u] + SumOver(d, keys - {u});
    if u != t {
      SumOverRemove(d, keys - {u}, t);
      SumOverRemove(d, keys - {t}, u);
      assert keys - {u} - {t} == keys - {t} - {u};
    }
  }

  /** The sum over a set of keys depends only on the counts of those keys. */
  lemma {:induction false} SumOverAgree(d: map<Cell, nat>, e: map<Cell, nat>, keys: set<Cell>)
    requires keys <= d.Keys && keys <= e.Keys
    requires forall t :: t in keys ==> d[t] == e[t]
    ensures SumOver(d, keys) == SumOver(e, keys)
    decreases keys
  {
    if keys != {} {
      var t :| t in keys;
      SumOverRemove(d, keys, t);
      SumOverRemove(e, keys, t);
      SumOverAgree(d, e, keys - {t});
    }
  }

  /** Counting one more occurrence raises the total by one. */
  lemma IncrementTotal(d: map<Cell, nat>, t: Cell)
    ensures TotalOf(Increment(d, t)) == TotalOf(d) + 1
  {
    var e := Increment(d, t);
    if t in d {
      assert e.Keys == d.Keys;
      SumOverRemove(e, e.Keys, t);
      SumOverRemove(d, d.Keys, t);
      SumOverAgree(d, e, d.Keys - {t});
    } else {
      assert e.Keys - {t} == d.Keys;
      SumOverRemove(e, e.Keys, t);
      SumOverAgree(d, e, d.Keys);
    }
  }

  /** The counts of a distribution add up to the number of values counted. */
  lemma {:induction false} DistributionTotal(types: seq<Cell>)
    ensures TotalOf(Distribution(types)) == |types|
  {
    if types != [] {
      var init := types[..|types| - 1];
      DistributionTotal(init);
      IncrementTotal(Distribution(init), types[|types| - 1]);
    }
  }

  /** The summary dict of views.py lines 89-101 over rows whose measurements are all numbers. */
  function SummaryOf(rows: seq<Row>): (s: Summary)
    requires rows != []
    requires forall k :: 0 <= k < |rows| ==> Numeric(rows[k])
    ensures s.totalCount == |rows|
    ensures forall k :: 0 <= k < |rows| ==>
      && s.flowrate.min <= Reading(rows[k], FlowrateColumn) <= s.flowrate.max
      && s.pressure.min <= Reading(rows[k], PressureColumn) <= s.pressure.max
      && s.temperature.min <= Reading(rows[k], TemperatureColumn) <= s.temperature.max
    ensures && s.flowrate.min in Column(rows, FlowrateColumn) && s.flowrate.max in Column(rows, FlowrateColumn)
            && s.pressure.min in Column(rows, PressureColumn) && s.pressure.max in Column(rows, PressureColumn)
            && s.temperature.min in Column(rows, TemperatureColumn) && s.temperature.max in Column(rows, TemperatureColumn)
    ensures && s.flowrate.avg == Sum(Column(rows, FlowrateColumn)) / |rows| as real
            && s.pressure.avg == Sum(Column(rows, PressureColumn)) / |rows| as real
            && s.temperature.avg == Sum(Column(rows, TemperatureColumn)) / |rows| as real
    ensures && s.flowrate.min <= s.flowrate.avg <= s.flowrate.max
            && s.pressure.min <= s.pressure.avg <= s.pressure.max
            && s.temperature.min <= s.temperature.avg <= s.temperature.max
    ensures forall t :: t in s.typeDistribution <==> exists k :: 0 <= k < |rows| && TypeOf(rows[k]) == t
    ensures forall t :: t in s.typeDistribution ==> s.typeDistribution[t] == multiset(Types(rows))[t]
  {
    NumericComplete(rows);
    var types := Types(rows);
    assert forall t :: t in types <==> exists k :: 0 <= k < |rows| && TypeOf(rows[k]) == t by {
      forall t ensures t in types ==> exists k :: 0 <= k < |rows| && TypeOf(rows[k]) == t {
        if t in types {
          var k :| 0 <= k < |types| && types[k] == t;
          assert TypeOf(rows[k]) == t;
        }
      }
    }
    Summary(
      |rows|,
      StatsOf(Column(rows, FlowrateColumn)),
      StatsOf(Column(rows, PressureColumn)),
      StatsOf(Column(rows, TemperatureColumn)),
      Distribution(types))
  }

  /**
   * Views.py lines 89-101: the summary, or `None` when pandas raises
   * because a measurement column holds text (pandas 2.0 and later).
   */
  function Summarize(rows: seq<Row>): (r: Option<Summary>)
    requires rows != []
    requires forall k :: 0 <= k < |rows| ==> Complete(rows[k])
    ensures r.None? <==> exists k :: 0 <= k < |rows| && !Numeric(rows[k])
    ensures r.Some? ==> (forall k :: 0 <= k < |rows| ==> Numeric(rows[k])) && r.value == SummaryOf(rows)
  {
    if forall k | 0 <= k < |rows| :: Numeric(rows[k]) then Some(SummaryOf(rows)) else None
  }

  /** Each value's count is the number of rows of that type, and the counts add up to `total_count`. */
  lemma {:induction false} SummaryCounts(rows: seq<Row>)
    requires rows != []
    requires forall k :: 0 <= k < |rows| ==> Numeric(rows[k])
    ensures TotalOf(SummaryOf(rows).typeDistribution) == SummaryOf(rows).totalCount == |rows|
  {
    DistributionTotal(Types(rows));
  }

  /** Rows typed Pump, Valve, Pump give the distribution {Pump: 2, Valve: 1}. */
  lemma PumpsAndValve()
    ensures Distribution([Text("Pump"), Text("Valve"), Text("Pump")]) == map[Text("Pump") := 2, Text("Valve") := 1]
  {
    var ts := [Text("Pump"), Text("Valve"), Text("Pump")];
    assert ts[..2] == [Text("Pump"), Text("Valve")] && ts[..2][..1] == [Text("Pump")] && ts[..2][..1][..0] == [];
  }
}
