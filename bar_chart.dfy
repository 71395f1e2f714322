/**
 * The monthly bar chart of `generate_daily_frames`: `monthly_counts` maps
 * every monthly period label to the number of detections in the period, or
 * to their summed fire radiative power; the bar of the frame's own month is
 * highlighted, and every `step`-th month gets a tick label.
 */
module BarChart {
  import opened Calendar
  import opened Fires
  import opened Sequences
  import opened Periods

  datatype Interval = Monthly | Daily

  /** `weight_by`: 'count' or 'frp'. */
  datatype Weight = ByCount | ByFrp

  /** `len(month_fires)`: the detections dated within `[lo, hi]`. */
  function CountIn(fires: seq<Detection>, lo: Date, hi: Date): nat {
    if fires == [] then 0
    else CountIn(fires[..|fires| - 1], lo, hi) + (if InPeriod(fires[|fires| - 1], lo, hi) then 1 else 0)
  }

  /** `month_fires['frp'].sum()`. */
  function FrpIn(fires: seq<Detection>, lo: Date, hi: Date): real {
    if fires == [] then 0.0
    else FrpIn(fires[..|fires| - 1], lo, hi) + (if InPeriod(fires[|fires| - 1], lo, hi) then fires[|fires| - 1].frp else 0.0)
  }

  /** The bar height of a period. */
  function Value(fires: seq<Detection>, lo: Date, hi: Date, weight: Weight): real {
    if weight == ByFrp then FrpIn(fires, lo, hi) else CountIn(fires, lo, hi) as real
  }

  /** What one detection adds to a bar it falls in. */
  function Unit(f: Detection, weight: Weight): real {
    if weight == ByFrp then f.frp else 1.0
  }

  /** A Python dict: its keys in insertion order and its key-value mapping. */
  datatype Counts = Counts(keys: seq<string>, values: map<string, real>)

  /** `d[k] = v`: a new key goes to the end, an existing key keeps its place. */
  function Store(d: Counts, k: string, v: real): Counts {
    Counts(if k in d.values then d.keys else d.keys + [k], d.values[k := v])
  }

  /** The dict after one assignment per period, in period order. */
  function FillSpec(periods: seq<Period>, fires: seq<Detection>, weight: Weight): Counts {
    if periods == [] then Counts([], map[])
    else
      var p := periods[|periods| - 1];
      Store(FillSpec(periods[..|periods| - 1], fires, weight), p.name, Value(fires, p.start, p.end, weight))
  }

  /** `monthly_counts` as built before the frames are rendered; empty in daily mode. */
  function MonthlyCountsSpec(interval: Interval, periods: seq<Period>, fires: seq<Detection>, weight: Weight): Counts {
    if interval == Monthly then FillSpec(periods, fires, weight) else Counts([], map[])
  }

  /** The `monthly_counts` loops of `generate_daily_frames`. */
  method MonthlyCounts(interval: Interval, periods: seq<Period>, fires: seq<Detection>, weight: Weight)
    returns (counts: Counts)
    ensures counts == MonthlyCountsSpec(interval, periods, fires, weight)
  {
    counts := Counts([], map[]);
    if interval == Monthly && fires != [] {
      for i := 0 to |periods|
        invariant counts == FillSpec(periods[..i], fires, weight)
      {
        var p := periods[i];
        var value: real;
        if weight == ByFrp {
          value := FrpIn(fires, p.start, p.end);
        } else {
          value := CountIn(fires, p.start, p.end) as real;
        }
        assert periods[..i + 1][..i] == periods[..i];
        counts := Store(counts, p.name, value);
      }
      assert periods[..|periods|] == periods;
    } else if interval == Monthly {
      for i := 0 to |periods|
        invariant counts == FillSpec(periods[..i], fires, weight)
      {
        var p := periods[i];
        assert periods[..i + 1][..i] == periods[..i];
        counts := Store(counts, p.name, 0.0);
      }
      assert periods[..|periods|] == periods;
    }
  }

  // ---- The dict's contents -----------------------------------------------------

  function Names(periods: seq<Period>): (ns: seq<string>)
    ensures |ns| == |periods| && forall i :: 0 <= i < |periods| ==> ns[i] == periods[i].name
  {
    seq(|periods|, i requires 0 <= i < |periods| => periods[i].name)
  }

  predicate DistinctNames(periods: seq<Period>) {
    forall i, j :: 0 <= i < j < |periods| ==> periods[i].name != periods[j].name
  }

  /** Whatever the labels, the keys are the values' keys, each once, and every label is a key. */
  lemma {:induction false} FillKeys(periods: seq<Period>, fires: seq<Detection>, weight: Weight)
    ensures var d := FillSpec(periods, fires, weight);
      && NoDuplicates(d.keys)
      && (forall k :: k in d.values <==> k in d.keys)
      && (forall i :: 0 <= i < |periods| ==> periods[i].name in d.values)
    decreases |periods|
  {
    if periods != [] {
      var n := |periods| - 1;
      FillKeys(periods[..n], fires, weight);
      var prev := FillSpec(periods[..n], fires, weight);
      forall i | 0 <= i < n
        ensures periods[i].name in prev.values
      {
        assert periods[..n][i] == periods[i];
      }
    }
  }

  /**
   * With distinct labels, the keys are the labels in period order and each
   * label maps to its own period's bar height.
   */
  lemma {:induction false} FillDistinct(periods: seq<Period>, fires: seq<Detection>, weight: Weight)
    requires DistinctNames(periods)
    ensures var d := FillSpec(periods, fires, weight);
      && d.keys == Names(periods)
      && forall i :: 0 <= i < |periods| ==>
           periods[i].name in d.values && d.values[periods[i].name] == Value(fires, periods[i].start, periods[i].end, weight)
    decreases |periods|
  {
    if periods != [] {
      var n := |periods| - 1;
      var init := periods[..n];
      assert DistinctNames(init);
      FillDistinct(init, fires, weight);
      FillKeys(init, fires, weight);
      var prev := FillSpec(init, fires, weight);
      assert periods[n].name !in prev.keys by {
        forall i | 0 <= i < n
          ensures prev.keys[i] != periods[n].name
        {
          assert prev.keys[i] == init[i].name == periods[i].name;
        }
      }
      assert Names(periods) == Names(init) + [periods[n].name];
      forall i | 0 <= i < n
        ensures FillSpec(periods, fires, weight).values[periods[i].name]
             == Value(fires, periods[i].start, periods[i].end, weight)
      {
        assert init[i] == periods[i];
      }
    }
  }

  /**
   * In monthly mode the chart has one key per month, in order, each carrying
   * the month's count or FRP sum; with no detections every value is 0.
   * In daily mode the dict stays empty.
   */
  lemma MonthlyChart(startDate: Date, endDate: Date, fires: seq<Detection>, weight: Weight)
    requires ValidDate(startDate) && ValidDate(endDate)
    ensures var ps := MonthlySpec(startDate, endDate);
      var d := MonthlyCountsSpec(Monthly, ps, fires, weight);
      && d.keys == Names(ps)
      && (forall k :: k in d.values <==> k in d.keys)
      && (forall i :: 0 <= i < |ps| ==> d.values[ps[i].name] == Value(fires, ps[i].start, ps[i].end, weight))
      && (fires == [] ==> forall k :: k in d.values ==> d.values[k] == 0.0)
    ensures forall ps :: MonthlyCountsSpec(Daily, ps, fires, weight) == Counts([], map[])
  {
    var ps := MonthlySpec(startDate, endDate);
    MonthlyLabelsDistinct(startDate, endDate);
    FillDistinct(ps, fires, weight);
    FillKeys(ps, fires, weight);
    var d := FillSpec(ps, fires, weight);
    if fires == [] {
      forall k | k in d.values
        ensures d.values[k] == 0.0
      {
        var i :| 0 <= i < |d.keys| && d.keys[i] == k;
        assert k == ps[i].name;
      }
    }
  }

  // ---- The highlighted bar -------------------------------------------------------

  /** `months.index(label)` finds the frame's own bar. */
  lemma HighlightIndex(startDate: Date, endDate: Date, fires: seq<Detection>, weight: Weight, i: int)
    requires ValidDate(startDate) && ValidDate(endDate)
    requires 0 <= i < |MonthlySpec(startDate, endDate)|
    ensures var ps := MonthlySpec(startDate, endDate);
      var months := MonthlyCountsSpec(Monthly, ps, fires, weight).keys;
      ps[i].name in months && FirstIndex(months, ps[i].name) == i
  {
    var ps := MonthlySpec(startDate, endDate);
    MonthlyChart(startDate, endDate, fires, weight);
    FillKeys(ps, fires, weight);
    var months := FillSpec(ps, fires, weight).keys;
    assert months[i] == ps[i].name;
  }

  // ---- Bars add up over the range ----------------------------------------------

  /** The bar heights of `periods`, added up. */
  function Total(periods: seq<Period>, fires: seq<Detection>, weight: Weight): real {
    if periods == [] then 0.0
    else
      var p := periods[|periods| - 1];
      Total(periods[..|periods| - 1], fires, weight) + Value(fires, p.start, p.end, weight)
  }

  /** What one detection adds to all the bars together. */
  function Hits(periods: seq<Period>, f: Detection, weight: Weight): real {
    if periods == [] then 0.0
    else
      var p := periods[|periods| - 1];
      Hits(periods[..|periods| - 1], f, weight) + (if InPeriod(f, p.start, p.end) then Unit(f, weight) else 0.0)
  }

  lemma ValueAppend(fires: seq<Detection>, f: Detection, lo: Date, hi: Date, weight: Weight)
    ensures Value(fires + [f], lo, hi, weight) == Value(fires, lo, hi, weight) + (if InPeriod(f, lo, hi) then Unit(f, weight) else 0.0)
  {
    assert (fires + [f])[..|fires|] == fires;
  }

  lemma {:induction false} TotalAppend(periods: seq<Period>, fires: seq<Detection>, f: Detection, weight: Weight)
    ensures Total(periods, fires + [f], weight) == Total(periods, fires, weight) + Hits(periods, f, weight)
    decreases |periods|
  {
    if periods != [] {
      var p := periods[|periods| - 1];
      TotalAppend(periods[..|periods| - 1], fires, f, weight);
      ValueAppend(fires, f, p.start, p.end, weight);
    }
  }

  /** A detection that lies in exactly the period `c` adds its unit once. */
  lemma {:induction false} HitsOnce(periods: seq<Period>, f: Detection, weight: Weight, c: int)
    requires forall i :: 0 <= i < |periods| ==> (InPeriod(f, periods[i].start, periods[i].end) <==> i == c)
    ensures Hits(periods, f, weight) == if 0 <= c < |periods| then Unit(f, weight) else 0.0
    decreases |periods|
  {
    if periods != [] {
      var n := |periods| - 1;
      forall i | 0 <= i < n
        ensures InPeriod(f, periods[..n][i].start, periods[..n][i].end) <==> i == c
      {
        assert periods[..n][i] == periods[i];
      }
      HitsOnce(periods[..n], f, weight, c);
    }
  }

  /** A detection counts in the monthly bars exactly when it lies between the first of the start month and the end date. */
  lemma MonthlyHits(startDate: Date, endDate: Date, f: Detection, weight: Weight)
    requires ValidDate(startDate) && ValidDate(endDate) && ValidDate(f.acqDate)
    ensures Hits(MonthlySpec(startDate, endDate), f, weight)
         == if InPeriod(f, FirstOfMonth(startDate), endDate) then Unit(f, weight) else 0.0
  {
    var ps := MonthlySpec(startDate, endDate);
    var d := f.acqDate;
    if InPeriod(f, FirstOfMonth(startDate), endDate) {
      MonthlyPartition(startDate, endDate, d);
      HitsOnce(ps, f, weight, MonthIndex(d) - MonthIndex(startDate));
    } else {
      forall i | 0 <= i < |ps|
        ensures !InPeriod(f, ps[i].start, ps[i].end)
      {
        MonthlyEach(startDate, endDate, i);
        MonthOrder(FirstOfMonth(startDate), ps[i].start);
        MonthOrder(ps[i].start, d);
        MonthOrder(FirstOfMonth(startDate), d);
      }
      HitsOnce(ps, f, weight, -1);
    }
  }

  /**
   * The monthly bars add up to the count (or FRP sum) over all detections
   * from the first of the start date's month to the end date: each such
   * detection counts in exactly one bar.
   */
  lemma {:induction false} MonthlyTotal(startDate: Date, endDate: Date, fires: seq<Detection>, weight: Weight)
    requires ValidDate(startDate) && ValidDate(endDate)
    requires forall k :: 0 <= k < |fires| ==> ValidDate(fires[k].acqDate)
    ensures Total(MonthlySpec(startDate, endDate), fires, weight) == Value(fires, FirstOfMonth(startDate), endDate, weight)
    decreases |fires|
  {
    var ps := MonthlySpec(startDate, endDate);
    if fires == [] {
      ZeroTotal(ps, weight);
    } else {
      var n := |fires| - 1;
      var init, f := fires[..n], fires[n];
      assert fires == init + [f];
      MonthlyTotal(startDate, endDate, init, weight);
      TotalAppend(ps, init, f, weight);
      MonthlyHits(startDate, endDate, f, weight);
      ValueAppend(init, f, FirstOfMonth(startDate), endDate, weight);
    }
  }

  lemma {:induction false} ZeroTotal(periods: seq<Period>, weight: Weight)
    ensures Total(periods, [], weight) == 0.0
    decreases |periods|
  {
    if periods != [] {
      ZeroTotal(periods[..|periods| - 1], weight);
    }
  }

  /** The dict's values in key order, added up. */
  function SumValues(keys: seq<string>, values: map<string, real>): real
    requires forall k :: k in keys ==> k in values
  {
    if keys == [] then 0.0 else SumValues(keys[..|keys| - 1], values) + values[keys[|keys| - 1]]
  }

  lemma {:induction false} SumValuesTotal(periods: seq<Period>, d: Counts, fires: seq<Detection>, weight: Weight)
    requires d.keys == Names(periods)
    requires forall i :: 0 <= i < |periods| ==>
      periods[i].name in d.values && d.values[periods[i].name] == Value(fires, periods[i].start, periods[i].end, weight)
    ensures forall k :: k in d.keys ==> k in d.values
    ensures SumValues(d.keys, d.values) == Total(periods, fires, weight)
    decreases |periods|
  {
    if periods != [] {
      var n := |periods| - 1;
      assert Names(periods[..n]) == d.keys[..n];
      forall i | 0 <= i < n
        ensures periods[..n][i] == periods[i]
      {
      }
      SumValuesTotal(periods[..n], Counts(d.keys[..n], d.values), fires, weight);
    }
  }

  /** The bar chart as a whole shows every detection of the charted months once. */
  lemma ChartTotal(startDate: Date, endDate: Date, fires: seq<Detection>, weight: Weight)
    requires ValidDate(startDate) && ValidDate(endDate)
    requires forall k :: 0 <= k < |fires| ==> ValidDate(fires[k].acqDate)
    ensures var d := MonthlyCountsSpec(Monthly, MonthlySpec(startDate, endDate), fires, weight);
      (forall k :: k in d.keys ==> k in d.values)
      && SumValues(d.keys, d.values) == Value(fires, FirstOfMonth(startDate), endDate, weight)
  {
    var ps := MonthlySpec(startDate, endDate);
    var d := MonthlyCountsSpec(Monthly, ps, fires, weight);
    MonthlyChart(startDate, endDate, fires, weight);
    SumValuesTotal(ps, d, fires, weight);
    MonthlyTotal(startDate, endDate, fires, weight);
  }

  // ---- Tick labels ---------------------------------------------------------------

  /** Every `step`-th month gets a label: 1 up to 12 months, 2 up to 24, 3 up to 36, else 6. */
  function TickStep(months: nat): (step: nat)
    ensures step in {1, 2, 3, 6}
  {
    if months <= 12 then 1 else if months <= 24 then 2 else if months <= 36 then 3 else 6
  }

  /** `range(from, n, step)`. */
  function TickRange(from: nat, n: nat, step: nat): seq<nat>
    requires step >= 1
    decreases n - from
  {
    if from >= n then [] else [from] + TickRange(from + step, n, step)
  }

  /** The positions of `range(from, n, step)`, and how many there are. */
  lemma {:induction false} TickRangeShape(from: nat, n: nat, step: nat)
    requires step >= 1
    ensures var r := TickRange(from, n, step);
      && (forall k :: 0 <= k < |r| ==> r[k] == from + k * step && r[k] < n)
      && (from < n ==> (|r| - 1) * step < n - from <= |r| * step)
      && (from >= n ==> r == [])
    decreases n - from
  {
    if from < n {
      TickRangeShape(from + step, n, step);
      var r := TickRange(from, n, step);
      var rest := TickRange(from + step, n, step);
      forall k | 0 < k < |r|
        ensures r[k] == from + k * step
      {
        assert r[k] == rest[k - 1];
        assert from + step + (k - 1) * step == from + k * step;
      }
      if from + step < n {
        assert (|rest| - 1) * step + step == |rest| * step;
        assert |r| * step == |rest| * step + step;
      }
    }
  }

  /** The tick positions: every `step`-th bar from the first, and at most twelve labels up to 72 months. */
  lemma TickPositions(months: nat)
    ensures var step := TickStep(months);
      var ticks := TickRange(0, months, step);
      && (forall k :: 0 <= k < |ticks| ==> ticks[k] == k * step && ticks[k] < months)
      && (months > 0 ==> ticks[0] == 0 && ticks[|ticks| - 1] + step >= months)
      && (months <= 72 ==> |ticks| <= 12)
  {
    var step := TickStep(months);
    var ticks := TickRange(0, months, step);
    TickRangeShape(0, months, step);
    if months > 0 {
      var m := |ticks| - 1;
      assert ticks[m] == m * step;
      assert m * step + step == |ticks| * step;
    }
  }
}
