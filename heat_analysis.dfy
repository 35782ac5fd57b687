/** The per-council statistics of the Paris heat-sensitivity analysis: the LCZ polygons of positive
    weight give the weighted mean, median, mode and standard deviation of the 0-5 sensitivity
    score, and the deltas are taken from the mode. Unlike the rent-control analysis the standard
    deviation has no guard, so a council covered by a single polygon gets NaN. */
module HeatSensitivityAnalysis {
  import opened Common
  import opened Sums
  import opened Tables
  import opened Geometry
  import opened Overlay
  import opened WeightedStats
  import opened HeatSensitivity

  /** `numerator / denominator` without a guard: a zero denominator gives NaN (`None`). */
  function UnguardedVariance(s: seq<Item>, mean: real): (v: Option<real>)
    requires s != [] && forall k :: 0 <= k < |s| ==> s[k].weight > 0.0
    ensures v.None? <==> |s| == 1
    ensures v.Some? ==> v.value >= 0.0 && v.value * Denominator(s) == SquaredDeviation(s, mean)
  {
    DenominatorOfPositive(s);
    var den := Denominator(s);
    if den == 0.0 then None
    else
      DivTimes(SquaredDeviation(s, mean), den);
      Some(SquaredDeviation(s, mean) / den)
  }

  /** The statistics of a council whose lookups succeed, from its weights and the `sns_int`
      column. */
  function Row(w: seq<real>, sns: seq<real>): (r: Summary)
    requires |w| == |sns| && Computable(w, sns)
    ensures |r.cutoffDeltas| == |CUTOFFS|
    ensures r.variance.Some? ==> r.variance.value >= 0.0
  {
    var items := Zip(sns, w);
    LookupsSucceed(items, 0.0);
    var s := SortedPositive(items);
    var mean := WeightedSum(Select(items, HasWeight));
    var mode := Mode(s).value;
    LookupsSucceed(items, mode);
    var median := Percentile(items, 0.5).value;
    var deltas := Shift(s, mode);
    Summary(mean, median, mode, UnguardedVariance(s, mean), WeightedSum(deltas),
            median - mode, Mode(deltas).value, PercentileDeltas(items, CUTOFFS, mode).value)
  }

  /** The statistics of one council from its `geo_weight` column (`None` when every weight is
      NaN); an empty positive-weight subset or an unreached cutoff makes `.iloc[0]` raise
      IndexError. */
  function Summarize(weights: Option<seq<real>>, sns: seq<real>): (r: Result<Summary>)
    requires weights.Some? ==> |weights.value| == |sns|
    ensures r.Ok? <==> weights.Some? && Computable(weights.value, sns)
    ensures r.Ok? ==> r.value == Row(weights.value, sns)
    ensures r.Err? ==> r.error == IndexError
  {
    if weights.Some? && Computable(weights.value, sns) then Ok(Row(weights.value, sns))
    else Err(IndexError)
  }

  /** The `sns_int` column of the LCZ table. */
  function SnsColumn(zones: seq<Zone>): (r: seq<real>)
    ensures |r| == |zones|
    ensures forall i :: 0 <= i < |zones| ==> 0.0 <= r[i] <= 5.0
  {
    seq(|zones|, i requires 0 <= i < |zones| => SnsInt(zones[i].lcz))
  }

  /** A council overlapping some LCZ polygon always gets its statistics; one overlapping none
      raises IndexError. */
  lemma SummarizeDefined(areas: seq<real>, sns: seq<real>)
    requires NonNegative(areas) && |areas| == |sns|
    ensures Summarize(Normalize(areas), sns).Ok? <==> exists i :: 0 <= i < |areas| && areas[i] > 0.0
  {
    var weights := Normalize(areas);
    if weights.Some? {
      NormalisedItems(weights.value, sns);
      PercentileDefined(Zip(sns, weights.value), 1.0);
    }
  }

  /** With normalised weights the mean over the positive-weight subset is the weighted mean over
      all polygons, and it lies between the bounds of the scores there. */
  lemma RowMeanBounds(w: seq<real>, sns: seq<real>, lo: real, hi: real)
    requires |w| == |sns| && NormalisedRow(w) && Computable(w, sns)
    requires forall i :: 0 <= i < |w| && w[i] > 0.0 ==> lo <= sns[i] <= hi
    ensures Row(w, sns).mean == Dot(w, sns)
    ensures lo <= Row(w, sns).mean <= hi
  {
    DotBounds(w, sns, lo, hi);
    var d := Dot(w, sns);
    assert lo <= d <= hi by {
      assert lo * Sum(w) == lo && hi * Sum(w) == hi;
    }
    RowMean(w, sns);
    NormalisedItems(w, sns);
  }

  lemma RowMean(w: seq<real>, sns: seq<real>)
    requires |w| == |sns| && Computable(w, sns)
    ensures Row(w, sns).mean == WeightedSum(Select(Zip(sns, w), HasWeight))
  {
  }

  /** The mean score of a council is on the 0-5 scale. */
  lemma RowMeanScale(target: Region, zones: seq<Zone>)
    requires Summarize(Weights(target, Shapes(zones)), SnsColumn(zones)).Ok?
    ensures 0.0 <= Summarize(Weights(target, Shapes(zones)), SnsColumn(zones)).value.mean <= 5.0
  {
    RowMeanBounds(Weights(target, Shapes(zones)).value, SnsColumn(zones), 0.0, 5.0);
  }

  /** The median is the score of a polygon of positive weight and the mode is a weighted mode of
      the positive-weight subset. */
  lemma RowMedianMode(w: seq<real>, sns: seq<real>)
    requires |w| == |sns| && Computable(w, sns)
    ensures exists k :: 0 <= k < |sns| && w[k] > 0.0 && sns[k] == Row(w, sns).median
    ensures IsMode(SortedPositive(Zip(sns, w)), Row(w, sns).mode)
  {
    var items := Zip(sns, w);
    var k :| 0 <= k < |items| && items[k].weight > 0.0 && items[k].value == Row(w, sns).median;
    assert items[k] == Item(sns[k], w[k]);
  }

  /** The deltas are taken from the mode: the mode of the deltas is 0, the median delta is the
      median minus the mode and, with normalised weights, the mean delta is the mean minus the
      mode. */
  lemma RowDeltas(w: seq<real>, sns: seq<real>)
    requires |w| == |sns| && Computable(w, sns)
    ensures Row(w, sns).modeDelta == 0.0
    ensures Row(w, sns).medianDelta == Row(w, sns).median - Row(w, sns).mode
    ensures NormalisedRow(w) ==> Row(w, sns).meanDelta == Row(w, sns).mean - Row(w, sns).mode
  {
    var items := Zip(sns, w);
    LookupsSucceed(items, 0.0);
    var s := SortedPositive(items);
    var mode := Mode(s).value;
    ModeShift(s, mode);
    if NormalisedRow(w) {
      NormalisedItems(w, sns);
      ShiftedStatistics(s, mode);
    }
  }

  lemma RowCutoffDeltas(w: seq<real>, sns: seq<real>)
    requires |w| == |sns| && Computable(w, sns)
    ensures PercentileDeltas(Zip(sns, w), CUTOFFS, Row(w, sns).mode).Some?
    ensures Row(w, sns).cutoffDeltas == PercentileDeltas(Zip(sns, w), CUTOFFS, Row(w, sns).mode).value
  {
    LookupsSucceed(Zip(sns, w), Row(w, sns).mode);
  }

  /** The seven cutoff deltas are non-decreasing. */
  lemma RowCutoffsMonotone(w: seq<real>, sns: seq<real>)
    requires |w| == |sns| && Computable(w, sns)
    ensures forall i, j :: 0 <= i <= j < |CUTOFFS| ==> Row(w, sns).cutoffDeltas[i] <= Row(w, sns).cutoffDeltas[j]
  {
    RowCutoffDeltas(w, sns);
    CutoffsAscending();
    PercentileDeltasSorted(Zip(sns, w), CUTOFFS, Row(w, sns).mode);
  }

  /** Each cutoff delta is a value of the delta series: the score of a polygon of positive weight
      minus the mode. */
  lemma RowCutoffsAreDeltas(w: seq<real>, sns: seq<real>, i: nat)
    requires |w| == |sns| && Computable(w, sns) && i < |CUTOFFS|
    ensures exists k :: 0 <= k < |sns| && w[k] > 0.0 && Row(w, sns).cutoffDeltas[i] == sns[k] - Row(w, sns).mode
  {
    RowCutoffDeltas(w, sns);
    ZipPercentileDelta(sns, w, CUTOFFS, Row(w, sns).mode, i);
  }

  /** The standard deviation is NaN exactly when a single polygon has positive weight. */
  lemma RowVarianceUndefined(w: seq<real>, sns: seq<real>)
    requires |w| == |sns| && Computable(w, sns)
    ensures Row(w, sns).variance.None? <==> |SortedPositive(Zip(sns, w))| == 1
  {
    LookupsSucceed(Zip(sns, w), 0.0);
  }

  /** `for cq in gdf_cq.index`: the weights of each council over the LCZ polygons, then one row of
      statistics per council in index order; the first council whose lookups raise stops the
      loop with IndexError. */
  method SummarizeAll(targets: seq<Region>, zones: seq<Zone>) returns (r: Result<seq<Summary>>)
    ensures r.Ok? <==> forall k :: 0 <= k < |targets| ==> Summarize(Weights(targets[k], Shapes(zones)), SnsColumn(zones)).Ok?
    ensures r.Ok? ==> |r.value| == |targets|
    ensures r.Ok? ==> forall k :: 0 <= k < |targets| ==> Summarize(Weights(targets[k], Shapes(zones)), SnsColumn(zones)) == Ok(r.value[k])
    ensures r.Err? ==> r.error == IndexError
  {
    var sns := SnsColumn(zones);
    r := MapRows(targets, t => Summarize(Weights(t, Shapes(zones)), sns));
  }
}
