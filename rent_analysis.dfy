/** The per-quartier statistics of the Paris rent-control analysis: for one combination of rent
    categories, the weighted mean of the reference rent over the zones (`df_ol @ df_tmp`), then,
    over the zones of positive weight, the weighted median, mode, reliability-weighted standard
    deviation and the deltas from the mean. */
module RentControlAnalysis {
  import opened Common
  import opened Sums
  import opened Tables
  import opened Overlay
  import opened WeightedStats
  import RentControlOverlay

  /** The `std` guard: a denominator below 10^-8 reports a standard deviation of 0. */
  const STD_GUARD: real := 0.00000001

  /** The guarded variance: 0 when the denominator is below the guard. */
  function GuardedVariance(s: seq<Item>, mean: real): (v: real)
    requires s != [] && NonNegativeWeights(s)
    ensures v >= 0.0
    ensures Denominator(s) < STD_GUARD ==> v == 0.0
    ensures Denominator(s) >= STD_GUARD ==> v * Denominator(s) == SquaredDeviation(s, mean)
  {
    var den := Denominator(s);
    if den < STD_GUARD then 0.0
    else
      TotalWeightNonNegative(s);
      DivTimes(SquaredDeviation(s, mean), den);
      SquaredDeviation(s, mean) / den
  }

  /** The row of statistics of a quartier whose lookups succeed. */
  function Row(w: seq<real>, refs: seq<real>): (r: Summary)
    requires |w| == |refs| && Computable(w, refs)
    ensures |r.cutoffDeltas| == |CUTOFFS|
    ensures r.variance.Some? && r.variance.value >= 0.0
  {
    var items := Zip(refs, w);
    var mean := Dot(w, refs);
    LookupsSucceed(items, mean);
    var s := SortedPositive(items);
    var median := Percentile(items, 0.5).value;
    var deltas := Shift(s, mean);
    Summary(mean, median, Mode(s).value, Some(GuardedVariance(s, mean)), WeightedSum(deltas),
            median - mean, Mode(deltas).value, PercentileDeltas(items, CUTOFFS, mean).value)
  }

  /** The statistics of one quartier from its weight row over the zones (`None` when every weight
      is NaN) and the zones' reference rents, already aligned zone by zone; a failed lookup is an
      IndexError. */
  function Summarize(weights: Option<seq<real>>, refs: seq<real>): (r: Result<Summary>)
    requires weights.Some? ==> |weights.value| == |refs|
    ensures r.Ok? <==> weights.Some? && Computable(weights.value, refs)
    ensures r.Ok? ==> r.value == Row(weights.value, refs)
    ensures r.Err? ==> r.error == IndexError
  {
    if weights.Some? && Computable(weights.value, refs) then Ok(Row(weights.value, refs))
    else Err(IndexError)
  }

  /** A quartier's row is an IndexError exactly when the median lookup or a cutoff lookup finds
      no row. */
  lemma SummarizeErrors(w: seq<real>, refs: seq<real>)
    requires |w| == |refs|
    ensures Summarize(Some(w), refs).Err? <==>
      Percentile(Zip(refs, w), 0.5).None? || PercentileDeltas(Zip(refs, w), CUTOFFS, Dot(w, refs)).None?
  {
    LookupsSucceed(Zip(refs, w), Dot(w, refs));
  }

  /** A quartier with at least one overlapping zone always gets a row (no lookup raises); one
      without gets the IndexError of `.iloc[0]`. */
  lemma SummarizeDefined(areas: seq<real>, refs: seq<real>)
    requires NonNegative(areas) && |areas| == |refs|
    ensures Summarize(Normalize(areas), refs).Ok? <==> exists i :: 0 <= i < |areas| && areas[i] > 0.0
  {
    var weights := Normalize(areas);
    if weights.Some? {
      var w := weights.value;
      NormalisedItems(w, refs);
      PercentileDefined(Zip(refs, w), 1.0);
    }
  }

  /** The median is the rent of an overlapping zone, and the mode is a weighted mode of the
      overlapping zones. */
  lemma RowMedianMode(w: seq<real>, refs: seq<real>)
    requires |w| == |refs| && Computable(w, refs)
    ensures exists k :: 0 <= k < |refs| && w[k] > 0.0 && refs[k] == Row(w, refs).median
    ensures IsMode(SortedPositive(Zip(refs, w)), Row(w, refs).mode)
  {
    var items := Zip(refs, w);
    var k :| 0 <= k < |items| && items[k].weight > 0.0 && items[k].value == Row(w, refs).median;
    assert items[k] == Item(refs[k], w[k]);
  }

  /** The deltas are taken from the mean: with normalised weights their weighted mean is 0, the
      median delta is the median minus the mean and the mode of the deltas is the mode minus the
      mean. */
  lemma RowDeltas(w: seq<real>, refs: seq<real>)
    requires |w| == |refs| && NormalisedRow(w) && Computable(w, refs)
    ensures Row(w, refs).meanDelta == 0.0
    ensures Row(w, refs).medianDelta == Row(w, refs).median - Row(w, refs).mean
    ensures Row(w, refs).modeDelta == Row(w, refs).mode - Row(w, refs).mean
  {
    var mean := Dot(w, refs);
    var s := SortedPositive(Zip(refs, w));
    NormalisedItems(w, refs);
    ShiftedStatistics(s, mean);
  }

  lemma RowCutoffDeltas(w: seq<real>, refs: seq<real>)
    requires |w| == |refs| && Computable(w, refs)
    ensures PercentileDeltas(Zip(refs, w), CUTOFFS, Dot(w, refs)).Some?
    ensures Row(w, refs).cutoffDeltas == PercentileDeltas(Zip(refs, w), CUTOFFS, Dot(w, refs)).value
    ensures Row(w, refs).mean == Dot(w, refs)
  {
    LookupsSucceed(Zip(refs, w), Dot(w, refs));
  }

  /** The seven cutoff deltas are non-decreasing. */
  lemma RowCutoffsMonotone(w: seq<real>, refs: seq<real>)
    requires |w| == |refs| && Computable(w, refs)
    ensures |Row(w, refs).cutoffDeltas| == |CUTOFFS|
    ensures forall i, j :: 0 <= i <= j < |CUTOFFS| ==> Row(w, refs).cutoffDeltas[i] <= Row(w, refs).cutoffDeltas[j]
  {
    RowCutoffDeltas(w, refs);
    CutoffsAscending();
    PercentileDeltasSorted(Zip(refs, w), CUTOFFS, Dot(w, refs));
  }

  /** The 0.0 cutoff delta is the smallest overlapping rent minus the mean. */
  lemma RowCutoffZero(w: seq<real>, refs: seq<real>, k: nat)
    requires |w| == |refs| && Computable(w, refs)
    requires k < |refs| && w[k] > 0.0
    ensures Row(w, refs).cutoffDeltas[0] <= refs[k] - Row(w, refs).mean
  {
    var items := Zip(refs, w);
    RowCutoffDeltas(w, refs);
    PercentileAtZero(items, k);
    assert items[k] == Item(refs[k], w[k]);
  }

  /** Each cutoff delta is the rent of some overlapping zone minus the mean. */
  lemma RowCutoffsAreDeltas(w: seq<real>, refs: seq<real>, i: nat)
    requires |w| == |refs| && Computable(w, refs) && i < |CUTOFFS|
    ensures exists k :: 0 <= k < |refs| && w[k] > 0.0 && Row(w, refs).cutoffDeltas[i] == refs[k] - Row(w, refs).mean
  {
    RowCutoffDeltas(w, refs);
    ZipPercentileDelta(refs, w, CUTOFFS, Dot(w, refs), i);
  }

  /** The mean of the overlapping rents lies between their bounds, so a constant rent v averages
      to v. */
  lemma RowMeanBounds(areas: seq<real>, refs: seq<real>, lo: real, hi: real)
    requires NonNegative(areas) && |areas| == |refs| && Summarize(Normalize(areas), refs).Ok?
    requires forall i :: 0 <= i < |areas| && areas[i] > 0.0 ==> lo <= refs[i] <= hi
    ensures lo <= Summarize(Normalize(areas), refs).value.mean <= hi
  {
    MeanBetweenBounds(areas, refs, lo, hi);
  }

  lemma RowVariance(w: seq<real>, refs: seq<real>)
    requires |w| == |refs| && Computable(w, refs)
    ensures NonNegativeWeights(SortedPositive(Zip(refs, w)))
    ensures Row(w, refs).variance == Some(GuardedVariance(SortedPositive(Zip(refs, w)), Dot(w, refs)))
  {
  }

  /** With normalised weights the guard fires exactly when one zone overlaps the quartier: its
      standard deviation is then 0; with several zones the denominator is at least 1/2, so the
      unguarded ratio is reported. */
  lemma RowSingleZone(w: seq<real>, refs: seq<real>)
    requires |w| == |refs| && NormalisedRow(w) && Computable(w, refs)
    ensures |SortedPositive(Zip(refs, w))| == 1 ==> Row(w, refs).variance == Some(0.0)
    ensures |SortedPositive(Zip(refs, w))| > 1 ==> Denominator(SortedPositive(Zip(refs, w))) >= 0.5
  {
    var s := SortedPositive(Zip(refs, w));
    RowVariance(w, refs);
    NormalisedItems(w, refs);
    DenominatorOfNormalised(s);
  }

  /** The reference rent of every zone of `ids`, in that order, read by label from the table of
      one combination. */
  function ZoneRefs(ids: seq<int>, table: seq<RentControlOverlay.ZoneRents>): (c: seq<real>)
    requires RentControlOverlay.Aligned(ids, table)
    ensures |c| == |ids|
    ensures forall i :: 0 <= i < |ids| ==>
      var j := RentControlOverlay.IndexOf(table, ids[i]); table[j].id == ids[i] && c[i] == table[j].rents.ref
  {
    RentControlOverlay.RefColumn(RentControlOverlay.Realigned(ids, table))
  }

  /** One combination of the analysis: the quartiers' weight rows over the zones `ids` (the rows
      of `df_ol`) and the combination's table of reference rents by zone. With no quartier there is
      no overlap column to concatenate, and a table whose zone labels do not match `ids` makes
      `df_ol @ df_tmp` raise ValueError before any quartier is looked at; otherwise
      `for sl in df_ol.index` gives one row of statistics per quartier, in index order, the first
      quartier whose lookups fail stopping the loop with IndexError. */
  method SummarizeAll(weightRows: seq<Option<seq<real>>>, ids: seq<int>, table: seq<RentControlOverlay.ZoneRents>)
    returns (r: Result<seq<Summary>>)
    requires forall k :: 0 <= k < |weightRows| && weightRows[k].Some? ==> |weightRows[k].value| == |ids|
    ensures weightRows == [] || !RentControlOverlay.Aligned(ids, table) ==> r == Err(ValueError)
    ensures r.Ok? <==> (weightRows != [] && RentControlOverlay.Aligned(ids, table) &&
      forall k :: 0 <= k < |weightRows| ==> Summarize(weightRows[k], ZoneRefs(ids, table)).Ok?)
    ensures r.Ok? ==> |r.value| == |weightRows|
    ensures r.Ok? ==> forall k :: 0 <= k < |weightRows| ==> Summarize(weightRows[k], ZoneRefs(ids, table)) == Ok(r.value[k])
    ensures r.Err? && weightRows != [] && RentControlOverlay.Aligned(ids, table) ==> r.error == IndexError
  {
    if weightRows == [] || !RentControlOverlay.Aligned(ids, table) {
      return Err(ValueError);
    }
    var refs := ZoneRefs(ids, table);
    var rows: seq<Summary> := [];
    var k := 0;
    while k < |weightRows|
      invariant 0 <= k <= |weightRows| && |rows| == k
      invariant forall j :: 0 <= j < k ==> Summarize(weightRows[j], refs) == Ok(rows[j])
    {
      var row := Summarize(weightRows[k], refs);
      if row.Err? {
        assert !Summarize(weightRows[k], ZoneRefs(ids, table)).Ok?;
        return Err(IndexError);
      }
      rows := rows + [row.value];
      k := k + 1;
    }
    r := Ok(rows);
  }
}
