/** The overlay weight calculator shared by the heat-stress, heat-sensitivity and rent-control
    scripts: overlap areas of one target with every source polygon, normalised by their sum. */
module Overlay {
  import opened Common
  import opened Sums
  import opened Geometry

  /** `geometry.apply(lambda p: target.intersection(p).area)` over the source polygons. */
  function OverlapAreas(target: Region, sources: seq<Region>): (r: seq<real>)
    ensures |r| == |sources| && NonNegative(r)
    ensures forall i :: 0 <= i < |r| ==> r[i] <= Area(target) && r[i] <= Area(sources[i])
    ensures forall i :: 0 <= i < |r| ==> (r[i] > 0.0 <==> Intersects(target, sources[i]))
  {
    seq(|sources|, i requires 0 <= i < |sources| => GeoWeightRelative(target, sources[i]))
  }

  /** `weight / weight.sum()`. A zero total turns every weight into 0/0, a NaN column: `None`. */
  function Normalize(areas: seq<real>): (r: Option<seq<real>>)
    requires NonNegative(areas)
    ensures r.None? <==> forall i :: 0 <= i < |areas| ==> areas[i] == 0.0
    ensures r.Some? ==> |r.value| == |areas| && NonNegative(r.value) && Sum(r.value) == 1.0
    ensures r.Some? ==> forall i :: 0 <= i < |areas| ==> (r.value[i] > 0.0 <==> areas[i] > 0.0)
  {
    SumZeroIffAllZero(areas);
    SumNonNegative(areas);
    var total := Sum(areas);
    if total == 0.0 then None
    else
      NormalizedColumn(areas, total);
      Some(Divide(areas, total))
  }

  /** The areal weights of one target over the source polygons: its overlap with each, divided
      by their sum; NaN (`None`) exactly when it overlaps none of them. */
  function Weights(target: Region, sources: seq<Region>): (r: Option<seq<real>>)
    ensures r.Some? ==> |r.value| == |sources| && NonNegative(r.value) && Sum(r.value) == 1.0
    ensures r.None? <==> forall i :: 0 <= i < |sources| ==> !Intersects(target, sources[i])
    ensures r.Some? ==> forall i :: 0 <= i < |sources| ==> (r.value[i] > 0.0 <==> Intersects(target, sources[i]))
  {
    Normalize(OverlapAreas(target, sources))
  }

  lemma NormalizedColumn(areas: seq<real>, total: real)
    requires NonNegative(areas) && total == Sum(areas) && total > 0.0
    ensures NonNegative(Divide(areas, total)) && Sum(Divide(areas, total)) == 1.0
    ensures forall i :: 0 <= i < |areas| ==> Divide(areas, total)[i] * total == areas[i]
    ensures forall i :: 0 <= i < |areas| ==> (Divide(areas, total)[i] > 0.0 <==> areas[i] > 0.0)
  {
    SumDivide(areas, total);
    DivideByPositive(areas, total);
    DivSelf(total);
    forall i | 0 <= i < |areas| ensures Divide(areas, total)[i] > 0.0 <==> areas[i] > 0.0 {
      if Divide(areas, total)[i] > 0.0 {
        PositiveProduct(Divide(areas, total)[i], total);
      }
    }
  }

  /** Each normalised weight is its overlap's share of the total overlap. */
  lemma NormalizeShares(areas: seq<real>, total: real)
    requires NonNegative(areas) && total == Sum(areas) && Normalize(areas).Some?
    ensures forall i :: 0 <= i < |areas| ==> Normalize(areas).value[i] * total == areas[i]
  {
    SumNonNegative(areas);
    NormalizedColumn(areas, total);
  }

  lemma DivSelf(d: real)
    requires d != 0.0
    ensures d / d == 1.0
  {
  }

  /** Dividing every overlap by the target's own area first (the rent-control scripts) does not
      change the normalised weights: the target area cancels. */
  lemma NormalizeScaleInvariant(areas: seq<real>, targetArea: real)
    requires NonNegative(areas) && targetArea > 0.0
    ensures NonNegative(Divide(areas, targetArea))
    ensures Normalize(Divide(areas, targetArea)) == Normalize(areas)
  {
    var fr := Divide(areas, targetArea);
    DivideByPositive(areas, targetArea);
    SumDivide(areas, targetArea);
    SumNonNegative(areas);
    var total := Sum(areas);
    if total != 0.0 {
      assert Sum(fr) == total / targetArea;
      var lhs, rhs := Divide(fr, Sum(fr)), Divide(areas, total);
      forall i | 0 <= i < |areas| ensures lhs[i] == rhs[i] {
        CancelCommonDivisor(areas[i], total, targetArea);
      }
      assert lhs == rhs;
    }
  }

  lemma CancelCommonDivisor(a: real, s: real, t: real)
    requires s != 0.0 && t != 0.0
    ensures (a / t) / (s / t) == a / s
  {
  }

  /** `(weight * column).sum()` when the weights may be NaN: pandas skips NaN, so a target with
      no overlap gets 0. */
  function SkipNanAverage(w: Option<seq<real>>, column: seq<real>): (r: real)
    requires w.Some? ==> |w.value| == |column|
    ensures w.None? ==> r == 0.0
  {
    match w
    case None => 0.0
    case Some(ws) => Dot(ws, column)
  }

  /** `weights @ column`: a NaN weight makes the product NaN. */
  function MatMulAverage(w: Option<seq<real>>, column: seq<real>): (r: Option<real>)
    requires w.Some? ==> |w.value| == |column|
    ensures r.None? <==> w.None?
  {
    match w
    case None => None
    case Some(ws) => Some(Dot(ws, column))
  }

  /** The weighted sum over the rows selected by `geo_weight > 0` only. */
  function PositiveMaskDot(w: seq<real>, column: seq<real>): real
    requires |w| == |column|
  {
    if w == [] then 0.0
    else if w[0] > 0.0 then w[0] * column[0] + PositiveMaskDot(w[1..], column[1..])
    else PositiveMaskDot(w[1..], column[1..])
  }

  /** Dropping the zero-weight rows does not change a weighted mean. */
  lemma {:induction false} PositiveMaskDotIsDot(w: seq<real>, column: seq<real>)
    requires |w| == |column| && NonNegative(w)
    ensures PositiveMaskDot(w, column) == Dot(w, column)
  {
    if w != [] {
      PositiveMaskDotIsDot(w[1..], column[1..]);
    }
  }

  /** The normalised weights give a weighted mean of a constant column equal to that constant. */
  lemma ConstantColumnMean(areas: seq<real>, v: real)
    requires NonNegative(areas) && Normalize(areas).Some?
    ensures Dot(Normalize(areas).value, Const(|areas|, v)) == v
  {
    DotConst(Normalize(areas).value, v);
  }

  lemma PositiveProduct(a: real, b: real)
    requires a > 0.0 && b > 0.0
    ensures a * b > 0.0
  {
  }

  /** A weighted mean lies between the smallest and largest values of the overlapping rows. */
  lemma MeanBetweenBounds(areas: seq<real>, column: seq<real>, lo: real, hi: real)
    requires NonNegative(areas) && |column| == |areas| && Normalize(areas).Some?
    requires forall i :: 0 <= i < |areas| && areas[i] > 0.0 ==> lo <= column[i] <= hi
    ensures lo <= Dot(Normalize(areas).value, column) <= hi
  {
    var w := Normalize(areas).value;
    DotBounds(w, column, lo, hi);
    assert Sum(w) == 1.0;
  }

  /** `target.intersection(zone).area / target.area` for every zone: the share of the target lying
      in each zone. A target of area 0 raises ZeroDivisionError as soon as one zone is divided;
      with no zones nothing is divided. */
  function Fractions(target: Region, zones: seq<Region>): (r: Result<seq<real>>)
    ensures r.Err? <==> Area(target) == 0.0 && zones != []
    ensures r.Err? ==> r.error == ZeroDivision
    ensures r.Ok? ==> NonNegative(r.value) && |r.value| == |zones|
    ensures r.Ok? ==> forall i :: 0 <= i < |zones| ==> r.value[i] <= 1.0
    ensures r.Ok? && zones != [] ==> r.value == Divide(OverlapAreas(target, zones), Area(target))
  {
    var a := Area(target);
    if zones == [] then Ok([])
    else if a == 0.0 then Err(ZeroDivision)
    else
      var areas := OverlapAreas(target, zones);
      DivideByPositive(areas, a);
      forall i | 0 <= i < |zones| ensures areas[i] / a <= 1.0 {
        AtMostOne(areas[i], a);
      }
      Ok(Divide(areas, a))
  }

  lemma AtMostOne(x: real, a: real)
    requires 0.0 <= x <= a && a > 0.0
    ensures x / a <= 1.0
  {
  }

  /** The weight row of a target in the rent-control scripts, `(df_ol / df_ol.sum())`: the
      fractions normalised over the zones. It equals the plain normalised overlap areas. */
  lemma FractionWeights(target: Region, zones: seq<Region>)
    requires Fractions(target, zones).Ok?
    ensures Normalize(Fractions(target, zones).value) == Normalize(OverlapAreas(target, zones))
  {
    if zones != [] {
      NormalizeScaleInvariant(OverlapAreas(target, zones), Area(target));
    }
  }
}
