/** Weighted averages of a whole attribute table at once: `table.multiply(weights, axis = 0).sum()`
    of the heat-stress and heat-sensitivity scripts, one average per column. */
module Averages {
  import opened Common
  import opened Sums
  import opened Overlay

  /** An attribute table: one row per source polygon, every row `width` columns wide. */
  ghost predicate Rectangular(table: seq<seq<real>>, width: nat)
  {
    forall i :: 0 <= i < |table| ==> |table[i]| == width
  }

  function Column(table: seq<seq<real>>, j: nat): (c: seq<real>)
    requires forall i :: 0 <= i < |table| ==> j < |table[i]|
    ensures |c| == |table| && forall i :: 0 <= i < |table| ==> c[i] == table[i][j]
  {
    seq(|table|, i requires 0 <= i < |table| => table[i][j])
  }

  /** The total of each row. */
  function RowSums(table: seq<seq<real>>): (r: seq<real>)
    ensures |r| == |table| && forall i :: 0 <= i < |table| ==> r[i] == Sum(table[i])
  {
    seq(|table|, i requires 0 <= i < |table| => Sum(table[i]))
  }

  /** All columns, weights possibly NaN: pandas' `.sum()` skips NaN products. */
  function SkipNanMeans(w: Option<seq<real>>, table: seq<seq<real>>, width: nat): (r: seq<real>)
    requires Rectangular(table, width) && (w.Some? ==> |w.value| == |table|)
    ensures |r| == width
  {
    seq(width, j requires 0 <= j < width => SkipNanAverage(w, Column(table, j)))
  }

  /** All columns over the rows selected by `geo_weight > 0`; a NaN weight never passes the mask. */
  function MaskedMeans(w: Option<seq<real>>, table: seq<seq<real>>, width: nat): (r: seq<real>)
    requires Rectangular(table, width) && (w.Some? ==> |w.value| == |table|)
    ensures |r| == width
  {
    seq(width, j requires 0 <= j < width =>
      match w
      case None => 0.0
      case Some(ws) => PositiveMaskDot(ws, Column(table, j)))
  }

  /** The zero-weight mask changes no average, and without weights both are 0 everywhere. */
  lemma MaskedMeansAreMeans(w: Option<seq<real>>, table: seq<seq<real>>, width: nat)
    requires Rectangular(table, width) && (w.Some? ==> |w.value| == |table| && NonNegative(w.value))
    ensures MaskedMeans(w, table, width) == SkipNanMeans(w, table, width)
    ensures w.None? ==> MaskedMeans(w, table, width) == Const(width, 0.0)
    ensures w.Some? ==> forall j :: 0 <= j < width ==>
      SkipNanMeans(w, table, width)[j] == Dot(w.value, Column(table, j))
  {
    var m, s := MaskedMeans(w, table, width), SkipNanMeans(w, table, width);
    forall j | 0 <= j < width ensures m[j] == s[j] {
      if w.Some? {
        PositiveMaskDotIsDot(w.value, Column(table, j));
      }
    }
  }

  /** A target that overlaps no source polygon gets NaN weights, hence 0 in every column. */
  lemma MeansWithoutOverlap(areas: seq<real>, table: seq<seq<real>>, width: nat)
    requires NonNegative(areas) && |areas| == |table| && Rectangular(table, width)
    requires forall i :: 0 <= i < |areas| ==> areas[i] == 0.0
    ensures SkipNanMeans(Normalize(areas), table, width) == Const(width, 0.0)
    ensures MaskedMeans(Normalize(areas), table, width) == Const(width, 0.0)
  {
    MaskedMeansAreMeans(Normalize(areas), table, width);
  }

  /** For an overlapping target, a column holding `v` on every row averages to `v`. */
  lemma MeanOfConstantColumn(areas: seq<real>, table: seq<seq<real>>, width: nat, j: nat, v: real)
    requires NonNegative(areas) && |areas| == |table| && Rectangular(table, width) && j < width
    requires Normalize(areas).Some?
    requires forall i :: 0 <= i < |table| ==> table[i][j] == v
    ensures SkipNanMeans(Normalize(areas), table, width)[j] == v
  {
    assert Column(table, j) == Const(|areas|, v);
    ConstantColumnMean(areas, v);
  }

  /** For an overlapping target, each average lies between the bounds of its column over the
      overlapping rows. */
  lemma MeanWithinColumnBounds(areas: seq<real>, table: seq<seq<real>>, width: nat, j: nat, lo: real, hi: real)
    requires NonNegative(areas) && |areas| == |table| && Rectangular(table, width) && j < width
    requires Normalize(areas).Some?
    requires forall i :: 0 <= i < |table| && areas[i] > 0.0 ==> lo <= table[i][j] <= hi
    ensures lo <= SkipNanMeans(Normalize(areas), table, width)[j] <= hi
  {
    MeanBetweenBounds(areas, Column(table, j), lo, hi);
  }

  /** Averaging commutes with an affine rescaling: if column `k` is `a * column j + b`, so are
      their averages. */
  lemma MeanAffine(areas: seq<real>, table: seq<seq<real>>, width: nat, j: nat, k: nat, a: real, b: real)
    requires NonNegative(areas) && |areas| == |table| && Rectangular(table, width) && j < width && k < width
    requires Normalize(areas).Some?
    requires forall i :: 0 <= i < |table| ==> table[i][k] == a * table[i][j] + b
    ensures SkipNanMeans(Normalize(areas), table, width)[k] == a * SkipNanMeans(Normalize(areas), table, width)[j] + b
  {
    var w := Normalize(areas).value;
    var means := SkipNanMeans(Normalize(areas), table, width);
    assert means[j] == Dot(w, Column(table, j)) && means[k] == Dot(w, Column(table, k));
    DotAffine(w, Column(table, j), Column(table, k), a, b);
    MulOne(b, Sum(w));
  }

  /** The weighted sum of each column. */
  function ColumnDots(w: seq<real>, table: seq<seq<real>>, width: nat): (z: seq<real>)
    requires |w| == |table| && Rectangular(table, width)
    ensures |z| == width && forall j :: 0 <= j < width ==> z[j] == Dot(w, Column(table, j))
  {
    seq(width, j requires 0 <= j < width => Dot(w, Column(table, j)))
  }

  /** The column averages add up to the weighted mean of the row totals. */
  lemma {:induction false} SumOfColumnDots(w: seq<real>, table: seq<seq<real>>, width: nat)
    requires |w| == |table| && Rectangular(table, width)
    ensures Sum(ColumnDots(w, table, width)) == Dot(w, RowSums(table))
  {
    var z := ColumnDots(w, table, width);
    if table == [] {
      SumZeroIffAllZero(z);
    } else {
      var y := ColumnDots(w[1..], table[1..], width);
      ColumnDotsSplit(w, table, width);
      SumScaleAdd(table[0], y, z, w[0]);
      SumOfColumnDots(w[1..], table[1..], width);
      assert RowSums(table)[1..] == RowSums(table[1..]);
    }
  }

  /** Each column's weighted sum is the first row's share plus the weighted sum of the rest. */
  lemma ColumnDotsSplit(w: seq<real>, table: seq<seq<real>>, width: nat)
    requires |w| == |table| && table != [] && Rectangular(table, width)
    ensures forall j :: 0 <= j < width ==>
      ColumnDots(w, table, width)[j] == w[0] * table[0][j] + ColumnDots(w[1..], table[1..], width)[j]
  {
    forall j | 0 <= j < width
      ensures Dot(w, Column(table, j)) == w[0] * table[0][j] + Dot(w[1..], Column(table[1..], j))
    {
      assert Column(table, j)[1..] == Column(table[1..], j);
    }
  }

  /** For an overlapping target, the averages of columns whose rows all add up to `total` add up
      to `total`. */
  lemma MeansOfSharesSum(areas: seq<real>, table: seq<seq<real>>, width: nat, total: real)
    requires NonNegative(areas) && |areas| == |table| && Rectangular(table, width)
    requires Normalize(areas).Some?
    requires forall i :: 0 <= i < |table| ==> Sum(table[i]) == total
    ensures Sum(SkipNanMeans(Normalize(areas), table, width)) == total
  {
    var w := Normalize(areas).value;
    SumOfColumnDots(w, table, width);
    assert SkipNanMeans(Normalize(areas), table, width) == ColumnDots(w, table, width);
    assert RowSums(table) == Const(|w|, total);
    DotConst(w, total);
  }
}
