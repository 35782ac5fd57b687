/** Weighted statistics of one target's overlay table: the rows with positive weight, sorted by
    value, their rounded cumulative weights, weighted percentiles read off that cumulative column,
    the weighted mode (`groupby(value).sum().idxmax()`) and the two parts of the reliability-weighted
    standard deviation. */
module WeightedStats {
  import opened Common
  import opened Tables
  import opened Rounding
  import opened Sums

  /** One row of a weighted table: a value (a rent, a sensitivity class) and its overlay weight. */
  datatype Item = Item(value: real, weight: real)

  function WeightOf(it: Item): real { it.weight }

  function WeightedValue(it: Item): real { it.weight * it.value }

  predicate HasWeight(it: Item) { it.weight > 0.0 }

  predicate ValueLeq(a: Item, b: Item) { a.value <= b.value }

  ghost predicate NonNegativeWeights(items: seq<Item>)
  {
    forall i :: 0 <= i < |items| ==> items[i].weight >= 0.0
  }

  /** The table holding one value column and one weight column side by side. */
  function Zip(values: seq<real>, weights: seq<real>): seq<Item>
    requires |values| == |weights|
  {
    seq(|values|, i requires 0 <= i < |values| => Item(values[i], weights[i]))
  }

  function TotalWeight(items: seq<Item>): real { SumOf(items, WeightOf) }

  /** Σ weight * value, the weighted mean of a table whose weights are normalised. */
  function WeightedSum(items: seq<Item>): real { SumOf(items, WeightedValue) }

  /** The same value column with `d` subtracted from every value (the `delta` column). */
  function Shift(items: seq<Item>, d: real): (r: seq<Item>)
    ensures |r| == |items|
    ensures forall i :: 0 <= i < |r| ==> r[i].value + d == items[i].value && r[i].weight == items[i].weight
  {
    seq(|items|, i requires 0 <= i < |items| => Item(items[i].value - d, items[i].weight))
  }

  lemma ValueLeqTotal()
    ensures TotalPreorder(ValueLeq)
  {
  }

  lemma {:induction false} SumOfCons<T>(a: T, t: seq<T>, f: T -> real)
    ensures SumOf([a] + t, f) == f(a) + SumOf(t, f)
  {
    assert ([a] + t)[1..] == t;
  }

  /** The weights and weighted sum of zipped columns are `Sum` and `Dot` of the columns. */
  lemma {:induction false} DotIsWeightedSum(w: seq<real>, v: seq<real>)
    requires |w| == |v|
    ensures Dot(w, v) == WeightedSum(Zip(v, w))
    ensures Sum(w) == TotalWeight(Zip(v, w))
  {
    if w != [] {
      assert Zip(v, w)[1..] == Zip(v[1..], w[1..]);
      DotIsWeightedSum(w[1..], v[1..]);
    }
  }

  lemma {:induction false} TotalWeightNonNegative(items: seq<Item>)
    requires NonNegativeWeights(items)
    ensures TotalWeight(items) >= 0.0
  {
    if items != [] {
      TotalWeightNonNegative(items[1..]);
    }
  }

  /** Dropping the rows of zero weight (`.loc[weight > 0]`) keeps the total weight and the
      weighted sum. */
  lemma {:induction false} PositiveRowsKeepSums(items: seq<Item>)
    requires NonNegativeWeights(items)
    ensures TotalWeight(Select(items, HasWeight)) == TotalWeight(items)
    ensures WeightedSum(Select(items, HasWeight)) == WeightedSum(items)
  {
    if items != [] {
      PositiveRowsKeepSums(items[1..]);
      if HasWeight(items[0]) {
        SumOfCons(items[0], Select(items[1..], HasWeight), WeightOf);
        SumOfCons(items[0], Select(items[1..], HasWeight), WeightedValue);
      }
    }
  }

  /** Subtracting `d` from every value lowers the weighted sum by `d` times the total weight; with
      normalised weights and `d` the mean, the weighted mean of the deltas is 0. */
  lemma {:induction false} WeightedSumShift(items: seq<Item>, d: real)
    ensures WeightedSum(Shift(items, d)) == WeightedSum(items) - d * TotalWeight(items)
  {
    if items != [] {
      assert Shift(items, d)[1..] == Shift(items[1..], d);
      WeightedSumShift(items[1..], d);
      var it := items[0];
      assert WeightedValue(Shift(items, d)[0]) == it.weight * it.value - d * it.weight;
    }
  }

  /** `.loc[weight > 0].sort_values(value)`: the rows of positive weight, ordered by value. */
  function SortedPositive(items: seq<Item>): (r: seq<Item>)
    ensures SortedBy(r, ValueLeq)
    ensures multiset(r) == multiset(Select(items, HasWeight))
    ensures forall k :: 0 <= k < |r| ==> r[k].weight > 0.0
  {
    ValueLeqTotal();
    var t := Select(items, HasWeight);
    var r := SortBy(t, ValueLeq);
    assert forall k :: 0 <= k < |r| ==> r[k] in multiset(t);
    r
  }

  /** Every sorted row comes from the table. */
  lemma SortedPositiveFrom(items: seq<Item>, k: nat)
    requires k < |SortedPositive(items)|
    ensures exists i :: 0 <= i < |items| && items[i] == SortedPositive(items)[k]
  {
    var r := SortedPositive(items);
    assert r[k] in multiset(Select(items, HasWeight));
    assert r[k] in items;
  }

  /** Every row of positive weight is among the sorted rows. */
  lemma SortedPositiveHas(items: seq<Item>, i: nat)
    requires i < |items| && items[i].weight > 0.0
    ensures exists k :: 0 <= k < |SortedPositive(items)| && SortedPositive(items)[k] == items[i]
  {
    var t := Select(items, HasWeight);
    assert items[i] in t;
    assert items[i] in multiset(SortedPositive(items));
    assert items[i] in SortedPositive(items);
  }

  /** Sorting the rows of positive weight keeps the total weight and weighted sum. */
  lemma SortedPositiveKeepsTotal(items: seq<Item>)
    requires NonNegativeWeights(items)
    ensures TotalWeight(SortedPositive(items)) == TotalWeight(items)
    ensures WeightedSum(SortedPositive(items)) == WeightedSum(items)
  {
    ValueLeqTotal();
    SumOfSortBy(Select(items, HasWeight), ValueLeq, WeightOf);
    SumOfSortBy(Select(items, HasWeight), ValueLeq, WeightedValue);
    PositiveRowsKeepSums(items);
  }

  /** Over normalised weights, the deltas from `m` have weighted mean `mean - m` and mode
      `mode - m`. */
  lemma ShiftedStatistics(s: seq<Item>, m: real)
    requires s != [] && TotalWeight(s) == 1.0
    ensures WeightedSum(Shift(s, m)) == WeightedSum(s) - m
    ensures Mode(Shift(s, m)) == Some(Mode(s).value - m)
  {
    WeightedSumShift(s, m);
    ModeShift(s, m);
  }

  /** `weight.cumsum().round(5)` of a sorted table. */
  function RoundedCum(s: seq<Item>): seq<real>
  {
    seq(|s|, i requires 0 <= i < |s| => Round5(TotalWeight(s[..i + 1])))
  }

  /** The position of the first entry of `cum` that is at least `c`: `.loc[cum >= c].iloc[0]`,
      where no such entry is an IndexError. */
  function FirstIndex(cum: seq<real>, c: real): (r: Option<nat>)
    ensures r.Some? ==> r.value < |cum| && cum[r.value] >= c
    ensures r.Some? ==> forall j :: 0 <= j < r.value ==> cum[j] < c
    ensures r.None? <==> forall j :: 0 <= j < |cum| ==> cum[j] < c
  {
    if cum == [] then None
    else if cum[0] >= c then Some(0)
    else
      match FirstIndex(cum[1..], c)
      case None => None
      case Some(k) => Some(k + 1)
  }

  /** A higher cutoff is found at the same position or later. */
  lemma FirstIndexMonotone(cum: seq<real>, c1: real, c2: real)
    requires c1 <= c2 && FirstIndex(cum, c2).Some?
    ensures FirstIndex(cum, c1).Some? && FirstIndex(cum, c1).value <= FirstIndex(cum, c2).value
  {
    var k2 := FirstIndex(cum, c2).value;
    assert cum[k2] >= c1;
  }

  /** The weighted `c`-percentile: the value of the first sorted positive row whose rounded
      cumulative weight reaches `c`; `None` is the IndexError of an empty selection. */
  function Percentile(items: seq<Item>, c: real): (r: Option<real>)
    ensures r.Some? ==> exists i :: 0 <= i < |items| && items[i].weight > 0.0 && items[i].value == r.value
    ensures (forall i :: 0 <= i < |items| ==> items[i].weight <= 0.0) ==> r.None?
  {
    var s := SortedPositive(items);
    if s != [] then
      SortedPositiveFrom(items, 0);
      match FirstIndex(RoundedCum(s), c)
      case None => None
      case Some(k) => SortedPositiveFrom(items, k); Some(s[k].value)
    else None
  }

  /** Percentiles are monotone in the cutoff. */
  lemma PercentileMonotone(items: seq<Item>, c1: real, c2: real)
    requires c1 <= c2 && Percentile(items, c2).Some?
    ensures Percentile(items, c1).Some?
    ensures Percentile(items, c1).value <= Percentile(items, c2).value
  {
    var s := SortedPositive(items);
    FirstIndexMonotone(RoundedCum(s), c1, c2);
  }

  lemma RoundedCumFirst(s: seq<Item>)
    requires s != [] && s[0].weight >= 0.0
    ensures RoundedCum(s)[0] >= 0.0
  {
    assert s[..1] == [s[0]] + [];
    SumOfCons(s[0], [], WeightOf);
    Round5NonNegative(s[0].weight);
  }

  /** The 0-percentile is the smallest value among the rows of positive weight. */
  lemma PercentileAtZero(items: seq<Item>, k: nat)
    requires k < |items| && items[k].weight > 0.0
    ensures Percentile(items, 0.0).Some?
    ensures forall i :: 0 <= i < |items| && items[i].weight > 0.0 ==> Percentile(items, 0.0).value <= items[i].value
  {
    var s := SortedPositive(items);
    SortedPositiveHas(items, k);
    RoundedCumFirst(s);
    assert FirstIndex(RoundedCum(s), 0.0) == Some(0);
    assert Percentile(items, 0.0) == Some(s[0].value);
    forall i | 0 <= i < |items| && items[i].weight > 0.0 ensures s[0].value <= items[i].value {
      SortedPositiveHas(items, i);
      var j :| 0 <= j < |s| && s[j] == items[i];
      if j > 0 { assert ValueLeq(s[0], s[j]); }
    }
  }

  /** With non-negative weights summing to 1 every cutoff up to 1 is reached, so no percentile
      lookup raises. */
  lemma PercentileDefined(items: seq<Item>, c: real)
    requires NonNegativeWeights(items) && TotalWeight(items) == 1.0 && c <= 1.0
    ensures Percentile(items, c).Some?
  {
    SortedPositiveKeepsTotal(items);
    LastCumIsOne(SortedPositive(items));
  }

  /** Rows of total weight 1 reach a rounded cumulative weight of 1 at their last row. */
  lemma LastCumIsOne(s: seq<Item>)
    requires TotalWeight(s) == 1.0
    ensures s != [] && RoundedCum(s)[|s| - 1] == 1.0
  {
    assert s != [];
    assert s[..|s|] == s;
    Round5One();
  }

  /** The total weight of the rows whose value is `v`: one group of `groupby(value).sum()`. */
  function GroupWeight(items: seq<Item>, v: real): real
  {
    if items == [] then 0.0
    else (if items[0].value == v then items[0].weight else 0.0) + GroupWeight(items[1..], v)
  }

  /** The candidate of `vs` with the largest group weight, the smallest such value on ties
      (`idxmax` returns the first maximum and `groupby` sorts its keys). */
  function BestOf(items: seq<Item>, vs: seq<real>): (r: real)
    requires vs != []
    ensures r in vs
    ensures forall v :: v in vs ==> GroupWeight(items, v) <= GroupWeight(items, r)
    ensures forall v :: v in vs && v < r ==> GroupWeight(items, v) < GroupWeight(items, r)
  {
    if |vs| == 1 then vs[0]
    else
      var b := BestOf(items, vs[1..]);
      assert vs == [vs[0]] + vs[1..];
      var g0, gb := GroupWeight(items, vs[0]), GroupWeight(items, b);
      if g0 > gb || (g0 == gb && vs[0] < b) then vs[0] else b
  }

  /** `m` is a weighted mode of the table. */
  ghost predicate IsMode(items: seq<Item>, m: real)
  {
    && (exists i :: 0 <= i < |items| && items[i].value == m)
    && (forall i :: 0 <= i < |items| ==> GroupWeight(items, items[i].value) <= GroupWeight(items, m))
    && (forall i :: 0 <= i < |items| && items[i].value < m ==>
          GroupWeight(items, items[i].value) < GroupWeight(items, m))
  }

  /** `groupby(value)[weight].sum().idxmax()`; an empty table is a ValueError (`None`). */
  function Mode(items: seq<Item>): (r: Option<real>)
    ensures r.None? <==> items == []
    ensures r.Some? ==> IsMode(items, r.value)
  {
    if items == [] then None
    else
      var vs := seq(|items|, i requires 0 <= i < |items| => items[i].value);
      var m := BestOf(items, vs);
      BestIsMode(items, vs, m);
      Some(m)
  }

  lemma BestIsMode(items: seq<Item>, vs: seq<real>, m: real)
    requires |vs| == |items| && forall i :: 0 <= i < |items| ==> vs[i] == items[i].value
    requires m in vs
    requires forall v :: v in vs ==> GroupWeight(items, v) <= GroupWeight(items, m)
    requires forall v :: v in vs && v < m ==> GroupWeight(items, v) < GroupWeight(items, m)
    ensures IsMode(items, m)
  {
    forall i | 0 <= i < |items| ensures items[i].value in vs {
      assert vs[i] == items[i].value;
    }
    var i :| 0 <= i < |vs| && vs[i] == m;
    assert items[i].value == m;
  }

  /** The mode is determined by the table: there is at most one. */
  lemma ModeUnique(items: seq<Item>, a: real, b: real)
    requires IsMode(items, a) && IsMode(items, b)
    ensures a == b
  {
  }

  lemma {:induction false} GroupWeightShift(items: seq<Item>, d: real, v: real)
    ensures GroupWeight(Shift(items, d), v - d) == GroupWeight(items, v)
  {
    if items != [] {
      assert Shift(items, d)[1..] == Shift(items[1..], d);
      GroupWeightShift(items[1..], d, v);
    }
  }

  /** The mode of the `delta` column is the mode of the values minus the subtracted constant. */
  lemma ModeShift(items: seq<Item>, d: real)
    requires items != []
    ensures Mode(Shift(items, d)) == Some(Mode(items).value - d)
  {
    ShiftedMode(items, d, Mode(items).value);
  }

  lemma ShiftedMode(items: seq<Item>, d: real, m: real)
    requires IsMode(items, m)
    ensures Mode(Shift(items, d)) == Some(m - d)
  {
    IsModeShift(items, d, m);
    ModeIs(Shift(items, d), m - d);
  }

  /** Any value meeting the definition of the mode is the one `Mode` returns. */
  lemma ModeIs(items: seq<Item>, m: real)
    requires IsMode(items, m)
    ensures Mode(items) == Some(m)
  {
    ModeUnique(items, Mode(items).value, m);
  }

  /** Shifting every value by `d` shifts the mode by `d`. */
  lemma IsModeShift(items: seq<Item>, d: real, m: real)
    requires IsMode(items, m)
    ensures IsMode(Shift(items, d), m - d)
  {
    var t := Shift(items, d);
    var i :| 0 <= i < |items| && items[i].value == m;
    assert t[i].value == m - d;
    GroupWeightShift(items, d, m);
    forall j | 0 <= j < |t|
      ensures GroupWeight(t, t[j].value) <= GroupWeight(t, m - d)
      ensures t[j].value < m - d ==> GroupWeight(t, t[j].value) < GroupWeight(t, m - d)
    {
      GroupWeightShift(items, d, items[j].value);
      assert t[j].value == items[j].value - d;
    }
  }

  /** Σ weight * (value - m)², the numerator of the weighted standard deviation. */
  function SquaredDeviation(items: seq<Item>, m: real): (r: real)
    requires NonNegativeWeights(items)
    ensures r >= 0.0
  {
    if items == [] then 0.0
    else
      var e := items[0].value - m;
      assert e * e >= 0.0;
      items[0].weight * e * e + SquaredDeviation(items[1..], m)
  }

  /** When every row sits at `m` there is no deviation. */
  lemma {:induction false} SquaredDeviationZero(items: seq<Item>, m: real)
    requires NonNegativeWeights(items)
    requires forall i :: 0 <= i < |items| ==> items[i].value == m
    ensures SquaredDeviation(items, m) == 0.0
  {
    if items != [] {
      SquaredDeviationZero(items[1..], m);
    }
  }

  /** (N - 1) * Σ weight / N, the denominator of the weighted standard deviation over N rows. */
  function Denominator(items: seq<Item>): real
    requires items != []
  {
    (|items| - 1) as real * TotalWeight(items) / |items| as real
  }

  /** Rows of positive weight have a positive total. */
  lemma {:induction false} TotalWeightPositive(items: seq<Item>)
    requires items != [] && forall k :: 0 <= k < |items| ==> items[k].weight > 0.0
    ensures TotalWeight(items) > 0.0
  {
    assert TotalWeight(items) == items[0].weight + TotalWeight(items[1..]);
    if |items| > 1 {
      TotalWeightPositive(items[1..]);
    } else {
      assert items[1..] == [];
    }
  }

  /** Over rows of positive weight the denominator vanishes exactly for a single row. */
  lemma DenominatorOfPositive(items: seq<Item>)
    requires items != [] && forall k :: 0 <= k < |items| ==> items[k].weight > 0.0
    ensures Denominator(items) >= 0.0
    ensures Denominator(items) == 0.0 <==> |items| == 1
  {
    TotalWeightPositive(items);
    var n, t := |items| as real, TotalWeight(items);
    assert Denominator(items) == (n - 1.0) * t / n;
    if |items| > 1 {
      assert (n - 1.0) * t > 0.0;
    }
  }

  /** With normalised weights the denominator is 0 for a single row and at least 1/2 otherwise. */
  lemma DenominatorOfNormalised(items: seq<Item>)
    requires items != [] && TotalWeight(items) == 1.0
    ensures |items| == 1 ==> Denominator(items) == 0.0
    ensures |items| > 1 ==> Denominator(items) >= 0.5
  {
    var n := |items| as real;
    if |items| > 1 {
      assert Denominator(items) == (n - 1.0) / n;
      assert (n - 1.0) / n >= 0.5 by {
        assert n - 1.0 >= 0.5 * n;
      }
    }
  }

  /** The cumulative-weight cutoffs whose deltas both analyses report. */
  const CUTOFFS: seq<real> := [0.0, 0.1, 0.25, 0.5, 0.75, 0.9, 1.0]

  /** One target's row of statistics. `variance` is the square of the reported `std` (`None` when
      the division yields NaN); the deltas are taken from the mean or from the mode. */
  datatype Summary = Summary(
    mean: real, median: real, mode: real, variance: Option<real>,
    meanDelta: real, medianDelta: real, modeDelta: real, cutoffDeltas: seq<real>)

  /** `{c}_delta` for each cutoff `c`: the percentile minus `base`; `None` when a lookup raises. */
  function PercentileDeltas(items: seq<Item>, cutoffs: seq<real>, base: real): (r: Option<seq<real>>)
    ensures r.Some? <==> forall i :: 0 <= i < |cutoffs| ==> Percentile(items, cutoffs[i]).Some?
    ensures r.Some? ==> |r.value| == |cutoffs|
    ensures r.Some? ==> forall i :: 0 <= i < |cutoffs| ==> r.value[i] + base == Percentile(items, cutoffs[i]).value
  {
    var ps := seq(|cutoffs|, i requires 0 <= i < |cutoffs| => Percentile(items, cutoffs[i]));
    assert forall i :: 0 <= i < |cutoffs| ==> ps[i] == Percentile(items, cutoffs[i]);
    Deltas(ps, base)
  }

  /** The lookups `ps` in order, each minus `base`; the first lookup that fails raises. */
  function Deltas(ps: seq<Option<real>>, base: real): (r: Option<seq<real>>)
    ensures r.Some? <==> forall i :: 0 <= i < |ps| ==> ps[i].Some?
    ensures r.Some? ==> |r.value| == |ps| && forall i :: 0 <= i < |ps| ==> r.value[i] + base == ps[i].value
  {
    if ps == [] then Some([])
    else
      match ps[0]
      case None => None
      case Some(p) =>
        match Deltas(ps[1..], base)
        case None =>
          assert !(forall i :: 0 <= i < |ps[1..]| ==> ps[1..][i].Some?);
          None
        case Some(rest) => Some([p - base] + rest)
  }

  /** Every lookup of the analyses succeeds exactly when the 1.0 cutoff is reached, the largest
      cutoff. */
  lemma LookupsSucceed(items: seq<Item>, base: real)
    ensures Percentile(items, 1.0).Some? <==>
      Percentile(items, 0.5).Some? && PercentileDeltas(items, CUTOFFS, base).Some?
    ensures Percentile(items, 1.0).Some? ==> SortedPositive(items) != []
  {
    CutoffsUpToOne();
    if Percentile(items, 1.0).Some? {
      CutoffsReached(items, CUTOFFS, base);
      PercentileMonotone(items, 0.5, 1.0);
    } else {
      TopCutoffNeeded(items, CUTOFFS, base, 6);
    }
  }

  lemma CutoffsUpToOne()
    ensures |CUTOFFS| == 7 && CUTOFFS[6] == 1.0
    ensures forall i :: 0 <= i < |CUTOFFS| ==> CUTOFFS[i] <= 1.0
  {
  }

  /** A lookup at a cutoff of 1 fails when the 1.0 percentile is missing. */
  lemma TopCutoffNeeded(items: seq<Item>, cutoffs: seq<real>, base: real, i: nat)
    requires i < |cutoffs| && cutoffs[i] == 1.0 && Percentile(items, 1.0).None?
    ensures PercentileDeltas(items, cutoffs, base).None?
  {
  }

  /** Every cutoff up to 1 is reached once 1 is. */
  lemma CutoffsReached(items: seq<Item>, cutoffs: seq<real>, base: real)
    requires Percentile(items, 1.0).Some?
    requires forall i :: 0 <= i < |cutoffs| ==> cutoffs[i] <= 1.0
    ensures PercentileDeltas(items, cutoffs, base).Some?
  {
    forall i | 0 <= i < |cutoffs| ensures Percentile(items, cutoffs[i]).Some? {
      PercentileMonotone(items, cutoffs[i], 1.0);
    }
  }

  ghost predicate Ascending(cutoffs: seq<real>)
  {
    forall i, j :: 0 <= i <= j < |cutoffs| ==> cutoffs[i] <= cutoffs[j]
  }

  lemma CutoffsAscending()
    ensures Ascending(CUTOFFS)
  {
  }

  /** Along ascending cutoffs the deltas never decrease. */
  lemma PercentileDeltasSorted(items: seq<Item>, cutoffs: seq<real>, base: real)
    requires Ascending(cutoffs) && PercentileDeltas(items, cutoffs, base).Some?
    ensures forall i, j :: 0 <= i <= j < |cutoffs| ==>
      PercentileDeltas(items, cutoffs, base).value[i] <= PercentileDeltas(items, cutoffs, base).value[j]
  {
    var d := PercentileDeltas(items, cutoffs, base).value;
    forall i, j | 0 <= i <= j < |cutoffs| ensures d[i] <= d[j] {
      PercentileMonotone(items, cutoffs[i], cutoffs[j]);
    }
  }

  /** Each cutoff delta is the value of a row of positive weight minus `base`. */
  lemma PercentileDeltaOfRow(items: seq<Item>, cutoffs: seq<real>, base: real, i: nat)
    requires PercentileDeltas(items, cutoffs, base).Some? && i < |cutoffs|
    ensures exists k ::
      0 <= k < |items| && items[k].weight > 0.0 && PercentileDeltas(items, cutoffs, base).value[i] == items[k].value - base
  {
    var p := Percentile(items, cutoffs[i]).value;
    var k :| 0 <= k < |items| && items[k].weight > 0.0 && items[k].value == p;
  }

  /** The same over a zipped table: the value and the weight of one row. */
  lemma ZipPercentileDelta(values: seq<real>, weights: seq<real>, cutoffs: seq<real>, base: real, i: nat)
    requires |values| == |weights| && PercentileDeltas(Zip(values, weights), cutoffs, base).Some? && i < |cutoffs|
    ensures exists k ::
      0 <= k < |values| && weights[k] > 0.0 && PercentileDeltas(Zip(values, weights), cutoffs, base).value[i] == values[k] - base
  {
    var items := Zip(values, weights);
    PercentileDeltaOfRow(items, cutoffs, base, i);
    var k :| 0 <= k < |items| && items[k].weight > 0.0 && PercentileDeltas(items, cutoffs, base).value[i] == items[k].value - base;
    assert items[k] == Item(values[k], weights[k]);
  }

  /** Every `.iloc[0]` lookup of a target succeeds: the rounded cumulative weights reach the
      largest cutoff (see `LookupsSucceed`). */
  predicate Computable(w: seq<real>, values: seq<real>)
    requires |w| == |values|
  {
    Percentile(Zip(values, w), 1.0).Some?
  }

  /** The weight rows produced by the normalisation: non-negative and summing to 1. */
  ghost predicate NormalisedRow(w: seq<real>)
  {
    NonNegative(w) && Sum(w) == 1.0
  }

  lemma NormalisedItems(w: seq<real>, values: seq<real>)
    requires |w| == |values| && NormalisedRow(w)
    ensures NonNegativeWeights(Zip(values, w)) && TotalWeight(Zip(values, w)) == 1.0
    ensures TotalWeight(SortedPositive(Zip(values, w))) == 1.0
    ensures WeightedSum(SortedPositive(Zip(values, w))) == Dot(w, values)
    ensures WeightedSum(Select(Zip(values, w), HasWeight)) == Dot(w, values)
  {
    DotIsWeightedSum(w, values);
    SortedPositiveKeepsTotal(Zip(values, w));
    PositiveRowsKeepSums(Zip(values, w));
  }
}
