/** The flood-risk overlay: the share of each target lying in the flood-risk zone (with or without
    the always-underwater area removed first), the 'Seine et Berges' override of the SeLoger
    quartiers, and the statistics the Paris analysis derives from the share, reading a target as a
    two-point distribution: value 1 (at risk) with weight `p`, value 0 with weight `1 - p`. */
module FloodRisk {
  import opened Common
  import opened Geometry
  import opened Rounding
  import WeightedStats

  /** `shape.intersection(flood).area / shape.area`; a shape of area 0 raises ZeroDivisionError. */
  function FloodProportion(shape: Region, flood: Region): (r: Result<real>)
    ensures r.Err? <==> shape == {}
    ensures r.Err? ==> r.error == ZeroDivision
    ensures r.Ok? ==> 0.0 <= r.value <= 1.0
  {
    if Area(shape) == 0.0 then Err(ZeroDivision)
    else
      AreaMonotone(shape * flood, shape);
      Ok(Area(shape * flood) / Area(shape))
  }

  /** `shape.difference(underwater).intersection(flood).area / shape.difference(underwater).area`:
      the share at risk of the part of the shape that is not always under water. */
  function DryFloodProportion(shape: Region, underwater: Region, flood: Region): (r: Result<real>)
    ensures r.Err? <==> shape <= underwater
    ensures r.Err? ==> r.error == ZeroDivision
    ensures r.Ok? ==> 0.0 <= r.value <= 1.0
  {
    DryPartEmpty(shape, underwater);
    FloodProportion(shape - underwater, flood)
  }

  lemma DryPartEmpty(shape: Region, underwater: Region)
    ensures shape - underwater == {} <==> shape <= underwater
  {
    if !(shape <= underwater) {
      var c :| c in shape && c !in underwater;
      assert c in shape - underwater;
    }
  }

  /** A shape inside the flood zone is entirely at risk. */
  lemma ProportionInside(shape: Region, flood: Region)
    requires shape != {} && shape <= flood
    ensures FloodProportion(shape, flood) == Ok(1.0)
  {
    assert shape * flood == shape;
    DivideSelf(Area(shape));
  }

  lemma DivideSelf(a: real)
    requires a > 0.0
    ensures a / a == 1.0
  {
  }

  /** A shape disjoint from the flood zone is not at risk at all. */
  lemma ProportionDisjoint(shape: Region, flood: Region)
    requires shape != {} && shape !! flood
    ensures FloodProportion(shape, flood) == Ok(0.0)
  {
    assert shape * flood == {};
  }

  /** Enlarging the flood zone never lowers the proportion. */
  lemma ProportionMonotone(shape: Region, flood1: Region, flood2: Region)
    requires shape != {} && flood1 <= flood2
    ensures FloodProportion(shape, flood1).value <= FloodProportion(shape, flood2).value
  {
    AreaMonotone(shape * flood1, shape * flood2);
    DivideMonotone(Area(shape * flood1), Area(shape * flood2), Area(shape));
  }

  lemma DivideMonotone(x: real, y: real, a: real)
    requires x <= y && a > 0.0
    ensures x / a <= y / a
  {
  }

  /** The proportions of two disjoint flood zones add up. */
  lemma ProportionAdditive(shape: Region, flood1: Region, flood2: Region)
    requires shape != {} && flood1 !! flood2
    ensures FloodProportion(shape, flood1 + flood2).value ==
            FloodProportion(shape, flood1).value + FloodProportion(shape, flood2).value
  {
    assert shape * (flood1 + flood2) == shape * flood1 + shape * flood2;
    AreaDisjointUnion(shape * flood1, shape * flood2);
    DivideAdd(Area(shape * flood1), Area(shape * flood2), Area(shape));
  }

  lemma DivideAdd(x: real, y: real, a: real)
    requires a > 0.0
    ensures (x + y) / a == x / a + y / a
  {
  }

  /** The shares at risk and not at risk make up the whole shape. */
  lemma ProportionComplement(shape: Region, flood: Region)
    requires shape != {}
    ensures FloodProportion(shape, flood).value + FloodProportion(shape, shape - flood).value == 1.0
  {
    assert shape * flood + shape * (shape - flood) == shape;
    ProportionAdditive(shape, shape * flood, shape - flood);
    ProportionInside(shape, shape);
    assert shape * (shape * flood) == shape * flood;
  }

  /** Flood zone lying under permanent water counts for nothing. */
  lemma UnderwaterFloodIgnored(shape: Region, underwater: Region, flood: Region)
    ensures DryFloodProportion(shape, underwater, flood) == DryFloodProportion(shape, underwater, flood - underwater)
  {
    assert (shape - underwater) * flood == (shape - underwater) * (flood - underwater);
  }

  /** Water the shape does not touch changes nothing: without underwater area the proportion is the
      plain one of the SeLoger and council scripts. */
  lemma DryWithoutUnderwater(shape: Region, underwater: Region, flood: Region)
    requires shape !! underwater
    ensures DryFloodProportion(shape, underwater, flood) == FloodProportion(shape, flood)
  {
    assert shape - underwater == shape;
  }

  /** A target whose dry part lies inside the flood zone gets 1, one whose dry part misses it gets 0. */
  lemma DryInsideOrDisjoint(shape: Region, underwater: Region, flood: Region)
    requires !(shape <= underwater)
    ensures shape - underwater <= flood ==> DryFloodProportion(shape, underwater, flood) == Ok(1.0)
    ensures (shape - underwater) !! flood ==> DryFloodProportion(shape, underwater, flood) == Ok(0.0)
  {
    var dry := shape - underwater;
    DryPartEmpty(shape, underwater);
    if dry <= flood {
      ProportionInside(dry, flood);
    }
    if dry !! flood {
      ProportionDisjoint(dry, flood);
    }
  }

  lemma DryMonotone(shape: Region, underwater: Region, flood1: Region, flood2: Region)
    requires !(shape <= underwater) && flood1 <= flood2
    ensures DryFloodProportion(shape, underwater, flood1).value <= DryFloodProportion(shape, underwater, flood2).value
  {
    DryPartEmpty(shape, underwater);
    ProportionMonotone(shape - underwater, flood1, flood2);
  }

  /** `gdf.geometry.apply(...)` with the dry proportion, one value per row in row order; the first
      row whose dry part is empty raises. */
  function DryFloodColumn(shapes: seq<Region>, underwater: Region, flood: Region): (r: Result<seq<real>>)
    ensures r.Ok? <==> forall i :: 0 <= i < |shapes| ==> !(shapes[i] <= underwater)
    ensures r.Err? ==> r.error == ZeroDivision
    ensures r.Ok? ==> |r.value| == |shapes|
    ensures r.Ok? ==> forall i :: 0 <= i < |shapes| ==> DryFloodProportion(shapes[i], underwater, flood) == Ok(r.value[i])
  {
    if shapes == [] then Ok([])
    else
      match DryFloodProportion(shapes[0], underwater, flood)
      case Err(e) => Err(e)
      case Ok(p) =>
        match DryFloodColumn(shapes[1..], underwater, flood)
        case Err(e) =>
          assert !(forall i :: 0 <= i < |shapes[1..]| ==> !(shapes[1..][i] <= underwater));
          Err(e)
        case Ok(rest) => Ok([p] + rest)
  }

  /** The plain proportion `shape.intersection(flood).area / shape.area` of every row. */
  function FloodColumn(shapes: seq<Region>, flood: Region): (r: Result<seq<real>>)
    ensures r.Ok? <==> forall i :: 0 <= i < |shapes| ==> shapes[i] != {}
    ensures r.Err? ==> r.error == ZeroDivision
    ensures r.Ok? ==> |r.value| == |shapes|
    ensures r.Ok? ==> forall i :: 0 <= i < |shapes| ==> FloodProportion(shapes[i], flood) == Ok(r.value[i])
  {
    var r := DryFloodColumn(shapes, {}, flood);
    forall i | 0 <= i < |shapes| ensures DryFloodProportion(shapes[i], {}, flood) == FloodProportion(shapes[i], flood) {
      DryWithoutUnderwater(shapes[i], {}, flood);
    }
    r
  }

  /** codes_postaux: each postal code's dry proportion at flood risk. */
  function CodesPostauxFloodRisk(shapes: seq<Region>, underwater: Region, flood: Region): (r: Result<seq<real>>)
    ensures r.Ok? <==> forall i :: 0 <= i < |shapes| ==> !(shapes[i] <= underwater)
    ensures r.Ok? ==> |r.value| == |shapes| && forall i :: 0 <= i < |shapes| ==> 0.0 <= r.value[i] <= 1.0
    ensures r.Ok? ==> forall i :: 0 <= i < |shapes| ==> shapes[i] - underwater <= flood ==> r.value[i] == 1.0
    ensures r.Ok? ==> forall i :: 0 <= i < |shapes| ==> (shapes[i] - underwater) !! flood ==> r.value[i] == 0.0
  {
    var r := DryFloodColumn(shapes, underwater, flood);
    forall i | r.Ok? && 0 <= i < |shapes|
      ensures shapes[i] - underwater <= flood ==> r.value[i] == 1.0
      ensures (shapes[i] - underwater) !! flood ==> r.value[i] == 0.0
    {
      DryInsideOrDisjoint(shapes[i], underwater, flood);
    }
    r
  }

  /** conseils_de_quartier: each council's plain proportion at flood risk. */
  function ConseilsFloodRisk(shapes: seq<Region>, flood: Region): (r: Result<seq<real>>)
    ensures r.Ok? <==> forall i :: 0 <= i < |shapes| ==> shapes[i] != {}
    ensures r.Ok? ==> |r.value| == |shapes| && forall i :: 0 <= i < |shapes| ==> 0.0 <= r.value[i] <= 1.0
    ensures r.Ok? ==> forall i :: 0 <= i < |shapes| ==> shapes[i] <= flood ==> r.value[i] == 1.0
    ensures r.Ok? ==> forall i :: 0 <= i < |shapes| ==> shapes[i] !! flood ==> r.value[i] == 0.0
  {
    var r := FloodColumn(shapes, flood);
    forall i | r.Ok? && 0 <= i < |shapes|
      ensures shapes[i] <= flood ==> r.value[i] == 1.0
      ensures shapes[i] !! flood ==> r.value[i] == 0.0
    {
      if shapes[i] <= flood { ProportionInside(shapes[i], flood); }
      if shapes[i] !! flood { ProportionDisjoint(shapes[i], flood); }
    }
    r
  }

  /** Enlarging the flood zone lowers no council's proportion. */
  lemma ConseilsMonotone(shapes: seq<Region>, flood1: Region, flood2: Region)
    requires flood1 <= flood2 && ConseilsFloodRisk(shapes, flood1).Ok?
    ensures ConseilsFloodRisk(shapes, flood2).Ok?
    ensures forall i :: 0 <= i < |shapes| ==> ConseilsFloodRisk(shapes, flood1).value[i] <= ConseilsFloodRisk(shapes, flood2).value[i]
  {
    forall i | 0 <= i < |shapes|
      ensures ConseilsFloodRisk(shapes, flood1).value[i] <= ConseilsFloodRisk(shapes, flood2).value[i]
    {
      ProportionMonotone(shapes[i], flood1, flood2);
    }
  }

  // ---- The SeLoger quartiers: plain proportion, then the river rows set to 1.0 ----

  const SEINE_ET_BERGES: string := "Seine et Berges"

  datatype Quartier = Quartier(name: string, codePostal: string, shape: Region)

  /** The proportion column after `.loc[name == 'Seine et Berges', 'prop_at_flood_risk'] = 1.0`. */
  function Overridden(names: seq<string>, props: seq<real>): (r: seq<real>)
    requires |names| == |props|
    ensures |r| == |props|
    ensures forall i :: 0 <= i < |r| ==> r[i] == if names[i] == SEINE_ET_BERGES then 1.0 else props[i]
  {
    if props == [] then []
    else [if names[0] == SEINE_ET_BERGES then 1.0 else props[0]] + Overridden(names[1..], props[1..])
  }

  /** Setting the river rows twice is setting them once. */
  lemma OverriddenIdempotent(names: seq<string>, props: seq<real>)
    requires |names| == |props|
    ensures Overridden(names, Overridden(names, props)) == Overridden(names, props)
  {
  }

  /** The override keeps a column of proportions a column of proportions. */
  lemma OverriddenInUnit(names: seq<string>, props: seq<real>)
    requires |names| == |props| && forall i :: 0 <= i < |props| ==> 0.0 <= props[i] <= 1.0
    ensures forall i :: 0 <= i < |props| ==> 0.0 <= Overridden(names, props)[i] <= 1.0
  {
  }

  /** The masked assignment, in place on the proportion column. */
  method OverrideSeineEtBerges(names: seq<string>, props: array<real>)
    requires props.Length == |names|
    modifies props
    ensures props[..] == Overridden(names, old(props[..]))
  {
    forall i | 0 <= i < props.Length && names[i] == SEINE_ET_BERGES {
      props[i] := 1.0;
    }
  }

  function Names(rows: seq<Quartier>): (r: seq<string>)
    ensures |r| == |rows| && forall i :: 0 <= i < |rows| ==> r[i] == rows[i].name
  {
    if rows == [] then [] else [rows[0].name] + Names(rows[1..])
  }

  function Shapes(rows: seq<Quartier>): (r: seq<Region>)
    ensures |r| == |rows| && forall i :: 0 <= i < |rows| ==> r[i] == rows[i].shape
  {
    if rows == [] then [] else [rows[0].shape] + Shapes(rows[1..])
  }

  /** seloger_quartiers: the plain proportion of every quartier, then 1.0 on every 'Seine et
      Berges' row whatever its geometry; the other rows keep their proportion. */
  method SelogerQuartiersFloodRisk(rows: seq<Quartier>, flood: Region) returns (r: Result<seq<real>>)
    ensures r.Ok? <==> forall i :: 0 <= i < |rows| ==> rows[i].shape != {}
    ensures r.Err? ==> r.error == ZeroDivision
    ensures r.Ok? ==> |r.value| == |rows|
    ensures r.Ok? ==> forall i :: 0 <= i < |rows| ==> rows[i].name == SEINE_ET_BERGES ==> r.value[i] == 1.0
    ensures r.Ok? ==> forall i :: 0 <= i < |rows| ==> rows[i].name != SEINE_ET_BERGES ==>
      FloodProportion(rows[i].shape, flood) == Ok(r.value[i])
    ensures r.Ok? ==> forall i :: 0 <= i < |rows| ==> 0.0 <= r.value[i] <= 1.0
  {
    var column := FloodColumn(Shapes(rows), flood);
    if column.Err? {
      return Err(column.error);
    }
    var props := new real[|rows|](i requires 0 <= i < |rows| => column.value[i]);
    assert props[..] == column.value;
    OverrideSeineEtBerges(Names(rows), props);
    OverriddenInUnit(Names(rows), column.value);
    return Ok(props[..]);
  }

  // ---- The Paris councils: the statistics of the proportion ----

  /** One council's statistics. `variance` is the square of the reported `std`;
      `cutoffDeltas[i]` is the `{c}_delta` column of cutoff `CUTOFFS[i]`. */
  datatype FloodStats = FloodStats(
    mean: real, median: real, mode: real, variance: real,
    meanDelta: real, medianDelta: real, modeDelta: real, cutoffDeltas: seq<real>)

  /** `round()` of the proportion, which is half to even. */
  function Median(p: real): (r: real)
    ensures 0.0 <= p <= 1.0 ==> r == if p <= 0.5 then 0.0 else 1.0
  {
    if 0.0 <= p <= 1.0 then RoundUnitInterval(p); RoundHalfEven(p) as real
    else RoundHalfEven(p) as real
  }

  /** `((1 - p) <= c) - mode`, the cutoff delta as the script computes it. */
  function CutoffDeltaAsWritten(p: real, c: real): real
  {
    (if 1.0 - p <= c then 1.0 else 0.0) - Median(p)
  }

  /** The weighted `c`-percentile of the two-point distribution, the rule of the other analyses:
      the smaller value of positive weight whose cumulative weight reaches `c`. */
  function Quantile(p: real, c: real): real
  {
    if p < 1.0 && 1.0 - p >= c then 0.0 else 1.0
  }

  /** The cutoff delta, corrected: the `c`-percentile minus the mode. */
  function CutoffDelta(p: real, c: real): real
  {
    Quantile(p, c) - Median(p)
  }

  /** One council's row as the script computes it, the cutoff deltas included. */
  function Statistics(p: real): (s: FloodStats)
    ensures |s.cutoffDeltas| == |WeightedStats.CUTOFFS|
    ensures forall i :: 0 <= i < |s.cutoffDeltas| ==> s.cutoffDeltas[i] == CutoffDeltaAsWritten(p, WeightedStats.CUTOFFS[i])
  {
    var median := Median(p);
    var meanDelta := p - median;
    var medianDelta := RoundHalfEven(meanDelta) as real;
    FloodStats(p, median, median, p * (1.0 - p), meanDelta, medianDelta, medianDelta,
      seq(|WeightedStats.CUTOFFS|, i requires 0 <= i < |WeightedStats.CUTOFFS| => CutoffDeltaAsWritten(p, WeightedStats.CUTOFFS[i])))
  }

  /** The row with the corrected cutoff deltas: every other column as the script computes it. */
  function CorrectedStatistics(p: real): (s: FloodStats)
    ensures s.(cutoffDeltas := Statistics(p).cutoffDeltas) == Statistics(p)
    ensures |s.cutoffDeltas| == |WeightedStats.CUTOFFS|
    ensures forall i :: 0 <= i < |s.cutoffDeltas| ==> s.cutoffDeltas[i] == CutoffDelta(p, WeightedStats.CUTOFFS[i])
  {
    Statistics(p).(cutoffDeltas :=
      seq(|WeightedStats.CUTOFFS|, i requires 0 <= i < |WeightedStats.CUTOFFS| => CutoffDelta(p, WeightedStats.CUTOFFS[i])))
  }

  /** The script's row and the corrected one differ only in the cutoff deltas, and there exactly
      at the cutoffs that equal the weight `1 - p` of the value 0. */
  lemma StatisticsVersusCorrected(p: real)
    requires 0.0 <= p <= 1.0
    ensures forall i :: 0 <= i < |WeightedStats.CUTOFFS| ==>
      (Statistics(p).cutoffDeltas[i] != CorrectedStatistics(p).cutoffDeltas[i] <==>
       WeightedStats.CUTOFFS[i] > 0.0 && p == 1.0 - WeightedStats.CUTOFFS[i])
  {
    WeightedStats.CutoffsUpToOne();
    forall i | 0 <= i < |WeightedStats.CUTOFFS|
      ensures Statistics(p).cutoffDeltas[i] != CorrectedStatistics(p).cutoffDeltas[i] <==>
        WeightedStats.CUTOFFS[i] > 0.0 && p == 1.0 - WeightedStats.CUTOFFS[i]
    {
      AsWrittenVersusCorrected(p, WeightedStats.CUTOFFS[i]);
    }
  }

  /** Median and mode are 0 or 1, with a proportion of exactly one half going to 0. */
  lemma MedianOfProportion(p: real)
    requires 0.0 <= p <= 1.0
    ensures Statistics(p).median == Statistics(p).mode == if p <= 0.5 then 0.0 else 1.0
  {
  }

  /** `std` is the root of `p (1 - p)`, which lies in [0, 1/4]; so `std` lies in [0, 1/2]. */
  lemma VarianceBounds(p: real)
    requires 0.0 <= p <= 1.0
    ensures 0.0 <= Statistics(p).variance <= 0.25
  {
    assert Statistics(p).variance == p * (1.0 - p);
    BernoulliVariance(p);
  }

  lemma BernoulliVariance(p: real)
    requires 0.0 <= p <= 1.0
    ensures 0.0 <= p * (1.0 - p) <= 0.25
  {
    var q := p - 0.5;
    assert p * (1.0 - p) == 0.25 - q * q;
    assert q * q >= 0.0;
    MulNonNegative(p, 1.0 - p);
  }

  lemma MulNonNegative(a: real, b: real)
    requires a >= 0.0 && b >= 0.0
    ensures a * b >= 0.0
  {
  }

  lemma StdBounds(p: real, std: real)
    requires 0.0 <= p <= 1.0 && std >= 0.0 && std * std == Statistics(p).variance
    ensures std <= 0.5
  {
    VarianceBounds(p);
  }

  /** `mean_delta` lies in (-1/2, 1/2], so its rounding `median_delta` = `mode_delta` is 0. */
  lemma DeltasOfProportion(p: real)
    requires 0.0 <= p <= 1.0
    ensures -0.5 < Statistics(p).meanDelta <= 0.5
    ensures Statistics(p).medianDelta == Statistics(p).modeDelta == 0.0
  {
    var d := p - Median(p);
    var r := RoundHalfEven(d);
    if d == 0.5 {
      assert r == 0 || r == 1;
      assert r % 2 == 0;
    }
  }

  /** As the script computes them, cutoff deltas are -1, 0 or 1, grow with the cutoff, and at the
      cutoff 1 equal `1 - mode`. */
  lemma AsWrittenRange(p: real, c: real)
    requires 0.0 <= p <= 1.0
    ensures CutoffDeltaAsWritten(p, c) in {-1.0, 0.0, 1.0}
    ensures CutoffDeltaAsWritten(p, 1.0) == 1.0 - Median(p)
  {
  }

  lemma AsWrittenMonotone(p: real, c1: real, c2: real)
    requires c1 <= c2
    ensures CutoffDeltaAsWritten(p, c1) <= CutoffDeltaAsWritten(p, c2)
  {
  }

  /** The 0.5 cutoff delta as written is 1 at p = 1/2, while `median_delta` is 0: the cutoff
      rule counts the value 1 as reached when the weight of 0 only equals the cutoff. Likewise a
      council with no flood risk gets the 1.0 delta 1, though the value 1 has no weight. */
  lemma AsWrittenDisagreesWithMedian()
    ensures WeightedStats.CUTOFFS[3] == 0.5 && Statistics(0.5).cutoffDeltas[3] == 1.0
    ensures Statistics(0.5).medianDelta == 0.0
    ensures WeightedStats.CUTOFFS[6] == 1.0 && Statistics(0.0).cutoffDeltas[6] == 1.0
    ensures Statistics(0.0).median == 0.0
  {
    DeltasOfProportion(0.5);
  }

  /** As the script computes them, the cutoff deltas of a row are -1, 0 or 1, non-decreasing
      along the ascending cutoffs, and the last is `1 - mode`. */
  lemma AsWrittenDeltasOfProportion(p: real)
    requires 0.0 <= p <= 1.0
    ensures forall i :: 0 <= i < |Statistics(p).cutoffDeltas| ==> Statistics(p).cutoffDeltas[i] in {-1.0, 0.0, 1.0}
    ensures forall i, j :: 0 <= i <= j < |Statistics(p).cutoffDeltas| ==>
      Statistics(p).cutoffDeltas[i] <= Statistics(p).cutoffDeltas[j]
    ensures Statistics(p).cutoffDeltas[6] == 1.0 - Statistics(p).mode
  {
    WeightedStats.CutoffsAscending();
    WeightedStats.CutoffsUpToOne();
    var s := Statistics(p);
    forall i | 0 <= i < |s.cutoffDeltas| ensures s.cutoffDeltas[i] in {-1.0, 0.0, 1.0} {
      AsWrittenRange(p, WeightedStats.CUTOFFS[i]);
    }
    forall i, j | 0 <= i <= j < |s.cutoffDeltas| ensures s.cutoffDeltas[i] <= s.cutoffDeltas[j] {
      AsWrittenMonotone(p, WeightedStats.CUTOFFS[i], WeightedStats.CUTOFFS[j]);
    }
    AsWrittenRange(p, 1.0);
  }

  /** The two rules differ exactly where the weight of 0 equals a positive cutoff. */
  lemma AsWrittenVersusCorrected(p: real, c: real)
    requires 0.0 <= p <= 1.0 && 0.0 <= c <= 1.0
    ensures CutoffDeltaAsWritten(p, c) != CutoffDelta(p, c) <==> c > 0.0 && p == 1.0 - c
  {
  }

  /** The corrected quantile is the weighted percentile of the two-point distribution: a value of
      positive weight, the first whose cumulative weight (`1 - p` for 0, 1 for 1) reaches `c`. */
  lemma QuantileIsPercentile(p: real, c: real)
    requires 0.0 <= p <= 1.0 && c <= 1.0
    ensures Quantile(p, c) == 0.0 ==> 1.0 - p > 0.0 && 1.0 - p >= c
    ensures Quantile(p, c) == 1.0 ==> p > 0.0 && !(1.0 - p > 0.0 && 1.0 - p >= c)
    ensures Quantile(p, c) in {0.0, 1.0}
  {
  }

  /** With the corrected rule the 0.5 cutoff is the median, so its delta is `median_delta`. */
  lemma CutoffAtHalfIsMedian(p: real)
    requires 0.0 <= p <= 1.0
    ensures Quantile(p, 0.5) == CorrectedStatistics(p).median
    ensures WeightedStats.CUTOFFS[3] == 0.5 && CorrectedStatistics(p).cutoffDeltas[3] == CorrectedStatistics(p).medianDelta
  {
    DeltasOfProportion(p);
  }

  /** Corrected cutoff deltas are -1, 0 or 1 and non-decreasing along the ascending cutoffs. */
  lemma CutoffDeltasOfProportion(p: real)
    requires 0.0 <= p <= 1.0
    ensures forall i :: 0 <= i < |CorrectedStatistics(p).cutoffDeltas| ==> CorrectedStatistics(p).cutoffDeltas[i] in {-1.0, 0.0, 1.0}
    ensures forall i, j :: 0 <= i <= j < |CorrectedStatistics(p).cutoffDeltas| ==>
      CorrectedStatistics(p).cutoffDeltas[i] <= CorrectedStatistics(p).cutoffDeltas[j]
  {
    WeightedStats.CutoffsAscending();
    var s := CorrectedStatistics(p);
    forall i, j | 0 <= i <= j < |s.cutoffDeltas| ensures s.cutoffDeltas[i] <= s.cutoffDeltas[j] {
      QuantileMonotone(p, WeightedStats.CUTOFFS[i], WeightedStats.CUTOFFS[j]);
    }
  }

  lemma QuantileMonotone(p: real, c1: real, c2: real)
    requires c1 <= c2
    ensures Quantile(p, c1) <= Quantile(p, c2)
  {
  }

  /** spatial_analysis: one row of statistics per council, from its dry proportion at risk, with
      the cutoff deltas as the script computes them. */
  function ParisFloodStatistics(shapes: seq<Region>, underwater: Region, flood: Region): (r: Result<seq<FloodStats>>)
    ensures r.Ok? <==> forall i :: 0 <= i < |shapes| ==> !(shapes[i] <= underwater)
    ensures r.Ok? ==> |r.value| == |shapes|
    ensures r.Ok? ==> forall i :: 0 <= i < |shapes| ==>
      DryFloodProportion(shapes[i], underwater, flood) == Ok(r.value[i].mean) && 0.0 <= r.value[i].mean <= 1.0
    ensures r.Ok? ==> forall i :: 0 <= i < |shapes| ==> r.value[i] == Statistics(r.value[i].mean)
  {
    match DryFloodColumn(shapes, underwater, flood)
    case Err(e) => Err(e)
    case Ok(props) => Ok(seq(|props|, i requires 0 <= i < |props| => Statistics(props[i])))
  }
}
