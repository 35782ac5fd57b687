/** The heat-stress averages: each target unit (postal code, council or SeLoger quartier) gets the
    overlap-weighted average of the 22 numeric columns of the IMU (urban morphology block) table,
    and, for the Île-de-France postal codes, the postal-code shapes are first built from the IRIS
    units through the IRIS-commune and commune-postal-code crosswalks. */
module HeatStress {
  import opened Common
  import opened Sums
  import opened Tables
  import opened Geometry
  import opened Overlay
  import opened Averages

  /** The length of `numeric_cols`, svf through st_lengths. */
  const COLUMNS: nat := 22

  /** An IMU polygon with its `numeric_cols` row. */
  datatype Imu = Imu(shape: Region, values: seq<real>)

  ghost predicate WellFormed(imus: seq<Imu>)
  {
    forall i :: 0 <= i < |imus| ==> |imus[i].values| == COLUMNS
  }

  function Shapes(imus: seq<Imu>): (r: seq<Region>)
    ensures |r| == |imus| && forall i :: 0 <= i < |imus| ==> r[i] == imus[i].shape
  {
    seq(|imus|, i requires 0 <= i < |imus| => imus[i].shape)
  }

  function Table(imus: seq<Imu>): (r: seq<seq<real>>)
    requires WellFormed(imus)
    ensures |r| == |imus| && Rectangular(r, COLUMNS)
    ensures forall i :: 0 <= i < |imus| ==> r[i] == imus[i].values
  {
    seq(|imus|, i requires 0 <= i < |imus| => imus[i].values)
  }

  /** `gdf_hs[numeric_cols].multiply(geo_weight, axis = 0).sum()` for one target. */
  function TargetRow(target: Region, imus: seq<Imu>): (r: seq<real>)
    requires WellFormed(imus)
    ensures |r| == COLUMNS
  {
    SkipNanMeans(Weights(target, Shapes(imus)), Table(imus), COLUMNS)
  }

  /** A target overlapping no IMU gets NaN weights, which the sum skips: every average is 0. */
  lemma TargetRowWithoutOverlap(target: Region, imus: seq<Imu>)
    requires WellFormed(imus)
    requires forall i :: 0 <= i < |imus| ==> !Intersects(target, imus[i].shape)
    ensures TargetRow(target, imus) == Const(COLUMNS, 0.0)
  {
    MeansWithoutOverlap(OverlapAreas(target, Shapes(imus)), Table(imus), COLUMNS);
  }

  /** Each average of an overlapping target lies between the least and the largest value of its
      column over the IMUs it overlaps. */
  lemma TargetRowBounds(target: Region, imus: seq<Imu>, j: nat, lo: real, hi: real)
    requires WellFormed(imus) && j < COLUMNS && Weights(target, Shapes(imus)).Some?
    requires forall i :: 0 <= i < |imus| && Intersects(target, imus[i].shape) ==> lo <= imus[i].values[j] <= hi
    ensures lo <= TargetRow(target, imus)[j] <= hi
  {
    MeanWithinColumnBounds(OverlapAreas(target, Shapes(imus)), Table(imus), COLUMNS, j, lo, hi);
  }

  /** A column constant over the IMUs averages to that constant. */
  lemma TargetRowConstant(target: Region, imus: seq<Imu>, j: nat, v: real)
    requires WellFormed(imus) && j < COLUMNS && Weights(target, Shapes(imus)).Some?
    requires forall i :: 0 <= i < |imus| ==> imus[i].values[j] == v
    ensures TargetRow(target, imus)[j] == v
  {
    MeanOfConstantColumn(OverlapAreas(target, Shapes(imus)), Table(imus), COLUMNS, j, v);
  }

  /** `for cp in gdf_cp.index`: the `geo_weight` column is overwritten for each target and one row
      of averages appended per target, in index order. */
  method AverageAll(targets: seq<Region>, imus: seq<Imu>) returns (series: seq<seq<real>>)
    requires WellFormed(imus)
    ensures |series| == |targets|
    ensures forall k :: 0 <= k < |targets| ==> series[k] == TargetRow(targets[k], imus)
  {
    var table := Table(imus);
    series := [];
    var k := 0;
    while k < |targets|
      invariant 0 <= k <= |targets| && |series| == k
      invariant forall j :: 0 <= j < k ==> series[j] == TargetRow(targets[j], imus)
    {
      var geoWeight := Weights(targets[k], Shapes(imus));
      series := series + [SkipNanMeans(geoWeight, table, COLUMNS)];
      k := k + 1;
    }
  }

  // The postal-code shapes of the Île-de-France heat-stress script.

  /** A row of the commune-postal-code crosswalk. */
  datatype Crosswalk = Crosswalk(depcom: string, cp: string)

  /** The one known error of the crosswalk: postal code 93380 (Pierrefitte-sur-Seine) belongs to
      commune 93059. */
  const PIERREFITTE_CP: string := "93380"
  const PIERREFITTE_DEPCOM: string := "93059"

  function FixRow(row: Crosswalk): Crosswalk
  {
    if row.cp == PIERREFITTE_CP then row.(depcom := PIERREFITTE_DEPCOM) else row
  }

  /** `df_cc.loc[df_cc.CP == '93380', 'DEPCOM'] = '93059'` as a function of the table. */
  function FixCrosswalk(rows: seq<Crosswalk>): (r: seq<Crosswalk>)
    ensures |r| == |rows|
  {
    seq(|rows|, i requires 0 <= i < |rows| => FixRow(rows[i]))
  }

  /** The correction touches only the rows of postal code 93380, gives them commune 93059, keeps
      every postal code, and a second correction changes nothing. */
  lemma FixCrosswalkSpec(rows: seq<Crosswalk>)
    ensures forall i :: 0 <= i < |rows| ==> FixCrosswalk(rows)[i].cp == rows[i].cp
    ensures forall i :: 0 <= i < |rows| && rows[i].cp == PIERREFITTE_CP ==> FixCrosswalk(rows)[i].depcom == PIERREFITTE_DEPCOM
    ensures forall i :: 0 <= i < |rows| && rows[i].cp != PIERREFITTE_CP ==> FixCrosswalk(rows)[i] == rows[i]
    ensures FixCrosswalk(FixCrosswalk(rows)) == FixCrosswalk(rows)
  {
  }

  /** The same correction applied in place, row by row. */
  method FixCrosswalkInPlace(a: array<Crosswalk>)
    modifies a
    ensures a[..] == FixCrosswalk(old(a[..]))
  {
    var k := 0;
    while k < a.Length
      invariant 0 <= k <= a.Length
      invariant forall i :: 0 <= i < k ==> a[i] == FixRow(old(a[i]))
      invariant forall i :: k <= i < a.Length ==> a[i] == old(a[i])
    {
      if a[k].cp == PIERREFITTE_CP {
        a[k] := a[k].(depcom := PIERREFITTE_DEPCOM);
      }
      k := k + 1;
    }
  }

  /** An IRIS unit; `IrisCommune` a row of the IRIS-commune crosswalk with its region code. */
  datatype Iris = Iris(code: string, shape: Region)
  datatype IrisCommune = IrisCommune(code: string, depcom: string, reg: int)

  /** The Île-de-France region code kept by `.query('REG == 11')`. */
  const ILE_DE_FRANCE: int := 11

  /** A joined row: a shape, its commune, and its postal code once merged (`None` when no
      crosswalk row matches its commune). */
  datatype Unit = Unit(shape: Region, depcom: string)
  datatype Merged = Merged(shape: Region, cp: Option<string>)
  datatype PostalUnit = PostalUnit(cp: string, shape: Region)

  /** `gdf_ir.join(df_ic, how = 'inner')`: each IRIS unit with each Île-de-France crosswalk row of
      its code. */
  function JoinCommunes(iris: seq<Iris>, ic: seq<IrisCommune>): seq<Unit>
  {
    if iris == [] then [] else JoinOne(iris[0], ic) + JoinCommunes(iris[1..], ic)
  }

  /** The join for one IRIS unit: one row per Île-de-France crosswalk row of its code. */
  function JoinOne(r: Iris, ic: seq<IrisCommune>): seq<Unit>
  {
    var matches := Select(ic, (row: IrisCommune) => row.code == r.code && row.reg == ILE_DE_FRANCE);
    seq(|matches|, k requires 0 <= k < |matches| => Unit(r.shape, matches[k].depcom))
  }

  /** `.merge(df_cc, how = 'left', on = 'DEPCOM')` for one unit: one row per crosswalk row of its
      commune, or a single row with a missing postal code. */
  function MergeOne(u: Unit, cc: seq<Crosswalk>): seq<Merged>
  {
    var matches := Select(cc, (row: Crosswalk) => row.depcom == u.depcom);
    if matches == [] then [Merged(u.shape, None)]
    else seq(|matches|, k requires 0 <= k < |matches| => Merged(u.shape, Some(matches[k].cp)))
  }

  function MergePostal(units: seq<Unit>, cc: seq<Crosswalk>): seq<Merged>
  {
    if units == [] then [] else MergeOne(units[0], cc) + MergePostal(units[1..], cc)
  }

  /** `.dropna(subset = 'CP')`. */
  function DropMissing(rows: seq<Merged>): (r: seq<PostalUnit>)
  {
    if rows == [] then []
    else match rows[0].cp
      case None => DropMissing(rows[1..])
      case Some(cp) => [PostalUnit(cp, rows[0].shape)] + DropMissing(rows[1..])
  }

  /** The IRIS units with their postal codes, before the dissolve. */
  function PostalUnits(iris: seq<Iris>, ic: seq<IrisCommune>, cc: seq<Crosswalk>): seq<PostalUnit>
  {
    DropMissing(MergePostal(JoinCommunes(iris, ic), cc))
  }

  /** `.dissolve(by = 'CP')` for one postal code: the union of the shapes carrying it. */
  function Dissolved(units: seq<PostalUnit>, cp: string): Region
  {
    if units == [] then {}
    else (if units[0].cp == cp then units[0].shape else {}) + Dissolved(units[1..], cp)
  }

  /** A cell belongs to the dissolved shape of a postal code exactly when some unit of that code
      covers it. */
  lemma {:induction false} DissolvedCells(units: seq<PostalUnit>, cp: string, x: Cell)
    ensures x in Dissolved(units, cp) <==> exists i :: 0 <= i < |units| && units[i].cp == cp && x in units[i].shape
  {
    if units != [] {
      DissolvedCells(units[1..], cp, x);
      if x in Dissolved(units[1..], cp) {
        var i :| 0 <= i < |units[1..]| && units[1..][i].cp == cp && x in units[1..][i].shape;
        assert units[i + 1] == units[1..][i];
      }
      forall i | 1 <= i < |units| && units[i].cp == cp && x in units[i].shape
        ensures x in Dissolved(units[1..], cp)
      {
        assert units[1..][i - 1] == units[i];
      }
    }
  }

  /** The postal units are exactly the IRIS shapes paired with a postal code of one of their
      Île-de-France communes; an IRIS unit whose commune has no postal code is dropped. */
  lemma PostalUnitsSpec(iris: seq<Iris>, ic: seq<IrisCommune>, cc: seq<Crosswalk>, u: PostalUnit)
    ensures u in PostalUnits(iris, ic, cc) <==>
      exists i, j, k :: 0 <= i < |iris| && 0 <= j < |ic| && 0 <= k < |cc| &&
        ic[j].code == iris[i].code && ic[j].reg == ILE_DE_FRANCE && cc[k].depcom == ic[j].depcom &&
        u == PostalUnit(cc[k].cp, iris[i].shape)
  {
    var units := JoinCommunes(iris, ic);
    DropMissingSpec(MergePostal(units, cc), u);
    MergePostalSpec(units, cc, Merged(u.shape, Some(u.cp)));
    if u in PostalUnits(iris, ic, cc) {
      var m :| 0 <= m < |units| && Merged(u.shape, Some(u.cp)) in MergeOne(units[m], cc);
      PostalUnitSound(iris, ic, cc, units[m], u);
    }
    forall i, j, k | 0 <= i < |iris| && 0 <= j < |ic| && 0 <= k < |cc| &&
        ic[j].code == iris[i].code && ic[j].reg == ILE_DE_FRANCE && cc[k].depcom == ic[j].depcom &&
        u == PostalUnit(cc[k].cp, iris[i].shape)
      ensures exists m :: 0 <= m < |units| && Merged(u.shape, Some(u.cp)) in MergeOne(units[m], cc)
    {
      PostalUnitComplete(iris, ic, cc, i, j, k, u);
    }
  }

  /** One merged row carrying a postal code comes from an IRIS unit, a crosswalk row and a
      postal-code row that agree. */
  lemma PostalUnitSound(iris: seq<Iris>, ic: seq<IrisCommune>, cc: seq<Crosswalk>, unit: Unit, u: PostalUnit)
    requires unit in JoinCommunes(iris, ic)
    requires Merged(u.shape, Some(u.cp)) in MergeOne(unit, cc)
    ensures exists i, j, k ::
      0 <= i < |iris| && 0 <= j < |ic| && 0 <= k < |cc| &&
      ic[j].code == iris[i].code && ic[j].reg == ILE_DE_FRANCE && cc[k].depcom == ic[j].depcom &&
      u == PostalUnit(cc[k].cp, iris[i].shape)
  {
    MergeOneSpec(unit, cc, u.cp);
    var k :| 0 <= k < |cc| && cc[k].depcom == unit.depcom && cc[k].cp == u.cp;
    JoinCommunesSpec(iris, ic, unit);
    var i, j :| 0 <= i < |iris| && 0 <= j < |ic| && ic[j].code == iris[i].code && ic[j].reg == ILE_DE_FRANCE &&
      unit == Unit(iris[i].shape, ic[j].depcom);
    assert u == PostalUnit(cc[k].cp, iris[i].shape);
  }

  /** Conversely, agreeing rows of the three tables give a merged row carrying the postal code. */
  lemma PostalUnitComplete(iris: seq<Iris>, ic: seq<IrisCommune>, cc: seq<Crosswalk>, i: int, j: int, k: int, u: PostalUnit)
    requires 0 <= i < |iris| && 0 <= j < |ic| && 0 <= k < |cc|
    requires ic[j].code == iris[i].code && ic[j].reg == ILE_DE_FRANCE && cc[k].depcom == ic[j].depcom
    requires u == PostalUnit(cc[k].cp, iris[i].shape)
    ensures exists m ::
      0 <= m < |JoinCommunes(iris, ic)| && Merged(u.shape, Some(u.cp)) in MergeOne(JoinCommunes(iris, ic)[m], cc)
  {
    var units := JoinCommunes(iris, ic);
    var unit := Unit(iris[i].shape, ic[j].depcom);
    JoinCommunesSpec(iris, ic, unit);
    var m :| 0 <= m < |units| && units[m] == unit;
    MergeOneSpec(unit, cc, u.cp);
  }

  lemma {:induction false} DropMissingSpec(rows: seq<Merged>, u: PostalUnit)
    ensures u in DropMissing(rows) <==> Merged(u.shape, Some(u.cp)) in rows
  {
    if rows != [] {
      DropMissingSpec(rows[1..], u);
      assert rows == [rows[0]] + rows[1..];
    }
  }

  lemma {:induction false} MergePostalSpec(units: seq<Unit>, cc: seq<Crosswalk>, m: Merged)
    ensures m in MergePostal(units, cc) <==> exists i :: 0 <= i < |units| && m in MergeOne(units[i], cc)
  {
    if units != [] {
      MergePostalSpec(units[1..], cc, m);
      if m in MergePostal(units[1..], cc) {
        var i :| 0 <= i < |units[1..]| && m in MergeOne(units[1..][i], cc);
        assert units[i + 1] == units[1..][i];
      }
      forall i | 1 <= i < |units| && m in MergeOne(units[i], cc) ensures m in MergePostal(units[1..], cc) {
        assert units[1..][i - 1] == units[i];
      }
    }
  }

  lemma MergeOneSpec(u: Unit, cc: seq<Crosswalk>, cp: string)
    ensures Merged(u.shape, Some(cp)) in MergeOne(u, cc) <==>
      exists k :: 0 <= k < |cc| && cc[k].depcom == u.depcom && cc[k].cp == cp
  {
    var p := (row: Crosswalk) => row.depcom == u.depcom;
    var matches := Select(cc, p);
    if exists k :: 0 <= k < |cc| && cc[k].depcom == u.depcom && cc[k].cp == cp {
      var k :| 0 <= k < |cc| && cc[k].depcom == u.depcom && cc[k].cp == cp;
      assert p(cc[k]);
      var n :| 0 <= n < |matches| && matches[n] == cc[k];
      assert MergeOne(u, cc)[n] == Merged(u.shape, Some(cp));
    }
    if Merged(u.shape, Some(cp)) in MergeOne(u, cc) {
      var n :| 0 <= n < |matches| && Merged(u.shape, Some(matches[n].cp)) == Merged(u.shape, Some(cp));
      var k :| 0 <= k < |cc| && cc[k] == matches[n];
    }
  }

  /** The left merge leaves the postal code missing exactly when no crosswalk row has the unit's
      commune. */
  lemma MergeOneMissing(u: Unit, cc: seq<Crosswalk>)
    ensures Merged(u.shape, None) in MergeOne(u, cc) <==> forall k :: 0 <= k < |cc| ==> cc[k].depcom != u.depcom
  {
    var p := (row: Crosswalk) => row.depcom == u.depcom;
    var matches := Select(cc, p);
    if matches == [] {
      forall k | 0 <= k < |cc| ensures !p(cc[k]) {
        assert cc[k] !in matches;
      }
    } else {
      assert p(matches[0]);
      var k :| 0 <= k < |cc| && cc[k] == matches[0];
    }
  }

  lemma {:induction false} JoinCommunesSpec(iris: seq<Iris>, ic: seq<IrisCommune>, unit: Unit)
    ensures unit in JoinCommunes(iris, ic) <==>
      exists i, j :: 0 <= i < |iris| && 0 <= j < |ic| && ic[j].code == iris[i].code && ic[j].reg == ILE_DE_FRANCE &&
        unit == Unit(iris[i].shape, ic[j].depcom)
  {
    if iris != [] {
      var tail := JoinCommunes(iris[1..], ic);
      JoinCommunesSpec(iris[1..], ic, unit);
      JoinOneSpec(iris[0], ic, unit);
      if unit in tail {
        var i, j :| 0 <= i < |iris[1..]| && 0 <= j < |ic| && ic[j].code == iris[1..][i].code && ic[j].reg == ILE_DE_FRANCE &&
          unit == Unit(iris[1..][i].shape, ic[j].depcom);
        assert iris[i + 1] == iris[1..][i];
      }
      forall i, j | 1 <= i < |iris| && 0 <= j < |ic| && ic[j].code == iris[i].code && ic[j].reg == ILE_DE_FRANCE &&
          unit == Unit(iris[i].shape, ic[j].depcom)
        ensures unit in tail
      {
        assert iris[1..][i - 1] == iris[i];
      }
    }
  }

  lemma JoinOneSpec(r: Iris, ic: seq<IrisCommune>, unit: Unit)
    ensures unit in JoinOne(r, ic) <==>
      exists j :: 0 <= j < |ic| && ic[j].code == r.code && ic[j].reg == ILE_DE_FRANCE && unit == Unit(r.shape, ic[j].depcom)
  {
    var p := (row: IrisCommune) => row.code == r.code && row.reg == ILE_DE_FRANCE;
    var matches := Select(ic, p);
    if unit in JoinOne(r, ic) {
      var n :| 0 <= n < |matches| && JoinOne(r, ic)[n] == unit;
      var j :| 0 <= j < |ic| && ic[j] == matches[n];
      assert p(ic[j]);
    }
    forall j | 0 <= j < |ic| && ic[j].code == r.code && ic[j].reg == ILE_DE_FRANCE && unit == Unit(r.shape, ic[j].depcom)
      ensures unit in JoinOne(r, ic)
    {
      assert p(ic[j]);
      var n :| 0 <= n < |matches| && matches[n] == ic[j];
      assert JoinOne(r, ic)[n] == unit;
    }
  }

  /** The dissolved table: one shape per postal code present, index sorted by postal code. */
  function PostalCodes(units: seq<PostalUnit>): (r: seq<string>)
    ensures forall i, j :: 0 <= i < j < |r| ==> r[i] != r[j]
    ensures SortedBy(r, LexLeq)
    ensures forall c :: c in r <==> exists i :: 0 <= i < |units| && units[i].cp == c
  {
    var cps := seq(|units|, i requires 0 <= i < |units| => units[i].cp);
    var distinct := DedupBy(cps, (c: string) => c);
    LexLeqTotalPreorder();
    var r := SortBy(distinct, LexLeq);
    PostalCodesSpec(units, cps, distinct, r);
    r
  }

  lemma PostalCodesSpec(units: seq<PostalUnit>, cps: seq<string>, distinct: seq<string>, r: seq<string>)
    requires cps == seq(|units|, i requires 0 <= i < |units| => units[i].cp)
    requires distinct == DedupBy(cps, (c: string) => c)
    requires multiset(r) == multiset(distinct)
    ensures forall i, j :: 0 <= i < j < |r| ==> r[i] != r[j]
    ensures forall c :: c in r <==> exists i :: 0 <= i < |units| && units[i].cp == c
  {
    PermutationKeepsDistinct(distinct, r);
    forall c ensures c in distinct <==> exists i :: 0 <= i < |units| && units[i].cp == c {
      DistinctCodes(units, cps, c);
    }
  }

  lemma DistinctCodes(units: seq<PostalUnit>, cps: seq<string>, c: string)
    requires cps == seq(|units|, i requires 0 <= i < |units| => units[i].cp)
    ensures c in DedupBy(cps, (c: string) => c) <==> exists i :: 0 <= i < |units| && units[i].cp == c
  {
    var id := (c: string) => c;
    var distinct := DedupBy(cps, id);
    assert c in distinct <==> c in KeysOf(distinct, id) by {
      if c in distinct {
        var n :| 0 <= n < |distinct| && distinct[n] == c;
        assert id(distinct[n]) == c;
      }
    }
    if c in KeysOf(cps, id) {
      var i :| 0 <= i < |cps| && id(cps[i]) == c;
      assert units[i].cp == c;
    }
    if exists i :: 0 <= i < |units| && units[i].cp == c {
      var i :| 0 <= i < |units| && units[i].cp == c;
      assert id(cps[i]) == c;
    }
  }

  /** `gdf_ir.join(df_ic).merge(df_cc).dropna(subset = 'CP').dissolve(by = 'CP')`: each postal code
      of an Île-de-France IRIS unit, in sorted order, with the union of its IRIS shapes. */
  function PostalShapes(iris: seq<Iris>, ic: seq<IrisCommune>, cc: seq<Crosswalk>): (r: seq<PostalUnit>)
    ensures |r| == |PostalCodes(PostalUnits(iris, ic, cc))|
    ensures forall i :: 0 <= i < |r| ==> r[i].cp == PostalCodes(PostalUnits(iris, ic, cc))[i]
    ensures forall i :: 0 <= i < |r| ==> r[i].shape == Dissolved(PostalUnits(iris, ic, cc), r[i].cp)
    ensures SortedBy(r, (a: PostalUnit, b: PostalUnit) => LexLeq(a.cp, b.cp))
  {
    var units := PostalUnits(iris, ic, cc);
    var cps := PostalCodes(units);
    var r := seq(|cps|, i requires 0 <= i < |cps| => PostalUnit(cps[i], Dissolved(units, cps[i])));
    DissolveSorted(units, cps, r);
    r
  }

  lemma DissolveSorted(units: seq<PostalUnit>, cps: seq<string>, r: seq<PostalUnit>)
    requires SortedBy(cps, LexLeq)
    requires r == seq(|cps|, i requires 0 <= i < |cps| => PostalUnit(cps[i], Dissolved(units, cps[i])))
    ensures |r| == |cps| && forall i :: 0 <= i < |r| ==> r[i].cp == cps[i]
    ensures forall i :: 0 <= i < |r| ==> r[i].shape == Dissolved(units, r[i].cp)
    ensures SortedBy(r, (a: PostalUnit, b: PostalUnit) => LexLeq(a.cp, b.cp))
  {
  }

  /** A cell lies in the dissolved shape of a postal code exactly when it lies in an IRIS unit of
      an Île-de-France commune that the crosswalk gives that postal code. */
  lemma PostalShapeCells(iris: seq<Iris>, ic: seq<IrisCommune>, cc: seq<Crosswalk>, cp: string, x: Cell)
    ensures x in Dissolved(PostalUnits(iris, ic, cc), cp) <==>
      exists i, j, k :: 0 <= i < |iris| && 0 <= j < |ic| && 0 <= k < |cc| &&
        ic[j].code == iris[i].code && ic[j].reg == ILE_DE_FRANCE && cc[k].depcom == ic[j].depcom &&
        cc[k].cp == cp && x in iris[i].shape
  {
    var units := PostalUnits(iris, ic, cc);
    DissolvedCells(units, cp, x);
    if x in Dissolved(units, cp) {
      var n :| 0 <= n < |units| && units[n].cp == cp && x in units[n].shape;
      PostalUnitsSpec(iris, ic, cc, units[n]);
    }
    forall i, j, k | 0 <= i < |iris| && 0 <= j < |ic| && 0 <= k < |cc| &&
        ic[j].code == iris[i].code && ic[j].reg == ILE_DE_FRANCE && cc[k].depcom == ic[j].depcom &&
        cc[k].cp == cp && x in iris[i].shape
      ensures x in Dissolved(units, cp)
    {
      var u := PostalUnit(cp, iris[i].shape);
      PostalUnitsSpec(iris, ic, cc, u);
      var n :| 0 <= n < |units| && units[n] == u;
    }
  }
  /** The postal-code geometry of the script: the crosswalk corrected first, then joined,
      merged, filtered and dissolved. */
  function ScriptPostalShapes(iris: seq<Iris>, ic: seq<IrisCommune>, cc: seq<Crosswalk>): (r: seq<PostalUnit>)
    ensures |r| == |PostalCodes(PostalUnits(iris, ic, FixCrosswalk(cc)))|
    ensures forall i :: 0 <= i < |r| ==> r[i].cp == PostalCodes(PostalUnits(iris, ic, FixCrosswalk(cc)))[i]
    ensures SortedBy(r, (a: PostalUnit, b: PostalUnit) => LexLeq(a.cp, b.cp))
  {
    PostalShapes(iris, ic, FixCrosswalk(cc))
  }

  /** A cell lies in the script's shape of a postal code exactly when it lies in an IRIS unit of
      an Île-de-France commune that the crosswalk, once 93380 is sent to commune 93059, gives
      that postal code. */
  lemma ScriptPostalShapeCells(iris: seq<Iris>, ic: seq<IrisCommune>, cc: seq<Crosswalk>, n: nat, x: Cell)
    requires n < |ScriptPostalShapes(iris, ic, cc)|
    ensures var u := ScriptPostalShapes(iris, ic, cc)[n];
      x in u.shape <==>
        exists i, j, k :: 0 <= i < |iris| && 0 <= j < |ic| && 0 <= k < |cc| &&
          ic[j].code == iris[i].code && ic[j].reg == ILE_DE_FRANCE &&
          (if cc[k].cp == PIERREFITTE_CP then PIERREFITTE_DEPCOM else cc[k].depcom) == ic[j].depcom &&
          cc[k].cp == u.cp && x in iris[i].shape
  {
    var fixed := FixCrosswalk(cc);
    var u := ScriptPostalShapes(iris, ic, cc)[n];
    PostalShapeCells(iris, ic, fixed, u.cp, x);
    assert forall k :: 0 <= k < |cc| ==>
      (fixed[k].cp == cc[k].cp && fixed[k].depcom == (if cc[k].cp == PIERREFITTE_CP then PIERREFITTE_DEPCOM else cc[k].depcom));
  }

}
