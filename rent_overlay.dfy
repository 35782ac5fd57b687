/** The overlay half of the rent-control scripts: the best zone of every target and the overlap
    export, the zone tables (the first geometry of each zone id, the dissolve by zone id, one entry
    per distinct geometry), the weight rows of the targets (optionally restricted to the Paris
    zones, id < 15), and the rents averaged per target by `df_ol @ table` for every combination of
    categories. */
module RentControlOverlay {
  import opened Common
  import opened Sums
  import opened Tables
  import opened Geometry
  import opened Overlay
  import opened RentControl

  /** A rent-control zone: its id (the label of its row in `gdf_zn`) and its shape. */
  datatype Zone = Zone(id: int, shape: Region)

  function ZoneShapes(zones: seq<Zone>): (r: seq<Region>)
    ensures |r| == |zones| && forall i :: 0 <= i < |zones| ==> r[i] == zones[i].shape
  {
    seq(|zones|, i requires 0 <= i < |zones| => zones[i].shape)
  }

  function ZoneIds(zones: seq<Zone>): (r: seq<int>)
    ensures |r| == |zones| && forall i :: 0 <= i < |zones| ==> r[i] == zones[i].id
  {
    seq(|zones|, i requires 0 <= i < |zones| => zones[i].id)
  }

  // ---------------------------------------------------------------------------------------
  // The best zone of each target

  /** `idxmax()`: the position of the first largest value; an empty series raises ValueError. */
  function ArgMax(xs: seq<real>): (r: Result<nat>)
    ensures r.Err? <==> xs == []
    ensures r.Err? ==> r.error == ValueError
    ensures r.Ok? ==> r.value < |xs| && forall i :: 0 <= i < |xs| ==> xs[i] <= xs[r.value]
    ensures r.Ok? ==> forall i :: 0 <= i < r.value ==> xs[i] < xs[r.value]
  {
    if xs == [] then Err(ValueError)
    else if |xs| == 1 then Ok(0)
    else
      var init := xs[..|xs| - 1];
      var k := ArgMax(init).value;
      assert forall i :: 0 <= i < |init| ==> init[i] == xs[i];
      if xs[|xs| - 1] > xs[k] then Ok(|xs| - 1) else Ok(k)
  }

  /** The best zone of a target: its position among the zones, its id (`zn_max_frac_in_zn`) and
      the share of the target inside it (`max_frac_in_zn`). */
  datatype Best = Best(pos: nat, zone: int, frac: real)

  /** The zone holding the largest share of the target, the first one on ties. No zone makes
      `idxmax` raise ValueError; a target of area 0 makes the division raise ZeroDivisionError. */
  function BestZone(target: Region, zones: seq<Zone>): (r: Result<Best>)
    ensures zones == [] ==> r == Err(ValueError)
    ensures zones != [] && Area(target) == 0.0 ==> r == Err(ZeroDivision)
    ensures r.Ok? <==> zones != [] && Area(target) != 0.0
    ensures r.Ok? ==> var fr := Fractions(target, ZoneShapes(zones)).value;
      && r.value.pos < |zones| && r.value.zone == zones[r.value.pos].id && r.value.frac == fr[r.value.pos]
      && (forall i :: 0 <= i < |zones| ==> fr[i] <= r.value.frac)
      && (forall i :: 0 <= i < r.value.pos ==> fr[i] < r.value.frac)
      && 0.0 <= r.value.frac <= 1.0
  {
    match Fractions(target, ZoneShapes(zones))
    case Err(e) => Err(e)
    case Ok(fr) =>
      match ArgMax(fr)
      case Err(e) => Err(e)
      case Ok(k) => Ok(Best(k, zones[k].id, fr[k]))
  }

  /** The correspondence loop: for every target in index order, append its best zone to `zns`
      and the share to `frac_in_zns`; the first target that raises stops the script. */
  method BestZones(targets: seq<Region>, zones: seq<Zone>) returns (r: Result<(seq<int>, seq<real>)>)
    ensures r.Ok? <==> forall k :: 0 <= k < |targets| ==> BestZone(targets[k], zones).Ok?
    ensures r.Ok? ==> |r.value.0| == |targets| && |r.value.1| == |targets|
    ensures r.Ok? ==> forall k :: 0 <= k < |targets| ==>
      r.value.0[k] == BestZone(targets[k], zones).value.zone && r.value.1[k] == BestZone(targets[k], zones).value.frac
    ensures r.Err? ==> exists k :: 0 <= k < |targets| && BestZone(targets[k], zones) == Err(r.error)
  {
    var zns: seq<int> := [];
    var fracs: seq<real> := [];
    var k := 0;
    while k < |targets|
      invariant 0 <= k <= |targets| && |zns| == k && |fracs| == k
      invariant forall j :: 0 <= j < k ==> Picked(BestZone(targets[j], zones), zns[j], fracs[j])
    {
      var b := BestZone(targets[k], zones);
      if b.Err? {
        return Err(b.error);
      }
      zns := zns + [b.value.zone];
      fracs := fracs + [b.value.frac];
      k := k + 1;
    }
    r := Ok((zns, fracs));
  }

  /** `zone` and `frac` are the best zone of a target and the share of the target inside it. */
  predicate Picked(b: Result<Best>, zone: int, frac: real)
  {
    b.Ok? && zone == b.value.zone && frac == b.value.frac
  }

  /** One line of the overlap export. */
  datatype OverlapRow = OverlapRow(target: nat, zone: int, frac: real)

  predicate FracLeq(a: OverlapRow, b: OverlapRow)
  {
    a.frac <= b.frac
  }

  /** The overlap export, `sort_values(by = 'frac_in_zn')`: one line per target, ascending in the
      share of the target inside its best zone. */
  function OverlapExport(zns: seq<int>, fracs: seq<real>): (r: seq<OverlapRow>)
    requires |zns| == |fracs|
    ensures |r| == |zns| && SortedBy(r, FracLeq)
    ensures multiset(r) == multiset(seq(|zns|, k requires 0 <= k < |zns| => OverlapRow(k, zns[k], fracs[k])))
  {
    assert TotalPreorder(FracLeq);
    SortBy(seq(|zns|, k requires 0 <= k < |zns| => OverlapRow(k, zns[k], fracs[k])), FracLeq)
  }

  // ---------------------------------------------------------------------------------------
  // The zone tables

  function ZoneIdOf(row: RentRow): int
  {
    row.idZone
  }

  /** `gdf_rc.drop_duplicates('idZone')`: one zone per id, with the geometry of its first row, in
      order of first appearance. */
  function FirstZones(rows: seq<RentRow>): (r: seq<Zone>)
    ensures forall i, j :: 0 <= i < j < |r| ==> r[i].id != r[j].id
    ensures forall id :: id in KeysOf(rows, ZoneIdOf) <==> exists i :: 0 <= i < |r| && r[i].id == id
    ensures forall i :: 0 <= i < |r| ==>
      FirstWithKey(rows, ZoneIdOf, r[i].id).Some? && FirstWithKey(rows, ZoneIdOf, r[i].id).value.shape == r[i].shape
  {
    var d := DedupBy(rows, ZoneIdOf);
    var r := seq(|d|, i requires 0 <= i < |d| => Zone(d[i].idZone, d[i].shape));
    FirstZonesSpec(rows, d, r);
    r
  }

  lemma FirstZonesSpec(rows: seq<RentRow>, d: seq<RentRow>, r: seq<Zone>)
    requires forall i, j :: 0 <= i < j < |d| ==> ZoneIdOf(d[i]) != ZoneIdOf(d[j])
    requires KeysOf(d, ZoneIdOf) == KeysOf(rows, ZoneIdOf)
    requires forall j :: 0 <= j < |d| ==> FirstWithKey(rows, ZoneIdOf, ZoneIdOf(d[j])) == Some(d[j])
    requires r == seq(|d|, i requires 0 <= i < |d| => Zone(d[i].idZone, d[i].shape))
    ensures forall i, j :: 0 <= i < j < |r| ==> r[i].id != r[j].id
    ensures forall id :: id in KeysOf(rows, ZoneIdOf) <==> exists i :: 0 <= i < |r| && r[i].id == id
    ensures forall i :: 0 <= i < |r| ==>
      FirstWithKey(rows, ZoneIdOf, r[i].id).Some? && FirstWithKey(rows, ZoneIdOf, r[i].id).value.shape == r[i].shape
  {
    forall id | id in KeysOf(d, ZoneIdOf) ensures exists i :: 0 <= i < |r| && r[i].id == id {
      var i :| 0 <= i < |d| && ZoneIdOf(d[i]) == id;
      assert r[i].id == id;
    }
    forall i | 0 <= i < |r| ensures FirstWithKey(rows, ZoneIdOf, r[i].id) == Some(d[i]) {
      assert ZoneIdOf(d[i]) == r[i].id;
    }
  }

  /** The union of the shapes of the rows of one zone id. */
  function ZoneUnion(rows: seq<RentRow>, id: int): Region
  {
    if rows == [] then {}
    else (if rows[0].idZone == id then rows[0].shape else {}) + ZoneUnion(rows[1..], id)
  }

  lemma {:induction false} ZoneUnionCells(rows: seq<RentRow>, id: int, x: Cell)
    ensures x in ZoneUnion(rows, id) <==> exists i :: 0 <= i < |rows| && rows[i].idZone == id && x in rows[i].shape
  {
    if rows != [] {
      ZoneUnionCells(rows[1..], id, x);
      if x in ZoneUnion(rows[1..], id) {
        var i :| 0 <= i < |rows[1..]| && rows[1..][i].idZone == id && x in rows[1..][i].shape;
        assert rows[i + 1] == rows[1..][i];
      }
      if exists i :: 0 <= i < |rows| && rows[i].idZone == id && x in rows[i].shape {
        var i :| 0 <= i < |rows| && rows[i].idZone == id && x in rows[i].shape;
        if i > 0 {
          assert rows[1..][i - 1] == rows[i];
        }
      }
    }
  }

  predicate IdLeq(a: int, b: int)
  {
    a <= b
  }

  function IdOf(id: int): int
  {
    id
  }

  /** The zone ids of the table, once each and in ascending order. */
  function SortedIds(rows: seq<RentRow>): (ids: seq<int>)
    ensures forall i, j :: 0 <= i < j < |ids| ==> ids[i] < ids[j]
    ensures forall id :: id in ids <==> exists k :: 0 <= k < |rows| && rows[k].idZone == id
  {
    var all := seq(|rows|, k requires 0 <= k < |rows| => rows[k].idZone);
    var distinct := DedupBy(all, IdOf);
    assert TotalPreorder(IdLeq);
    var ids := SortBy(distinct, IdLeq);
    DissolvedIds(rows, all, distinct, ids);
    ids
  }

  lemma DissolvedIds(rows: seq<RentRow>, all: seq<int>, distinct: seq<int>, ids: seq<int>)
    requires all == seq(|rows|, k requires 0 <= k < |rows| => rows[k].idZone)
    requires distinct == DedupBy(all, IdOf)
    requires multiset(ids) == multiset(distinct) && SortedBy(ids, IdLeq)
    ensures forall i, j :: 0 <= i < j < |ids| ==> ids[i] < ids[j]
    ensures forall id :: id in ids <==> exists k :: 0 <= k < |rows| && rows[k].idZone == id
  {
    PermutationKeepsDistinct(distinct, ids);
    forall id ensures id in distinct <==> exists k :: 0 <= k < |rows| && rows[k].idZone == id {
      if id in distinct {
        var n :| 0 <= n < |distinct| && distinct[n] == id;
        assert IdOf(distinct[n]) in KeysOf(distinct, IdOf);
        var k :| 0 <= k < |all| && IdOf(all[k]) == id;
      }
      if exists k :: 0 <= k < |rows| && rows[k].idZone == id {
        var k :| 0 <= k < |rows| && rows[k].idZone == id;
        assert IdOf(all[k]) in KeysOf(all, IdOf);
        var n :| 0 <= n < |distinct| && IdOf(distinct[n]) == id;
      }
    }
  }

  /** `gdf_rc.dissolve(by = 'idZone')`: one zone per id, in ascending id order, whose shape is the
      union of the shapes of all rows of that id. */
  function DissolvedZones(rows: seq<RentRow>): (r: seq<Zone>)
    ensures forall i, j :: 0 <= i < j < |r| ==> r[i].id < r[j].id
    ensures forall id :: id in ZoneIds(r) <==> exists k :: 0 <= k < |rows| && rows[k].idZone == id
    ensures forall i :: 0 <= i < |r| ==> r[i].shape == ZoneUnion(rows, r[i].id)
  {
    var ids := SortedIds(rows);
    var r := seq(|ids|, i requires 0 <= i < |ids| => Zone(ids[i], ZoneUnion(rows, ids[i])));
    assert ZoneIds(r) == ids;
    r
  }

  /** A row of the Grenoble rent-control table: zone label, categories, rents and shape. */
  datatype GrenobleRow = GrenobleRow(zone: int, rooms: int, epoque: string, furnished: string, rents: Rents, shape: Region)

  function ShapeOf(row: GrenobleRow): Region
  {
    row.shape
  }

  /** `gdf_zn.drop_duplicates('geometry')`: one entry per distinct geometry, labelled with the zone
      of its first row. */
  function UniqueGeometry(rows: seq<GrenobleRow>): (r: seq<Zone>)
    ensures forall i, j :: 0 <= i < j < |r| ==> r[i].shape != r[j].shape
    ensures forall s :: s in KeysOf(rows, ShapeOf) <==> exists i :: 0 <= i < |r| && r[i].shape == s
    ensures forall i :: 0 <= i < |r| ==>
      FirstWithKey(rows, ShapeOf, r[i].shape).Some? && FirstWithKey(rows, ShapeOf, r[i].shape).value.zone == r[i].id
  {
    var d := DedupBy(rows, ShapeOf);
    var r := seq(|d|, i requires 0 <= i < |d| => Zone(d[i].zone, d[i].shape));
    UniqueGeometrySpec(rows, d, r);
    r
  }

  lemma UniqueGeometrySpec(rows: seq<GrenobleRow>, d: seq<GrenobleRow>, r: seq<Zone>)
    requires forall i, j :: 0 <= i < j < |d| ==> ShapeOf(d[i]) != ShapeOf(d[j])
    requires KeysOf(d, ShapeOf) == KeysOf(rows, ShapeOf)
    requires forall j :: 0 <= j < |d| ==> FirstWithKey(rows, ShapeOf, ShapeOf(d[j])) == Some(d[j])
    requires r == seq(|d|, i requires 0 <= i < |d| => Zone(d[i].zone, d[i].shape))
    ensures forall i, j :: 0 <= i < j < |r| ==> r[i].shape != r[j].shape
    ensures forall s :: s in KeysOf(rows, ShapeOf) <==> exists i :: 0 <= i < |r| && r[i].shape == s
    ensures forall i :: 0 <= i < |r| ==>
      FirstWithKey(rows, ShapeOf, r[i].shape).Some? && FirstWithKey(rows, ShapeOf, r[i].shape).value.zone == r[i].id
  {
    forall s | s in KeysOf(d, ShapeOf) ensures exists i :: 0 <= i < |r| && r[i].shape == s {
      var i :| 0 <= i < |d| && ShapeOf(d[i]) == s;
      assert r[i].shape == s;
    }
    forall i | 0 <= i < |r| ensures FirstWithKey(rows, ShapeOf, r[i].shape) == Some(d[i]) {
      assert ShapeOf(d[i]) == r[i].shape;
    }
  }

  function RoomsOf(row: GrenobleRow): int
  {
    row.rooms
  }

  function EpoqueOf(row: GrenobleRow): string
  {
    row.epoque
  }

  function FurnishedOf(row: GrenobleRow): string
  {
    row.furnished
  }

  /** `unique()` on a column: its values once each, in order of first appearance (the first
      occurrence of an earlier value comes before every occurrence of a later one). */
  function Unique<T(==,!new)>(s: seq<T>): (r: seq<T>)
    ensures forall i, j :: 0 <= i < j < |r| ==> r[i] != r[j]
    ensures forall x :: x in r <==> x in s
    ensures forall i, j, k :: 0 <= i < j < |r| && 0 <= k < |s| && s[k] == r[j] ==> r[i] in s[..k]
  {
    if s == [] then []
    else
      var init := s[..|s| - 1];
      var t := Unique(init);
      var x := s[|s| - 1];
      assert s == init + [x];
      if x in t then t
      else
        var r := t + [x];
        assert forall i :: 0 <= i < |t| ==> r[i] == t[i];
        r
  }

  /** A column of the Grenoble table. */
  function Column<T>(rows: seq<GrenobleRow>, f: GrenobleRow -> T): (r: seq<T>)
    ensures |r| == |rows| && forall k :: 0 <= k < |rows| ==> r[k] == f(rows[k])
  {
    seq(|rows|, k requires 0 <= k < |rows| => f(rows[k]))
  }

  lemma ColumnValues<T>(rows: seq<GrenobleRow>, f: GrenobleRow -> T)
    ensures forall x :: x in Column(rows, f) <==> exists k :: 0 <= k < |rows| && f(rows[k]) == x
  {
    var col := Column(rows, f);
    forall x ensures x in col <==> exists k :: 0 <= k < |rows| && f(rows[k]) == x {
      if exists k :: 0 <= k < |rows| && f(rows[k]) == x {
        var k :| 0 <= k < |rows| && f(rows[k]) == x;
        assert col[k] == x;
      }
    }
  }

  /** The Grenoble loop runs over every combination of the room counts, periods and furnishing
      states present in the table (no housing type). */
  function GrenobleCombos(rows: seq<GrenobleRow>): (r: seq<Combo>)
    ensures forall c :: c in r <==>
      && (exists k :: 0 <= k < |rows| && RoomsOf(rows[k]) == c.rooms)
      && (exists k :: 0 <= k < |rows| && EpoqueOf(rows[k]) == c.epoque)
      && (exists k :: 0 <= k < |rows| && FurnishedOf(rows[k]) == c.furnished)
      && c.housingType == None
  {
    var r := Combinations(Unique(Column(rows, RoomsOf)), Unique(Column(rows, EpoqueOf)), Unique(Column(rows, FurnishedOf)), [None]);
    ColumnValues(rows, RoomsOf);
    ColumnValues(rows, EpoqueOf);
    ColumnValues(rows, FurnishedOf);
    r
  }


  // ---------------------------------------------------------------------------------------
  // The weight rows

  /** `df_ol / df_ol.sum()` for one target: its shares of the zones normalised over the zones.
      A target of area 0 raises ZeroDivisionError; one overlapping no zone gets a NaN row. */
  function TargetWeights(target: Region, zones: seq<Zone>): (r: Result<Option<seq<real>>>)
    ensures r.Err? <==> Area(target) == 0.0 && zones != []
    ensures r.Err? ==> r.error == ZeroDivision
    ensures r.Ok? ==> r.value == Normalize(OverlapAreas(target, ZoneShapes(zones)))
    ensures r.Ok? ==> (r.value.None? <==> forall i :: 0 <= i < |zones| ==> !Intersects(target, zones[i].shape))
  {
    match Fractions(target, ZoneShapes(zones))
    case Err(e) => Err(e)
    case Ok(fr) =>
      FractionWeights(target, ZoneShapes(zones));
      Ok(Normalize(fr))
  }

  /** The zones of the Paris rent control are the ones numbered below 15. */
  const PARIS_ZONE_LIMIT: int := 15

  predicate InParisZones(z: Zone)
  {
    z.id < PARIS_ZONE_LIMIT
  }

  /** `df_ol.loc[df_ol.index < 15]`: the shares of the zones numbered below 15, in zone order. */
  function KeptShares(fr: seq<real>, zones: seq<Zone>): (r: seq<real>)
    requires |fr| == |zones|
    ensures |r| == |Select(zones, InParisZones)|
  {
    if zones == [] then []
    else (if InParisZones(zones[0]) then [fr[0]] else []) + KeptShares(fr[1..], zones[1..])
  }

  function ShareOf(target: Region, z: Zone): real
    requires Area(target) > 0.0
  {
    GeoWeightRelative(target, z.shape) / Area(target)
  }

  function SharesOf(target: Region, zones: seq<Zone>): (r: seq<real>)
    requires Area(target) > 0.0
    ensures |r| == |zones| && forall i :: 0 <= i < |zones| ==> r[i] == ShareOf(target, zones[i])
  {
    seq(|zones|, i requires 0 <= i < |zones| => ShareOf(target, zones[i]))
  }

  /** Keeping the shares of the Paris zones is computing the shares of the Paris zones only. */
  lemma {:induction false} KeptSharesAreShares(target: Region, zones: seq<Zone>)
    requires Area(target) > 0.0
    ensures KeptShares(SharesOf(target, zones), zones) == SharesOf(target, Select(zones, InParisZones))
  {
    if zones != [] {
      assert SharesOf(target, zones)[1..] == SharesOf(target, zones[1..]);
      KeptSharesAreShares(target, zones[1..]);
    }
  }

  /** The restricted weights of the code-postal scripts: the shares are computed over every zone,
      so a target of area 0 raises as soon as there is a zone, but only the zones numbered below 15
      are normalised. The target area cancels again. With no zone below 15 the weight frame has no
      column at all: an empty row, not NaN, which `@` turns into rents of 0.0. */
  function RestrictedWeights(target: Region, zones: seq<Zone>): (r: Result<Option<seq<real>>>)
    ensures r.Err? <==> Area(target) == 0.0 && zones != []
    ensures r.Err? ==> r.error == ZeroDivision
    ensures r.Ok? && Select(zones, InParisZones) == [] ==> r.value == Some([])
    ensures r.Ok? && Select(zones, InParisZones) != [] ==>
      r.value == Normalize(OverlapAreas(target, ZoneShapes(Select(zones, InParisZones))))
    ensures r.Ok? && r.value.Some? ==> |r.value.value| == |Select(zones, InParisZones)|
  {
    match Fractions(target, ZoneShapes(zones))
    case Err(e) => Err(e)
    case Ok(fr) =>
      var kept := Select(zones, InParisZones);
      var areas := OverlapAreas(target, ZoneShapes(kept));
      if kept == [] then
        Ok(Some([]))
      else
        assert fr == SharesOf(target, zones);
        KeptSharesAreShares(target, zones);
        assert KeptShares(fr, zones) == Divide(areas, Area(target));
        NormalizeScaleInvariant(areas, Area(target));
        Ok(Normalize(KeptShares(fr, zones)))
  }

  /** The target overlaps one of the zones numbered below 15. */
  ghost predicate OverlapsParisZone(target: Region, zones: seq<Zone>)
  {
    exists i :: 0 <= i < |zones| && zones[i].id < PARIS_ZONE_LIMIT && Intersects(target, zones[i].shape)
  }

  /** The target overlaps one of the zones. */
  ghost predicate OverlapsZone(target: Region, zones: seq<Zone>)
  {
    exists i :: 0 <= i < |zones| && Intersects(target, zones[i].shape)
  }

  /** A target gets a weight row of numbers, not NaN, exactly when it overlaps a Paris zone or
      there is no Paris zone at all. */
  lemma RestrictedWeightsOverlap(target: Region, zones: seq<Zone>)
    requires RestrictedWeights(target, zones).Ok?
    ensures RestrictedWeights(target, zones).value.Some? <==>
      OverlapsParisZone(target, zones) || Select(zones, InParisZones) == []
  {
    var kept := Select(zones, InParisZones);
    var areas := OverlapAreas(target, ZoneShapes(kept));
    if kept != [] && RestrictedWeights(target, zones).value.Some? {
      var n :| 0 <= n < |areas| && areas[n] != 0.0;
      assert kept[n] in zones && InParisZones(kept[n]);
      var i :| 0 <= i < |zones| && zones[i] == kept[n];
    }
    if OverlapsParisZone(target, zones) {
      var i :| 0 <= i < |zones| && zones[i].id < PARIS_ZONE_LIMIT && Intersects(target, zones[i].shape);
      assert zones[i] in kept;
      var n :| 0 <= n < |kept| && kept[n] == zones[i];
      assert areas[n] > 0.0;
    }
  }

  // ---------------------------------------------------------------------------------------
  // The rent tables and the weighted average

  /** A row of the right operand of `@`: the label `idZone` and the three float columns. */
  datatype ZoneRents = ZoneRents(id: int, rents: Rents)

  function TableIds(table: seq<ZoneRents>): (r: seq<int>)
    ensures |r| == |table| && forall j :: 0 <= j < |table| ==> r[j] == table[j].id
  {
    seq(|table|, j requires 0 <= j < |table| => table[j].id)
  }

  /** `DataFrame.dot` lines the weight columns up with the table index by label: it raises
      ValueError unless both carry the same labels, each once. */
  predicate Aligned(ids: seq<int>, table: seq<ZoneRents>)
  {
    && (forall i, j :: 0 <= i < j < |ids| ==> ids[i] != ids[j])
    && (forall i, j :: 0 <= i < j < |table| ==> table[i].id != table[j].id)
    && (forall id :: id in ids ==> id in TableIds(table))
    && (forall id :: id in TableIds(table) ==> id in ids)
  }

  /** The position of the first table row labelled `id`. */
  function IndexOf(table: seq<ZoneRents>, id: int): (j: nat)
    requires id in TableIds(table)
    ensures j < |table| && table[j].id == id
    ensures forall k :: 0 <= k < j ==> table[k].id != id
  {
    if table[0].id == id then 0
    else
      assert TableIds(table)[1..] == TableIds(table[1..]);
      1 + IndexOf(table[1..], id)
  }

  /** The table reindexed on the weight labels: the rents of zone `ids[i]` at position `i`. */
  function Realigned(ids: seq<int>, table: seq<ZoneRents>): (r: seq<Rents>)
    requires Aligned(ids, table)
    ensures |r| == |ids|
    ensures forall i :: 0 <= i < |ids| ==> exists j :: 0 <= j < |table| && table[j] == ZoneRents(ids[i], r[i])
  {
    var r := seq(|ids|, i requires 0 <= i < |ids| => table[IndexOf(table, ids[i])].rents);
    assert forall i :: 0 <= i < |ids| ==> table[IndexOf(table, ids[i])] == ZoneRents(ids[i], r[i]);
    r
  }

  function RefColumn(rs: seq<Rents>): (c: seq<real>)
    ensures |c| == |rs| && forall i :: 0 <= i < |rs| ==> c[i] == rs[i].ref
  {
    seq(|rs|, i requires 0 <= i < |rs| => rs[i].ref)
  }

  function RefmajColumn(rs: seq<Rents>): (c: seq<real>)
    ensures |c| == |rs| && forall i :: 0 <= i < |rs| ==> c[i] == rs[i].refmaj
  {
    seq(|rs|, i requires 0 <= i < |rs| => rs[i].refmaj)
  }

  function RefminColumn(rs: seq<Rents>): (c: seq<real>)
    ensures |c| == |rs| && forall i :: 0 <= i < |rs| ==> c[i] == rs[i].refmin
  {
    seq(|rs|, i requires 0 <= i < |rs| => rs[i].refmin)
  }

  /** `weights @ table` for one target: each rent column weighted by the target's shares of the
      zones, matched by label. Misaligned labels raise ValueError; a NaN weight row gives NaN
      rents. */
  function WeightedRents(w: Option<seq<real>>, ids: seq<int>, table: seq<ZoneRents>): (r: Result<Option<Rents>>)
    requires w.Some? ==> |w.value| == |ids|
    ensures r.Err? <==> !Aligned(ids, table)
    ensures r.Err? ==> r.error == ValueError
    ensures r.Ok? ==> (r.value.None? <==> w.None?)
  {
    if !Aligned(ids, table) then Err(ValueError)
    else match w
      case None => Ok(None)
      case Some(ws) =>
        var rs := Realigned(ids, table);
        Ok(Some(Rents(Dot(ws, RefColumn(rs)), Dot(ws, RefmajColumn(rs)), Dot(ws, RefminColumn(rs)))))
  }

  predicate Ordered(r: Rents)
  {
    r.refmin <= r.ref <= r.refmaj
  }

  /** With non-negative weights the averaged rents keep the order of every zone's rents:
      minimum, reference, maximum. */
  lemma WeightedRentsOrdered(w: seq<real>, ids: seq<int>, table: seq<ZoneRents>)
    requires |w| == |ids| && NonNegative(w) && Aligned(ids, table)
    requires forall j :: 0 <= j < |table| ==> Ordered(table[j].rents)
    ensures WeightedRents(Some(w), ids, table).Ok? && WeightedRents(Some(w), ids, table).value.Some?
    ensures Ordered(WeightedRents(Some(w), ids, table).value.value)
  {
    var rs := Realigned(ids, table);
    forall i | 0 <= i < |ids| ensures Ordered(rs[i]) {
      var j :| 0 <= j < |table| && table[j] == ZoneRents(ids[i], rs[i]);
    }
    DotMonotone(w, RefminColumn(rs), RefColumn(rs));
    DotMonotone(w, RefColumn(rs), RefmajColumn(rs));
  }

  /** With weights summing to 1, a table whose every zone has the same rents gives those rents. */
  lemma WeightedRentsConstant(w: seq<real>, ids: seq<int>, table: seq<ZoneRents>, v: Rents)
    requires |w| == |ids| && Sum(w) == 1.0 && Aligned(ids, table)
    requires forall j :: 0 <= j < |table| ==> table[j].rents == v
    ensures WeightedRents(Some(w), ids, table) == Ok(Some(v))
  {
    RealignedConstant(ids, table, v);
    ConstantRents(w, Realigned(ids, table), v);
  }

  lemma RealignedConstant(ids: seq<int>, table: seq<ZoneRents>, v: Rents)
    requires Aligned(ids, table)
    requires forall j :: 0 <= j < |table| ==> table[j].rents == v
    ensures forall i :: 0 <= i < |ids| ==> Realigned(ids, table)[i] == v
  {
    var rs := Realigned(ids, table);
    forall i | 0 <= i < |ids| ensures rs[i] == v {
      var j :| 0 <= j < |table| && table[j] == ZoneRents(ids[i], rs[i]);
    }
  }

  lemma ConstantRents(w: seq<real>, rs: seq<Rents>, v: Rents)
    requires |w| == |rs| && Sum(w) == 1.0
    requires forall i :: 0 <= i < |rs| ==> rs[i] == v
    ensures Rents(Dot(w, RefColumn(rs)), Dot(w, RefmajColumn(rs)), Dot(w, RefminColumn(rs))) == v
  {
    assert RefColumn(rs) == Const(|rs|, v.ref);
    assert RefmajColumn(rs) == Const(|rs|, v.refmaj);
    assert RefminColumn(rs) == Const(|rs|, v.refmin);
    DotConst(w, v.ref);
    DotConst(w, v.refmaj);
    DotConst(w, v.refmin);
  }

  /** With normalised weights the averaged reference rent lies between the smallest and the
      largest reference rent of the zones the target overlaps. */
  lemma WeightedRentsBounds(w: seq<real>, ids: seq<int>, table: seq<ZoneRents>, lo: real, hi: real)
    requires |w| == |ids| && NonNegative(w) && Sum(w) == 1.0 && Aligned(ids, table)
    requires forall i, j :: 0 <= i < |ids| && 0 <= j < |table| && w[i] > 0.0 && table[j].id == ids[i] ==>
      lo <= table[j].rents.ref <= hi
    ensures WeightedRents(Some(w), ids, table).Ok? && WeightedRents(Some(w), ids, table).value.Some?
    ensures lo <= WeightedRents(Some(w), ids, table).value.value.ref <= hi
  {
    var rs := Realigned(ids, table);
    forall i | 0 <= i < |ids| && w[i] > 0.0 ensures lo <= RefColumn(rs)[i] <= hi {
      var j :| 0 <= j < |table| && table[j] == ZoneRents(ids[i], rs[i]);
      assert table[j].id == ids[i] && table[j].rents.ref == RefColumn(rs)[i];
    }
    DotBounds(w, RefColumn(rs), lo, hi);
    assert lo * Sum(w) == lo && hi * Sum(w) == hi;
    assert WeightedRents(Some(w), ids, table).value.value.ref == Dot(w, RefColumn(rs));
  }

  /** The order of the table rows does not matter: `@` matches rows by label, so sorting the
      table by zone id first, as the Paris scripts do, changes nothing. */
  lemma WeightedRentsReorder(w: Option<seq<real>>, ids: seq<int>, t1: seq<ZoneRents>, t2: seq<ZoneRents>)
    requires w.Some? ==> |w.value| == |ids|
    requires multiset(t1) == multiset(t2)
    ensures WeightedRents(w, ids, t1) == WeightedRents(w, ids, t2)
  {
    if Aligned(ids, t1) {
      AlignedPermutation(ids, t1, t2);
    } else if Aligned(ids, t2) {
      AlignedPermutation(ids, t2, t1);
    }
  }

  lemma AlignedPermutation(ids: seq<int>, t1: seq<ZoneRents>, t2: seq<ZoneRents>)
    requires Aligned(ids, t1) && multiset(t1) == multiset(t2)
    ensures Aligned(ids, t2) && Realigned(ids, t1) == Realigned(ids, t2)
  {
    assert forall i, j :: 0 <= i < j < |t1| ==> t1[i] != t1[j];
    PermutationKeepsDistinct(t1, t2);
    forall i, j | 0 <= i < j < |t2| ensures t2[i].id != t2[j].id {
      assert t2[i] in multiset(t1) && t2[j] in multiset(t1);
      var p :| 0 <= p < |t1| && t1[p] == t2[i];
      var q :| 0 <= q < |t1| && t1[q] == t2[j];
      assert p != q;
    }
    forall id ensures id in TableIds(t1) <==> id in TableIds(t2) {
      if id in TableIds(t1) {
        var p := IndexOf(t1, id);
        assert t1[p] in multiset(t2);
        var q :| 0 <= q < |t2| && t2[q] == t1[p];
        assert TableIds(t2)[q] == id;
      }
      if id in TableIds(t2) {
        var q := IndexOf(t2, id);
        assert t2[q] in multiset(t1);
        var p :| 0 <= p < |t1| && t1[p] == t2[q];
        assert TableIds(t1)[p] == id;
      }
    }
    var r1, r2 := Realigned(ids, t1), Realigned(ids, t2);
    forall i | 0 <= i < |ids| ensures r1[i] == r2[i] {
      var q := IndexOf(t2, ids[i]);
      assert t2[q] in multiset(t1);
      var p :| 0 <= p < |t1| && t1[p] == t2[q];
      var p' := IndexOf(t1, ids[i]);
      assert p == p' by {
        if p < p' {} else if p' < p {}
      }
    }
  }

  // ---------------------------------------------------------------------------------------
  // The per-combination tables

  function RentsOf(rows: seq<RentRow>): (r: seq<ZoneRents>)
    ensures |r| == |rows| && forall k :: 0 <= k < |rows| ==> r[k] == ZoneRents(rows[k].idZone, rows[k].rents)
  {
    seq(|rows|, k requires 0 <= k < |rows| => ZoneRents(rows[k].idZone, rows[k].rents))
  }

  /** The rows of one combination, `query(...)` projected on `idZone` and the float columns. */
  function QueryTable(rows: seq<RentRow>, c: Combo): (r: seq<ZoneRents>)
    ensures forall z :: z in r <==> exists k :: 0 <= k < |rows| && Matches(c, rows[k]) && z == ZoneRents(rows[k].idZone, rows[k].rents)
  {
    var sel := Select(rows, row => Matches(c, row));
    forall z {
      QueryTableSpec(rows, c, sel, z);
    }
    RentsOf(sel)
  }

  lemma QueryTableSpec(rows: seq<RentRow>, c: Combo, sel: seq<RentRow>, z: ZoneRents)
    requires forall k :: 0 <= k < |sel| ==> Matches(c, sel[k]) && sel[k] in rows
    requires forall k :: 0 <= k < |rows| && Matches(c, rows[k]) ==> rows[k] in sel
    ensures z in RentsOf(sel) <==> exists k :: 0 <= k < |rows| && Matches(c, rows[k]) && z == ZoneRents(rows[k].idZone, rows[k].rents)
  {
    var r := RentsOf(sel);
    if z in r {
      var i :| 0 <= i < |r| && r[i] == z;
      var k :| 0 <= k < |rows| && rows[k] == sel[i];
      assert Matches(c, rows[k]) && z == ZoneRents(rows[k].idZone, rows[k].rents);
    }
    if exists k :: 0 <= k < |rows| && Matches(c, rows[k]) && z == ZoneRents(rows[k].idZone, rows[k].rents) {
      var k :| 0 <= k < |rows| && Matches(c, rows[k]) && z == ZoneRents(rows[k].idZone, rows[k].rents);
      var i :| 0 <= i < |sel| && sel[i] == rows[k];
      assert r[i] == z;
    }
  }

  predicate IdRowLeq(a: ZoneRents, b: ZoneRents)
  {
    a.id <= b.id
  }

  function SameRow(z: ZoneRents): ZoneRents
  {
    z
  }

  /** `drop_duplicates()` on whole rows keeps every row once. */
  lemma DedupRows(q: seq<ZoneRents>)
    ensures forall i, j :: 0 <= i < j < |DedupBy(q, SameRow)| ==> DedupBy(q, SameRow)[i] != DedupBy(q, SameRow)[j]
    ensures forall z :: z in DedupBy(q, SameRow) <==> z in q
  {
    var d := DedupBy(q, SameRow);
    assert forall i, j :: 0 <= i < j < |d| ==> SameRow(d[i]) != SameRow(d[j]);
    forall z ensures z in d <==> z in q {
      if z in d {
        var i :| 0 <= i < |d| && d[i] == z;
        assert SameRow(d[i]) in KeysOf(d, SameRow);
        var k :| 0 <= k < |q| && SameRow(q[k]) == z;
      }
      if z in q {
        var k :| 0 <= k < |q| && q[k] == z;
        assert SameRow(q[k]) in KeysOf(q, SameRow);
        var i :| 0 <= i < |d| && SameRow(d[i]) == z;
      }
    }
  }

  /** The Paris scripts' table of one combination: the query projected on `idZone` and the float
      columns, `drop_duplicates()`, then `sort_values(by = 'idZone')`. Every row appears once. */
  function SortedTable(rows: seq<RentRow>, c: Combo): (r: seq<ZoneRents>)
    ensures SortedBy(r, IdRowLeq)
    ensures forall i, j :: 0 <= i < j < |r| ==> r[i] != r[j]
    ensures forall z :: z in r <==> exists k :: 0 <= k < |rows| && Matches(c, rows[k]) && z == ZoneRents(rows[k].idZone, rows[k].rents)
    ensures multiset(r) == multiset(DedupBy(QueryTable(rows, c), SameRow))
  {
    var q := QueryTable(rows, c);
    var d := DedupBy(q, SameRow);
    DedupRows(q);
    assert TotalPreorder(IdRowLeq);
    var r := SortBy(d, IdRowLeq);
    PermutationKeepsDistinct(d, r);
    r
  }

  /** A Grenoble row matches a combination on rooms, period and furnishing. */
  predicate GrenobleMatches(c: Combo, row: GrenobleRow)
  {
    row.rooms == c.rooms && row.epoque == c.epoque && row.furnished == c.furnished
  }

  /** The Grenoble table of one combination, `gdf_zn.loc[mask, float_cols]` indexed by zone. */
  function MaskTable(rows: seq<GrenobleRow>, c: Combo): (r: seq<ZoneRents>)
    ensures forall z :: z in r <==> exists k :: 0 <= k < |rows| && GrenobleMatches(c, rows[k]) && z == ZoneRents(rows[k].zone, rows[k].rents)
  {
    var sel := Select(rows, row => GrenobleMatches(c, row));
    var r := seq(|sel|, k requires 0 <= k < |sel| => ZoneRents(sel[k].zone, sel[k].rents));
    forall z {
      MaskTableSpec(rows, c, sel, r, z);
    }
    r
  }

  lemma MaskTableSpec(rows: seq<GrenobleRow>, c: Combo, sel: seq<GrenobleRow>, r: seq<ZoneRents>, z: ZoneRents)
    requires forall k :: 0 <= k < |sel| ==> GrenobleMatches(c, sel[k]) && sel[k] in rows
    requires forall k :: 0 <= k < |rows| && GrenobleMatches(c, rows[k]) ==> rows[k] in sel
    requires |r| == |sel| && forall k :: 0 <= k < |sel| ==> r[k] == ZoneRents(sel[k].zone, sel[k].rents)
    ensures z in r <==> exists k :: 0 <= k < |rows| && GrenobleMatches(c, rows[k]) && z == ZoneRents(rows[k].zone, rows[k].rents)
  {
    if z in r {
      var i :| 0 <= i < |r| && r[i] == z;
      var k :| 0 <= k < |rows| && rows[k] == sel[i];
      assert GrenobleMatches(c, rows[k]) && z == ZoneRents(rows[k].zone, rows[k].rents);
    }
    if exists k :: 0 <= k < |rows| && GrenobleMatches(c, rows[k]) && z == ZoneRents(rows[k].zone, rows[k].rents) {
      var k :| 0 <= k < |rows| && GrenobleMatches(c, rows[k]) && z == ZoneRents(rows[k].zone, rows[k].rents);
      var i :| 0 <= i < |sel| && sel[i] == rows[k];
      assert r[i] == z;
    }
  }

  // ---------------------------------------------------------------------------------------
  // The blocks of the export

  /** One line of the rent export: the target, the categories of its block, and its averaged
      rents (`None` for NaN). */
  datatype OutRow = OutRow(target: nat, combo: Combo, rents: Option<Rents>)

  ghost predicate FitsZones(weights: seq<Option<seq<real>>>, ids: seq<int>)
  {
    forall k :: 0 <= k < |weights| && weights[k].Some? ==> |weights[k].value| == |ids|
  }

  /** One block of the combination loop: `weights @ table` for every target in order, with the
      categories of the block assigned to every line. A misaligned table raises ValueError even
      when there is no target. */
  function Block(weights: seq<Option<seq<real>>>, ids: seq<int>, table: seq<ZoneRents>, c: Combo): (r: Result<seq<OutRow>>)
    requires FitsZones(weights, ids)
    ensures r.Err? <==> !Aligned(ids, table)
    ensures r.Err? ==> r.error == ValueError
    ensures r.Ok? ==> |r.value| == |weights|
    ensures r.Ok? ==> forall k :: 0 <= k < |weights| ==>
      r.value[k].target == k && r.value[k].combo == c && Ok(r.value[k].rents) == WeightedRents(weights[k], ids, table)
  {
    if !Aligned(ids, table) then Err(ValueError)
    else Ok(seq(|weights|, k requires 0 <= k < |weights| => OutRow(k, c, WeightedRents(weights[k], ids, table).value)))
  }

  /** A line of a block is NaN exactly when its target's weight row is. */
  lemma BlockNaN(weights: seq<Option<seq<real>>>, ids: seq<int>, table: seq<ZoneRents>, c: Combo, k: nat)
    requires FitsZones(weights, ids) && Block(weights, ids, table, c).Ok? && k < |weights|
    ensures Block(weights, ids, table, c).value[k].rents.None? <==> weights[k].None?
  {
  }

  /** The combination loop: one block per combination, in loop order; the first misaligned
      table stops the script with ValueError. */
  method AllBlocks(combos: seq<Combo>, weights: seq<Option<seq<real>>>, ids: seq<int>, tableOf: Combo -> seq<ZoneRents>)
    returns (r: Result<seq<seq<OutRow>>>)
    requires FitsZones(weights, ids)
    ensures r.Ok? <==> forall i :: 0 <= i < |combos| ==> Aligned(ids, tableOf(combos[i]))
    ensures r.Ok? ==> |r.value| == |combos|
    ensures r.Ok? ==> forall i :: 0 <= i < |combos| ==> Block(weights, ids, tableOf(combos[i]), combos[i]) == Ok(r.value[i])
    ensures r.Err? ==> r.error == ValueError
  {
    r := MapRows(combos, c => Block(weights, ids, tableOf(c), c));
  }

  /** `pd.concat(blocks)`: the blocks one after the other. */
  function Concat(blocks: seq<seq<OutRow>>): (r: seq<OutRow>)
  {
    if blocks == [] then [] else blocks[0] + Concat(blocks[1..])
  }

  /** Blocks of `n` lines each give `|blocks| · n` lines: one per target and combination. */
  lemma {:induction false} ConcatLength(blocks: seq<seq<OutRow>>, n: nat)
    requires forall i :: 0 <= i < |blocks| ==> |blocks[i]| == n
    ensures |Concat(blocks)| == |blocks| * n
  {
    if blocks != [] {
      ConcatLength(blocks[1..], n);
      MulSucc(|blocks|, n);
    }
  }

  /** Every line of the concatenation comes from one of the blocks. */
  lemma {:induction false} ConcatLine(blocks: seq<seq<OutRow>>, j: nat)
    requires j < |Concat(blocks)|
    ensures exists i :: 0 <= i < |blocks| && Concat(blocks)[j] in blocks[i]
  {
    if j < |blocks[0]| {
      assert Concat(blocks)[j] == blocks[0][j];
    } else {
      ConcatLine(blocks[1..], j - |blocks[0]|);
      var i :| 0 <= i < |blocks[1..]| && Concat(blocks[1..])[j - |blocks[0]|] in blocks[1..][i];
      assert Concat(blocks)[j] in blocks[i + 1];
    }
  }

  /** Every line of every block is a line of the concatenation. */
  lemma {:induction false} ConcatHas(blocks: seq<seq<OutRow>>, i: nat, x: OutRow)
    requires i < |blocks| && x in blocks[i]
    ensures x in Concat(blocks)
  {
    if i > 0 {
      ConcatHas(blocks[1..], i - 1, x);
    }
  }

  predicate HasRents(row: OutRow)
  {
    row.rents.Some?
  }

  /** `dropna()`: the lines whose rents are not NaN, in order. */
  function DropNa(rows: seq<OutRow>): (r: seq<OutRow>)
    ensures forall j :: 0 <= j < |r| ==> r[j].rents.Some? && r[j] in rows
    ensures forall j :: 0 <= j < |rows| && rows[j].rents.Some? ==> rows[j] in r
  {
    Select(rows, HasRents)
  }

  /** Every property shared by all lines holds of the lines `dropna` keeps, which all carry
      rents. */
  lemma DropNaKeeps(rows: seq<OutRow>, p: OutRow -> bool)
    requires forall i :: 0 <= i < |rows| ==> p(rows[i])
    ensures forall j :: 0 <= j < |DropNa(rows)| ==> DropNa(rows)[j].rents.Some? && p(DropNa(rows)[j])
  {
    forall j | 0 <= j < |DropNa(rows)| ensures p(DropNa(rows)[j]) {
      assert DropNa(rows)[j] in rows;
    }
  }

  /** Dropping NaN block by block, as the Grenoble scripts do, is dropping NaN from the
      concatenation, as the code-postal script does. */
  lemma {:induction false} DropNaConcat(blocks: seq<seq<OutRow>>)
    ensures Concat(seq(|blocks|, i requires 0 <= i < |blocks| => DropNa(blocks[i]))) == DropNa(Concat(blocks))
  {
    if blocks != [] {
      var dropped := seq(|blocks|, i requires 0 <= i < |blocks| => DropNa(blocks[i]));
      assert dropped[1..] == seq(|blocks[1..]|, i requires 0 <= i < |blocks[1..]| => DropNa(blocks[1..][i]));
      DropNaConcat(blocks[1..]);
      SelectAppend(blocks[0], Concat(blocks[1..]), HasRents);
    }
  }
}
