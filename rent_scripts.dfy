/** The rent-control scripts end to end, one method per family: the Paris-region scripts (every
    city's zones dissolved by id, the latest release of each city, one block per room count,
    period, furnishing and housing type), the Paris-only scripts (first geometry per zone, weights
    restricted to the Paris zones, the July 2024 Paris release), the postal-code script (the same
    on the Paris postal codes, NaN lines dropped) and the Grenoble scripts. */
module RentControlScripts {
  import opened Common
  import opened Sums
  import opened Tables
  import opened Geometry
  import opened Overlay
  import opened RentControl
  import opened RentControlOverlay

  /** What a script writes: the overlap export and the rent export. */
  datatype Export = Export(overlap: seq<OverlapRow>, rents: seq<OutRow>)

  /** A line of the overlap export is a target with its best zone and share. */
  lemma OverlapExportLine(zns: seq<int>, fracs: seq<real>, x: OverlapRow)
    requires |zns| == |fracs| && x in OverlapExport(zns, fracs)
    ensures x.target < |zns| && x.zone == zns[x.target] && x.frac == fracs[x.target]
  {
    var pre := seq(|zns|, k requires 0 <= k < |zns| => OverlapRow(k, zns[k], fracs[k]));
    assert x in multiset(OverlapExport(zns, fracs));
    assert x in multiset(pre);
    var k :| 0 <= k < |pre| && pre[k] == x;
  }

  /** The correspondence exercise and its export: the best zone of every target, sorted by
      share. */
  method ZoneOverlap(targets: seq<Region>, zones: seq<Zone>) returns (r: Result<seq<OverlapRow>>)
    ensures r.Ok? <==> forall k :: 0 <= k < |targets| ==> BestZone(targets[k], zones).Ok?
    ensures r.Ok? ==> |r.value| == |targets| && SortedBy(r.value, FracLeq)
    ensures r.Ok? ==> forall j :: 0 <= j < |r.value| ==> var x := r.value[j];
      x.target < |targets| && BestZone(targets[x.target], zones).value.zone == x.zone &&
      BestZone(targets[x.target], zones).value.frac == x.frac
    ensures r.Err? ==> r.error == ValueError || r.error == ZeroDivision
  {
    var best := BestZones(targets, zones);
    if best.Err? {
      return Err(best.error);
    }
    var (zns, fracs) := best.value;
    var lines := OverlapExport(zns, fracs);
    forall j | 0 <= j < |lines|
      ensures lines[j].target < |targets| && BestZone(targets[lines[j].target], zones).value.zone == lines[j].zone &&
        BestZone(targets[lines[j].target], zones).value.frac == lines[j].frac
    {
      OverlapExportLine(zns, fracs, lines[j]);
    }
    r := Ok(lines);
  }

  ghost predicate BlocksOf(blocks: seq<seq<OutRow>>, combos: seq<Combo>, weights: seq<Option<seq<real>>>,
                           ids: seq<int>, tableOf: Combo -> seq<ZoneRents>)
    requires FitsZones(weights, ids)
  {
    |blocks| == |combos| &&
    forall i :: 0 <= i < |combos| ==> Block(weights, ids, tableOf(combos[i]), combos[i]) == Ok(blocks[i])
  }

  /** A line of the concatenated blocks is the average, for one target, of the table of one of
      the combinations. */
  lemma ExportLine(blocks: seq<seq<OutRow>>, combos: seq<Combo>, weights: seq<Option<seq<real>>>,
                   ids: seq<int>, tableOf: Combo -> seq<ZoneRents>, j: nat)
    requires FitsZones(weights, ids) && BlocksOf(blocks, combos, weights, ids, tableOf)
    requires j < |Concat(blocks)|
    ensures var x := Concat(blocks)[j];
      x.combo in combos && x.target < |weights| && Ok(x.rents) == WeightedRents(weights[x.target], ids, tableOf(x.combo))
  {
    ConcatLine(blocks, j);
    var x := Concat(blocks)[j];
    var i :| 0 <= i < |blocks| && x in blocks[i];
    var k :| 0 <= k < |blocks[i]| && blocks[i][k] == x;
  }

  /** When every weight row is non-negative and every table keeps its rents ordered, so does
      every line of the export. */
  lemma ExportOrdered(blocks: seq<seq<OutRow>>, combos: seq<Combo>, weights: seq<Option<seq<real>>>,
                      ids: seq<int>, tableOf: Combo -> seq<ZoneRents>)
    requires FitsZones(weights, ids) && BlocksOf(blocks, combos, weights, ids, tableOf)
    requires forall k :: 0 <= k < |weights| && weights[k].Some? ==> NonNegative(weights[k].value)
    requires forall c, j :: c in combos && 0 <= j < |tableOf(c)| ==> Ordered(tableOf(c)[j].rents)
    ensures forall j :: 0 <= j < |Concat(blocks)| && Concat(blocks)[j].rents.Some? ==> Ordered(Concat(blocks)[j].rents.value)
  {
    forall j | 0 <= j < |Concat(blocks)| && Concat(blocks)[j].rents.Some?
      ensures Ordered(Concat(blocks)[j].rents.value)
    {
      ExportLine(blocks, combos, weights, ids, tableOf, j);
      var x := Concat(blocks)[j];
      WeightedRentsOrdered(weights[x.target].value, ids, tableOf(x.combo));
    }
  }

  /** The rent export has one line per combination and target. */
  lemma ExportSize(blocks: seq<seq<OutRow>>, combos: seq<Combo>, weights: seq<Option<seq<real>>>,
                   ids: seq<int>, tableOf: Combo -> seq<ZoneRents>)
    requires FitsZones(weights, ids) && BlocksOf(blocks, combos, weights, ids, tableOf)
    ensures |Concat(blocks)| == |combos| * |weights|
  {
    ConcatLength(blocks, |weights|);
  }

  /** Every combination and target has its line in the concatenated blocks. */
  lemma ExportHas(blocks: seq<seq<OutRow>>, combos: seq<Combo>, weights: seq<Option<seq<real>>>,
                  ids: seq<int>, tableOf: Combo -> seq<ZoneRents>, i: nat, k: nat)
    requires FitsZones(weights, ids) && BlocksOf(blocks, combos, weights, ids, tableOf)
    requires i < |combos| && k < |weights|
    ensures Aligned(ids, tableOf(combos[i]))
    ensures OutRow(k, combos[i], WeightedRents(weights[k], ids, tableOf(combos[i])).value) in Concat(blocks)
  {
    assert blocks[i][k] == OutRow(k, combos[i], WeightedRents(weights[k], ids, tableOf(combos[i])).value);
    ConcatHas(blocks, i, blocks[i][k]);
  }

  /** The rent export of the Paris scripts: every line is `weights @ table` for its target, over
      the zones numbered below 15, with rents only when the target overlaps one of them (or there
      is none), and every combination and target has its line. */
  lemma RestrictedLines(blocks: seq<seq<OutRow>>, combos: seq<Combo>, weights: seq<Option<seq<real>>>, ids: seq<int>,
                        tableOf: Combo -> seq<ZoneRents>, targets: seq<Region>, zones: seq<Zone>)
    requires FitsZones(weights, ids) && BlocksOf(blocks, combos, weights, ids, tableOf)
    requires |weights| == |targets| && forall k :: 0 <= k < |targets| ==> RestrictedWeights(targets[k], zones) == Ok(weights[k])
    ensures forall j :: 0 <= j < |Concat(blocks)| ==> var x := Concat(blocks)[j];
      && x.combo in combos && x.target < |targets|
      && Ok(x.rents) == WeightedRents(RestrictedWeights(targets[x.target], zones).value, ids, tableOf(x.combo))
      && (x.rents.Some? ==> OverlapsParisZone(targets[x.target], zones) || Select(zones, InParisZones) == [])
    ensures forall c, k :: c in combos && 0 <= k < |targets| ==>
      Aligned(ids, tableOf(c)) && OutRow(k, c, WeightedRents(RestrictedWeights(targets[k], zones).value, ids, tableOf(c)).value) in Concat(blocks)
  {
    forall j | 0 <= j < |Concat(blocks)|
      ensures var x := Concat(blocks)[j];
        && x.combo in combos && x.target < |targets|
        && Ok(x.rents) == WeightedRents(RestrictedWeights(targets[x.target], zones).value, ids, tableOf(x.combo))
        && (x.rents.Some? ==> OverlapsParisZone(targets[x.target], zones) || Select(zones, InParisZones) == [])
    {
      ExportLine(blocks, combos, weights, ids, tableOf, j);
      var x := Concat(blocks)[j];
      RestrictedWeightsOverlap(targets[x.target], zones);
    }
    forall c, k | c in combos && 0 <= k < |targets|
      ensures Aligned(ids, tableOf(c)) && OutRow(k, c, WeightedRents(RestrictedWeights(targets[k], zones).value, ids, tableOf(c)).value) in Concat(blocks)
    {
      var i :| 0 <= i < |combos| && combos[i] == c;
      ExportHas(blocks, combos, weights, ids, tableOf, i, k);
    }
  }

  /** The rent export over all zones: every line is `weights @ table` for its target, with rents
      only when the target overlaps a zone, and every combination and target has its line. */
  lemma TargetLines(blocks: seq<seq<OutRow>>, combos: seq<Combo>, weights: seq<Option<seq<real>>>, ids: seq<int>,
                    tableOf: Combo -> seq<ZoneRents>, targets: seq<Region>, zones: seq<Zone>)
    requires FitsZones(weights, ids) && BlocksOf(blocks, combos, weights, ids, tableOf)
    requires |weights| == |targets| && forall k :: 0 <= k < |targets| ==> TargetWeights(targets[k], zones) == Ok(weights[k])
    ensures forall j :: 0 <= j < |Concat(blocks)| ==> var x := Concat(blocks)[j];
      && x.combo in combos && x.target < |targets|
      && Ok(x.rents) == WeightedRents(TargetWeights(targets[x.target], zones).value, ids, tableOf(x.combo))
      && (x.rents.Some? ==> OverlapsZone(targets[x.target], zones))
    ensures forall c, k :: c in combos && 0 <= k < |targets| ==>
      Aligned(ids, tableOf(c)) && OutRow(k, c, WeightedRents(TargetWeights(targets[k], zones).value, ids, tableOf(c)).value) in Concat(blocks)
  {
    forall j | 0 <= j < |Concat(blocks)|
      ensures var x := Concat(blocks)[j];
        && x.combo in combos && x.target < |targets|
        && Ok(x.rents) == WeightedRents(TargetWeights(targets[x.target], zones).value, ids, tableOf(x.combo))
        && (x.rents.Some? ==> OverlapsZone(targets[x.target], zones))
    {
      ExportLine(blocks, combos, weights, ids, tableOf, j);
      var x := Concat(blocks)[j];
      if x.rents.Some? {
        var i :| 0 <= i < |zones| && Intersects(targets[x.target], zones[i].shape);
      }
    }
    forall c, k | c in combos && 0 <= k < |targets|
      ensures Aligned(ids, tableOf(c)) && OutRow(k, c, WeightedRents(TargetWeights(targets[k], zones).value, ids, tableOf(c)).value) in Concat(blocks)
    {
      var i :| 0 <= i < |combos| && combos[i] == c;
      ExportHas(blocks, combos, weights, ids, tableOf, i, k);
    }
  }

  /** The weight rows of the targets, in target order. */
  ghost predicate WeightRows(weights: seq<Option<seq<real>>>, n: nat)
  {
    forall k :: 0 <= k < |weights| && weights[k].Some? ==> |weights[k].value| == n && NonNegative(weights[k].value)
  }

  ghost predicate OrderedRows(rows: seq<RentRow>)
  {
    forall k :: 0 <= k < |rows| ==> Ordered(rows[k].rents)
  }

  /** Every table built from ordered rows keeps its rents ordered. */
  lemma SortedTablesOrdered(rows: seq<RentRow>, combos: seq<Combo>)
    requires OrderedRows(rows)
    ensures forall c, j :: c in combos && 0 <= j < |SortedTable(rows, c)| ==> Ordered(SortedTable(rows, c)[j].rents)
  {
    forall c, j | c in combos && 0 <= j < |SortedTable(rows, c)| ensures Ordered(SortedTable(rows, c)[j].rents) {
      var z := SortedTable(rows, c)[j];
      assert z in SortedTable(rows, c);
      var k :| 0 <= k < |rows| && Matches(c, rows[k]) && z == ZoneRents(rows[k].idZone, rows[k].rents);
    }
  }

  lemma QueryTablesOrdered(rows: seq<RentRow>, combos: seq<Combo>)
    requires OrderedRows(rows)
    ensures forall c, j :: c in combos && 0 <= j < |QueryTable(rows, c)| ==> Ordered(QueryTable(rows, c)[j].rents)
  {
    forall c, j | c in combos && 0 <= j < |QueryTable(rows, c)| ensures Ordered(QueryTable(rows, c)[j].rents) {
      var z := QueryTable(rows, c)[j];
      assert z in QueryTable(rows, c);
      var k :| 0 <= k < |rows| && Matches(c, rows[k]) && z == ZoneRents(rows[k].idZone, rows[k].rents);
    }
  }

  lemma MaskTablesOrdered(rows: seq<GrenobleRow>, combos: seq<Combo>)
    requires forall k :: 0 <= k < |rows| ==> Ordered(rows[k].rents)
    ensures forall c, j :: c in combos && 0 <= j < |MaskTable(rows, c)| ==> Ordered(MaskTable(rows, c)[j].rents)
  {
    forall c, j | c in combos && 0 <= j < |MaskTable(rows, c)| ensures Ordered(MaskTable(rows, c)[j].rents) {
      var z := MaskTable(rows, c)[j];
      assert z in MaskTable(rows, c);
      var k :| 0 <= k < |rows| && GrenobleMatches(c, rows[k]) && z == ZoneRents(rows[k].zone, rows[k].rents);
    }
  }

  lemma DuplicateParisOrdered(rows: seq<RentRow>)
    requires OrderedRows(rows)
    ensures OrderedRows(DuplicateParis(rows))
  {
    forall k | 0 <= k < |DuplicateParis(rows)| ensures Ordered(DuplicateParis(rows)[k].rents) {
      DuplicateParisRents(rows, k);
    }
  }

  lemma SelectOrdered(rows: seq<RentRow>, p: RentRow -> bool)
    requires OrderedRows(rows)
    ensures OrderedRows(Select(rows, p))
  {
    forall k | 0 <= k < |Select(rows, p)| ensures Ordered(Select(rows, p)[k].rents) {
      var i :| 0 <= i < |rows| && rows[i] == Select(rows, p)[k];
    }
  }

  /** The weights of every target over the zones (`TargetWeights`), in target order; with no
      target there is no overlap column to concatenate and the script stops with ValueError. */
  method AllTargetWeights(targets: seq<Region>, zones: seq<Zone>) returns (r: Result<seq<Option<seq<real>>>>)
    ensures targets == [] ==> r == Err(ValueError)
    ensures r.Ok? <==> targets != [] && forall k :: 0 <= k < |targets| ==> TargetWeights(targets[k], zones).Ok?
    ensures r.Ok? ==> |r.value| == |targets| && WeightRows(r.value, |zones|)
    ensures r.Ok? ==> forall k :: 0 <= k < |targets| ==> TargetWeights(targets[k], zones) == Ok(r.value[k])
    ensures r.Err? && targets != [] ==> r.error == ZeroDivision
  {
    r := MapRows(targets, t => TargetWeights(t, zones));
    if r.Ok? && targets == [] {
      r := Err(ValueError);
    }
  }

  /** The weights of every target over the Paris zones only (`RestrictedWeights`), ValueError
      with no target. */
  method AllRestrictedWeights(targets: seq<Region>, zones: seq<Zone>) returns (r: Result<seq<Option<seq<real>>>>)
    ensures targets == [] ==> r == Err(ValueError)
    ensures r.Ok? <==> targets != [] && forall k :: 0 <= k < |targets| ==> RestrictedWeights(targets[k], zones).Ok?
    ensures r.Ok? ==> |r.value| == |targets| && WeightRows(r.value, |Select(zones, InParisZones)|)
    ensures r.Ok? ==> forall k :: 0 <= k < |targets| ==> RestrictedWeights(targets[k], zones) == Ok(r.value[k])
    ensures r.Err? && targets != [] ==> r.error == ZeroDivision
  {
    r := MapRows(targets, t => RestrictedWeights(t, zones));
    if r.Ok? && targets == [] {
      r := Err(ValueError);
    }
  }

  /** The lines of the overlap export: every target once, with its best zone and share. */
  ghost predicate BestLines(overlap: seq<OverlapRow>, targets: seq<Region>, zones: seq<Zone>)
  {
    && |overlap| == |targets| && SortedBy(overlap, FracLeq)
    && forall j :: 0 <= j < |overlap| ==> var x := overlap[j];
      x.target < |targets| && BestZone(targets[x.target], zones).Ok? &&
      BestZone(targets[x.target], zones).value.zone == x.zone && BestZone(targets[x.target], zones).value.frac == x.frac
  }

  /** The rows the Paris-region scripts average: the latest release of every city (July 2024 for
      Paris, June 2024 elsewhere), with the Paris rows doubled into the two housing types. */
  function LatestRows(rows: seq<RentRow>): seq<RentRow>
  {
    MostRecentPeriods();
    DuplicateParis(FilterLatest(rows, LatestPeriods(PERIOD).value))
  }

  lemma LatestRowsOrdered(rows: seq<RentRow>)
    requires OrderedRows(rows)
    ensures OrderedRows(LatestRows(rows))
  {
    MostRecentPeriods();
    SelectOrdered(rows, row => IsLatest(LatestPeriods(PERIOD).value, row));
    DuplicateParisOrdered(FilterLatest(rows, LatestPeriods(PERIOD).value));
  }

  /** The Paris-region scripts (SeLoger quartiers and conseils de quartier): zones dissolved by
      id, weights over every zone, the latest rows of every city, and one block per room count,
      period, furnishing and housing type, `hs` being the order in which the set of housing types
      is iterated. The script succeeds exactly when there is a target and a zone row, no target
      has area 0 and every combination's table carries each zone once. */
  method ParisRegionScript(rows: seq<RentRow>, targets: seq<Region>, hs: seq<Option<string>>) returns (r: Result<Export>)
    requires HousingOrder(hs)
    ensures targets == [] ==> r == Err(ValueError)
    ensures r.Ok? <==>
      && targets != [] && rows != []
      && (forall k :: 0 <= k < |targets| ==> Area(targets[k]) != 0.0)
      && forall c :: InGrid(c, hs) ==> Aligned(ZoneIds(DissolvedZones(rows)), SortedTable(LatestRows(rows), c))
    ensures r.Ok? ==> BestLines(r.value.overlap, targets, DissolvedZones(rows))
    ensures r.Ok? ==> |r.value.rents| == 64 * |targets|
    ensures r.Ok? ==> forall j :: 0 <= j < |r.value.rents| ==> var x := r.value.rents[j];
      && InGrid(x.combo, hs) && x.target < |targets|
      && Ok(x.rents) == WeightedRents(TargetWeights(targets[x.target], DissolvedZones(rows)).value, ZoneIds(DissolvedZones(rows)),
                                      SortedTable(LatestRows(rows), x.combo))
      && (x.rents.Some? ==> OverlapsZone(targets[x.target], DissolvedZones(rows)))
    ensures r.Ok? ==> forall c, k :: InGrid(c, hs) && 0 <= k < |targets| ==>
      OutRow(k, c, WeightedRents(TargetWeights(targets[k], DissolvedZones(rows)).value, ZoneIds(DissolvedZones(rows)),
                                 SortedTable(LatestRows(rows), c)).value) in r.value.rents
    ensures r.Ok? && OrderedRows(rows) ==> forall j :: 0 <= j < |r.value.rents| && r.value.rents[j].rents.Some? ==>
      Ordered(r.value.rents[j].rents.value)
    ensures r.Err? ==> r.error in {ValueError, ZeroDivision}
  {
    var zones := DissolvedZones(rows);
    DissolvedZonesEmpty(rows);
    if OrderedRows(rows) {
      LatestRowsOrdered(rows);
    }
    var combos := Grid(hs);
    SixtyFourBlocks(hs);
    r := RegionExport(LatestRows(rows), zones, targets, combos);
  }

  /** `DissolvedZones` has a zone exactly when there is a row. */
  lemma DissolvedZonesEmpty(rows: seq<RentRow>)
    ensures DissolvedZones(rows) != [] <==> rows != []
  {
    var zones := DissolvedZones(rows);
    if rows != [] {
      assert rows[0].idZone in ZoneIds(zones);
    }
    if zones != [] {
      assert zones[0].id in ZoneIds(zones);
    }
  }

  /** The Paris-region scripts once the zones, the rows averaged and the combinations are known. */
  method RegionExport(current: seq<RentRow>, zones: seq<Zone>, targets: seq<Region>, combos: seq<Combo>)
    returns (r: Result<Export>)
    ensures targets == [] ==> r == Err(ValueError)
    ensures r.Ok? <==>
      && targets != [] && zones != []
      && (forall k :: 0 <= k < |targets| ==> Area(targets[k]) != 0.0)
      && forall c :: c in combos ==> Aligned(ZoneIds(zones), SortedTable(current, c))
    ensures r.Ok? ==> BestLines(r.value.overlap, targets, zones)
    ensures r.Ok? ==> |r.value.rents| == |combos| * |targets|
    ensures r.Ok? ==> forall j :: 0 <= j < |r.value.rents| ==> var x := r.value.rents[j];
      && x.combo in combos && x.target < |targets|
      && Ok(x.rents) == WeightedRents(TargetWeights(targets[x.target], zones).value, ZoneIds(zones), SortedTable(current, x.combo))
      && (x.rents.Some? ==> OverlapsZone(targets[x.target], zones))
    ensures r.Ok? ==> forall c, k :: c in combos && 0 <= k < |targets| ==>
      OutRow(k, c, WeightedRents(TargetWeights(targets[k], zones).value, ZoneIds(zones), SortedTable(current, c)).value) in r.value.rents
    ensures r.Ok? && OrderedRows(current) ==> forall j :: 0 <= j < |r.value.rents| && r.value.rents[j].rents.Some? ==>
      Ordered(r.value.rents[j].rents.value)
    ensures r.Err? ==> r.error in {ValueError, ZeroDivision}
  {
    var overlap := ZoneOverlap(targets, zones);
    if overlap.Err? {
      var k :| 0 <= k < |targets| && BestZone(targets[k], zones).Err?;
      return Err(overlap.error);
    }
    assert forall k :: 0 <= k < |targets| ==> BestZone(targets[k], zones).Ok? && TargetWeights(targets[k], zones).Ok?;
    assert targets != [] ==> BestZone(targets[0], zones).Ok? && zones != [];
    var rents := RegionRents(current, zones, targets, combos);
    if rents.Err? {
      return Err(rents.error);
    }
    r := Ok(Export(overlap.value, rents.value));
  }

  /** The rent half of the Paris-region scripts, over the doubled latest rows `current`: every
      line is its target's normalised overlaps times the deduplicated, sorted table of its
      combination, and every combination and target has its line. */
  method RegionRents(current: seq<RentRow>, zones: seq<Zone>, targets: seq<Region>, combos: seq<Combo>)
    returns (r: Result<seq<OutRow>>)
    ensures targets == [] ==> r == Err(ValueError)
    ensures r.Ok? <==>
      && targets != []
      && (forall k :: 0 <= k < |targets| ==> TargetWeights(targets[k], zones).Ok?)
      && forall c :: c in combos ==> Aligned(ZoneIds(zones), SortedTable(current, c))
    ensures r.Ok? ==> |r.value| == |combos| * |targets|
    ensures r.Ok? ==> forall j :: 0 <= j < |r.value| ==> var x := r.value[j];
      && x.combo in combos && x.target < |targets|
      && Ok(x.rents) == WeightedRents(TargetWeights(targets[x.target], zones).value, ZoneIds(zones), SortedTable(current, x.combo))
      && (x.rents.Some? ==> OverlapsZone(targets[x.target], zones))
    ensures r.Ok? ==> forall c, k :: c in combos && 0 <= k < |targets| ==>
      OutRow(k, c, WeightedRents(TargetWeights(targets[k], zones).value, ZoneIds(zones), SortedTable(current, c)).value) in r.value
    ensures r.Ok? && OrderedRows(current) ==> forall j :: 0 <= j < |r.value| && r.value[j].rents.Some? ==>
      Ordered(r.value[j].rents.value)
    ensures r.Err? ==> r.error in {ValueError, ZeroDivision}
  {
    var weights := AllTargetWeights(targets, zones);
    if weights.Err? {
      return Err(weights.error);
    }
    var ids := ZoneIds(zones);
    var tableOf := c => SortedTable(current, c);
    var blocks := AllBlocks(combos, weights.value, ids, tableOf);
    if blocks.Err? {
      var i :| 0 <= i < |combos| && !Aligned(ids, tableOf(combos[i]));
      return Err(blocks.error);
    }
    ExportSize(blocks.value, combos, weights.value, ids, tableOf);
    TargetLines(blocks.value, combos, weights.value, ids, tableOf, targets, zones);
    if OrderedRows(current) {
      SortedTablesOrdered(current, combos);
      ExportOrdered(blocks.value, combos, weights.value, ids, tableOf);
    }
    r := Ok(Concat(blocks.value));
  }

  /** `FirstZones` has a zone exactly when there is a row. */
  lemma FirstZonesEmpty(rows: seq<RentRow>)
    ensures FirstZones(rows) != [] <==> rows != []
  {
    if rows != [] {
      assert rows[0].idZone in KeysOf(rows, ZoneIdOf);
    }
  }

  /** The combinations the Paris and postal-code scripts loop over: the room counts, periods and
      furnishings, with no housing type. */
  method FlatCombos() returns (combos: seq<Combo>)
    ensures |combos| == 32
    ensures forall c :: c in combos <==> InGrid(c, [None])
  {
    var flat: seq<Option<string>> := [None];
    combos := Grid(flat);
  }

  /** The Paris scripts on SeLoger quartiers and conseils de quartier: the first geometry of
      every zone, weights restricted to the Paris zones, the July 2024 Paris rows, and one block
      per room count, period and furnishing. */
  method ParisScript(rows: seq<RentRow>, targets: seq<Region>) returns (r: Result<Export>)
    ensures targets == [] ==> r == Err(ValueError)
    ensures r.Ok? <==>
      && targets != [] && rows != []
      && (forall k :: 0 <= k < |targets| ==> Area(targets[k]) != 0.0)
      && forall c :: InGrid(c, [None]) ==>
        Aligned(ZoneIds(Select(FirstZones(rows), InParisZones)), QueryTable(Paris2024(rows), c))
    ensures r.Ok? ==> BestLines(r.value.overlap, targets, FirstZones(rows))
    ensures r.Ok? ==> |r.value.rents| == 32 * |targets|
    ensures r.Ok? ==> forall j :: 0 <= j < |r.value.rents| ==>
      InGrid(r.value.rents[j].combo, [None]) && ParisLine(r.value.rents[j], rows, targets, FirstZones(rows))
    ensures r.Ok? ==> forall c, k :: InGrid(c, [None]) && 0 <= k < |targets| ==>
      OutRow(k, c, RestrictedRents(rows, targets[k], FirstZones(rows), c)) in r.value.rents
    ensures r.Ok? && OrderedRows(rows) ==> forall j :: 0 <= j < |r.value.rents| && r.value.rents[j].rents.Some? ==>
      Ordered(r.value.rents[j].rents.value)
    ensures r.Err? ==> r.error in {ValueError, ZeroDivision}
  {
    var zones := FirstZones(rows);
    FirstZonesEmpty(rows);
    var combos := FlatCombos();
    r := ParisExport(rows, zones, targets, combos);
  }

  /** A line of the Paris exports: one of the targets, rents that are its restricted weights times
      the July 2024 Paris table of its combination, and rents only when the target overlaps a
      Paris zone or there is none. */
  ghost predicate ParisLine(x: OutRow, rows: seq<RentRow>, targets: seq<Region>, zones: seq<Zone>)
  {
    && x.target < |targets|
    && RestrictedWeights(targets[x.target], zones).Ok?
    && Ok(x.rents) == WeightedRents(RestrictedWeights(targets[x.target], zones).value,
                                    ZoneIds(Select(zones, InParisZones)), QueryTable(Paris2024(rows), x.combo))
    && (x.rents.Some? ==> OverlapsParisZone(targets[x.target], zones) || Select(zones, InParisZones) == [])
  }

  /** The rents of the Paris scripts for one target and combination: `df_ol_pr @ gdf_rc_pr.query(…)`. */
  ghost function RestrictedRents(rows: seq<RentRow>, target: Region, zones: seq<Zone>, c: Combo): Option<Rents>
    requires RestrictedWeights(target, zones).Ok?
    requires Aligned(ZoneIds(Select(zones, InParisZones)), QueryTable(Paris2024(rows), c))
  {
    WeightedRents(RestrictedWeights(target, zones).value, ZoneIds(Select(zones, InParisZones)), QueryTable(Paris2024(rows), c)).value
  }

  /** The Paris scripts once the zones and the combinations are known. */
  method ParisExport(rows: seq<RentRow>, zones: seq<Zone>, targets: seq<Region>, combos: seq<Combo>)
    returns (r: Result<Export>)
    requires |combos| == 32
    ensures targets == [] ==> r == Err(ValueError)
    ensures r.Ok? <==>
      && targets != [] && zones != []
      && (forall k :: 0 <= k < |targets| ==> Area(targets[k]) != 0.0)
      && forall c :: c in combos ==> Aligned(ZoneIds(Select(zones, InParisZones)), QueryTable(Paris2024(rows), c))
    ensures r.Ok? ==> BestLines(r.value.overlap, targets, zones)
    ensures r.Ok? ==> |r.value.rents| == 32 * |targets|
    ensures r.Ok? ==> forall j :: 0 <= j < |r.value.rents| ==>
      r.value.rents[j].combo in combos && ParisLine(r.value.rents[j], rows, targets, zones)
    ensures r.Ok? ==> forall c, k :: c in combos && 0 <= k < |targets| ==>
      OutRow(k, c, RestrictedRents(rows, targets[k], zones, c)) in r.value.rents
    ensures r.Ok? && OrderedRows(rows) ==> forall j :: 0 <= j < |r.value.rents| && r.value.rents[j].rents.Some? ==>
      Ordered(r.value.rents[j].rents.value)
    ensures r.Err? ==> r.error in {ValueError, ZeroDivision}
  {
    var overlap := ZoneOverlap(targets, zones);
    if overlap.Err? {
      var k :| 0 <= k < |targets| && BestZone(targets[k], zones).Err?;
      return Err(overlap.error);
    }
    assert forall k :: 0 <= k < |targets| ==> BestZone(targets[k], zones).Ok? && RestrictedWeights(targets[k], zones).Ok?;
    assert targets != [] ==> BestZone(targets[0], zones).Ok? && zones != [];
    var rents := ParisRents(rows, zones, targets, combos);
    if rents.Err? {
      return Err(rents.error);
    }
    r := Ok(Export(overlap.value, rents.value));
  }

  /** The rent half of the Paris scripts: every line is its target's restricted weights times the
      July 2024 Paris table of its combination, and every combination and target has its line. */
  method ParisRents(rows: seq<RentRow>, zones: seq<Zone>, targets: seq<Region>, combos: seq<Combo>)
    returns (r: Result<seq<OutRow>>)
    ensures targets == [] ==> r == Err(ValueError)
    ensures r.Ok? <==>
      && targets != []
      && (forall k :: 0 <= k < |targets| ==> RestrictedWeights(targets[k], zones).Ok?)
      && forall c :: c in combos ==> Aligned(ZoneIds(Select(zones, InParisZones)), QueryTable(Paris2024(rows), c))
    ensures r.Ok? ==> |r.value| == |combos| * |targets|
    ensures r.Ok? ==> forall j :: 0 <= j < |r.value| ==> r.value[j].combo in combos && ParisLine(r.value[j], rows, targets, zones)
    ensures r.Ok? ==> forall c, k :: c in combos && 0 <= k < |targets| ==>
      OutRow(k, c, RestrictedRents(rows, targets[k], zones, c)) in r.value
    ensures r.Ok? && OrderedRows(rows) ==> forall j :: 0 <= j < |r.value| && r.value[j].rents.Some? ==>
      Ordered(r.value[j].rents.value)
    ensures r.Err? ==> r.error in {ValueError, ZeroDivision}
  {
    var weights := AllRestrictedWeights(targets, zones);
    if weights.Err? {
      return Err(weights.error);
    }
    var pr := Paris2024(rows);
    var ids := ZoneIds(Select(zones, InParisZones));
    var tableOf := c => QueryTable(pr, c);
    var blocks := AllBlocks(combos, weights.value, ids, tableOf);
    if blocks.Err? {
      var i :| 0 <= i < |combos| && !Aligned(ids, tableOf(combos[i]));
      return Err(blocks.error);
    }
    ExportSize(blocks.value, combos, weights.value, ids, tableOf);
    RestrictedLines(blocks.value, combos, weights.value, ids, tableOf, targets, zones);
    if OrderedRows(rows) {
      SelectOrdered(rows, IsParis2024);
      QueryTablesOrdered(pr, combos);
      ExportOrdered(blocks.value, combos, weights.value, ids, tableOf);
    }
    r := Ok(Concat(blocks.value));
  }

  /** The shapes of the postal codes, in order. */
  function CodeShapes(cps: seq<PostalCode>): (r: seq<Region>)
    ensures |r| == |cps| && forall k :: 0 <= k < |cps| ==> r[k] == cps[k].shape
  {
    seq(|cps|, k requires 0 <= k < |cps| => cps[k].shape)
  }

  /** The postal-code script: the Paris scripts on the Paris postal codes, with the NaN lines of
      the postal codes overlapping no Paris zone dropped. */
  method PostalCodeScript(rows: seq<RentRow>, codes: seq<PostalCode>) returns (r: Result<Export>)
    ensures ParisPostalCodes(codes) == [] ==> r == Err(ValueError)
    ensures r.Ok? <==>
      && ParisPostalCodes(codes) != [] && rows != []
      && (forall k :: 0 <= k < |ParisPostalCodes(codes)| ==> Area(ParisPostalCodes(codes)[k].shape) != 0.0)
      && forall c :: InGrid(c, [None]) ==>
        Aligned(ZoneIds(Select(FirstZones(rows), InParisZones)), QueryTable(Paris2024(rows), c))
    ensures r.Ok? ==> BestLines(r.value.overlap, CodeShapes(ParisPostalCodes(codes)), FirstZones(rows))
    ensures r.Ok? ==> forall j :: 0 <= j < |r.value.rents| ==> var x := r.value.rents[j];
      x.rents.Some? && InGrid(x.combo, [None]) && ParisLine(x, rows, CodeShapes(ParisPostalCodes(codes)), FirstZones(rows))
    ensures r.Ok? ==> forall c, k :: InGrid(c, [None]) && 0 <= k < |ParisPostalCodes(codes)| ==>
      var rents := RestrictedRents(rows, ParisPostalCodes(codes)[k].shape, FirstZones(rows), c);
      rents.Some? ==> OutRow(k, c, rents) in r.value.rents
    ensures r.Ok? && OrderedRows(rows) ==> forall j :: 0 <= j < |r.value.rents| ==> Ordered(r.value.rents[j].rents.value)
    ensures r.Err? ==> r.error in {ValueError, ZeroDivision}
  {
    var zones := FirstZones(rows);
    FirstZonesEmpty(rows);
    var combos := FlatCombos();
    r := PostalCodeExport(rows, zones, ParisPostalCodes(codes), combos);
  }

  /** The postal-code script once the zones, the Paris postal codes and the combinations are
      known. */
  method PostalCodeExport(rows: seq<RentRow>, zones: seq<Zone>, cps: seq<PostalCode>, combos: seq<Combo>)
    returns (r: Result<Export>)
    ensures cps == [] ==> r == Err(ValueError)
    ensures r.Ok? <==>
      && cps != [] && zones != []
      && (forall k :: 0 <= k < |cps| ==> Area(cps[k].shape) != 0.0)
      && forall c :: c in combos ==> Aligned(ZoneIds(Select(zones, InParisZones)), QueryTable(Paris2024(rows), c))
    ensures r.Ok? ==> BestLines(r.value.overlap, CodeShapes(cps), zones)
    ensures r.Ok? ==> forall j :: 0 <= j < |r.value.rents| ==> var x := r.value.rents[j];
      x.rents.Some? && x.combo in combos && ParisLine(x, rows, CodeShapes(cps), zones)
    ensures r.Ok? ==> forall c, k :: c in combos && 0 <= k < |cps| ==>
      var rents := RestrictedRents(rows, cps[k].shape, zones, c);
      rents.Some? ==> OutRow(k, c, rents) in r.value.rents
    ensures r.Ok? && OrderedRows(rows) ==> forall j :: 0 <= j < |r.value.rents| ==> Ordered(r.value.rents[j].rents.value)
    ensures r.Err? ==> r.error in {ValueError, ZeroDivision}
  {
    var targets := CodeShapes(cps);
    var overlap := ZoneOverlap(targets, zones);
    if overlap.Err? {
      var k :| 0 <= k < |targets| && BestZone(targets[k], zones).Err?;
      return Err(overlap.error);
    }
    assert forall k :: 0 <= k < |targets| ==> BestZone(targets[k], zones).Ok? && RestrictedWeights(targets[k], zones).Ok?;
    assert targets != [] ==> BestZone(targets[0], zones).Ok? && zones != [];
    var rents := PostalCodeRents(rows, zones, targets, combos);
    if rents.Err? {
      return Err(rents.error);
    }
    r := Ok(Export(overlap.value, rents.value));
  }

  /** The rent half of the postal-code script: the lines of the Paris scripts that carry rents,
      all of them. */
  method PostalCodeRents(rows: seq<RentRow>, zones: seq<Zone>, targets: seq<Region>, combos: seq<Combo>)
    returns (r: Result<seq<OutRow>>)
    ensures targets == [] ==> r == Err(ValueError)
    ensures r.Ok? <==>
      && targets != []
      && (forall k :: 0 <= k < |targets| ==> RestrictedWeights(targets[k], zones).Ok?)
      && forall c :: c in combos ==> Aligned(ZoneIds(Select(zones, InParisZones)), QueryTable(Paris2024(rows), c))
    ensures r.Ok? ==> forall j :: 0 <= j < |r.value| ==>
      r.value[j].rents.Some? && r.value[j].combo in combos && ParisLine(r.value[j], rows, targets, zones)
    ensures r.Ok? ==> forall c, k :: c in combos && 0 <= k < |targets| ==>
      var rents := RestrictedRents(rows, targets[k], zones, c);
      rents.Some? ==> OutRow(k, c, rents) in r.value
    ensures r.Ok? && OrderedRows(rows) ==> forall j :: 0 <= j < |r.value| ==> Ordered(r.value[j].rents.value)
    ensures r.Err? ==> r.error in {ValueError, ZeroDivision}
  {
    var rents := ParisRents(rows, zones, targets, combos);
    if rents.Err? {
      return Err(rents.error);
    }
    ghost var ordered := OrderedRows(rows);
    DropNaKeeps(rents.value, (x: OutRow) => x.combo in combos && ParisLine(x, rows, targets, zones) &&
      (x.rents.Some? ==> ordered ==> Ordered(x.rents.value)));
    r := Ok(DropNa(rents.value));
  }

  /** The Grenoble scripts: one zone per distinct geometry, weights over those zones, and one
      block per room count, period and furnishing found in the table, NaN lines dropped; with no
      target or no zone row there is nothing to concatenate and the script stops with
      ValueError. Every line kept is its target's weights times the masked table of its
      combination, and every such line that is not NaN is kept. */
  method GrenobleScript(rows: seq<GrenobleRow>, targets: seq<Region>) returns (r: Result<seq<OutRow>>)
    ensures targets == [] || rows == [] ==> r == Err(ValueError)
    ensures r.Ok? <==>
      && targets != [] && rows != []
      && (forall k :: 0 <= k < |targets| ==> Area(targets[k]) != 0.0)
      && forall c :: c in GrenobleCombos(rows) ==> Aligned(ZoneIds(UniqueGeometry(rows)), MaskTable(rows, c))
    ensures r.Ok? ==> forall j :: 0 <= j < |r.value| ==>
      r.value[j].combo in GrenobleCombos(rows) && GrenobleLine(r.value[j], rows, targets, UniqueGeometry(rows))
    ensures r.Ok? ==> forall c, k :: c in GrenobleCombos(rows) && 0 <= k < |targets| ==>
      var rents := MaskedRents(rows, targets[k], UniqueGeometry(rows), c);
      rents.Some? ==> OutRow(k, c, rents) in r.value
    ensures r.Ok? && (forall k :: 0 <= k < |rows| ==> Ordered(rows[k].rents)) ==>
      forall j :: 0 <= j < |r.value| ==> r.value[j].rents.Some? && Ordered(r.value[j].rents.value)
    ensures r.Err? ==> r.error in {ValueError, ZeroDivision}
  {
    var zones := UniqueGeometry(rows);
    var combos := GrenobleCombos(rows);
    if rows != [] {
      var row := rows[0];
      assert ShapeOf(row) in KeysOf(rows, ShapeOf);
      assert zones != [];
      assert Combo(row.rooms, row.epoque, row.furnished, None) in combos;
    }
    r := GrenobleRents(rows, zones, combos, targets);
    if r.Ok? {
      assert zones != [];
    }
  }

  /** A line of the Grenoble exports: one of the targets, overlapping a zone, with rents that are
      its weights times the masked table of its combination. */
  ghost predicate GrenobleLine(x: OutRow, rows: seq<GrenobleRow>, targets: seq<Region>, zones: seq<Zone>)
  {
    && x.rents.Some? && x.target < |targets|
    && TargetWeights(targets[x.target], zones).Ok?
    && Ok(x.rents) == WeightedRents(TargetWeights(targets[x.target], zones).value, ZoneIds(zones), MaskTable(rows, x.combo))
    && OverlapsZone(targets[x.target], zones)
  }

  /** The Grenoble rents for one target and combination: `df_ol @ gdf_rc.loc[mask]`. */
  ghost function MaskedRents(rows: seq<GrenobleRow>, target: Region, zones: seq<Zone>, c: Combo): Option<Rents>
    requires TargetWeights(target, zones).Ok?
    requires Aligned(ZoneIds(zones), MaskTable(rows, c))
  {
    WeightedRents(TargetWeights(target, zones).value, ZoneIds(zones), MaskTable(rows, c)).value
  }

  /** What dropping the NaN lines keeps of the Grenoble export: exactly its lines with rents. */
  lemma GrenobleKept(all: seq<OutRow>, combos: seq<Combo>, rows: seq<GrenobleRow>, targets: seq<Region>, zones: seq<Zone>)
    requires forall k :: 0 <= k < |targets| ==> TargetWeights(targets[k], zones).Ok?
    requires forall j :: 0 <= j < |all| ==> var x := all[j];
      && x.combo in combos && x.target < |targets|
      && Ok(x.rents) == WeightedRents(TargetWeights(targets[x.target], zones).value, ZoneIds(zones), MaskTable(rows, x.combo))
      && (x.rents.Some? ==> OverlapsZone(targets[x.target], zones))
    requires forall c, k :: c in combos && 0 <= k < |targets| ==>
      Aligned(ZoneIds(zones), MaskTable(rows, c)) &&
      OutRow(k, c, WeightedRents(TargetWeights(targets[k], zones).value, ZoneIds(zones), MaskTable(rows, c)).value) in all
    ensures forall j :: 0 <= j < |DropNa(all)| ==> DropNa(all)[j].combo in combos && GrenobleLine(DropNa(all)[j], rows, targets, zones)
    ensures forall c, k :: c in combos && 0 <= k < |targets| ==>
      var rents := MaskedRents(rows, targets[k], zones, c);
      rents.Some? ==> OutRow(k, c, rents) in DropNa(all)
  {
    forall j | 0 <= j < |DropNa(all)|
      ensures DropNa(all)[j].combo in combos && GrenobleLine(DropNa(all)[j], rows, targets, zones)
    {
      var i :| 0 <= i < |all| && all[i] == DropNa(all)[j];
    }
    forall c, k | c in combos && 0 <= k < |targets| && MaskedRents(rows, targets[k], zones, c).Some?
      ensures OutRow(k, c, MaskedRents(rows, targets[k], zones, c)) in DropNa(all)
    {
      var x := OutRow(k, c, MaskedRents(rows, targets[k], zones, c));
      var i :| 0 <= i < |all| && all[i] == x;
    }
  }

  /** The Grenoble rents once the zones and the combinations are known: ValueError with no
      combination, after the weights. */
  method GrenobleRents(rows: seq<GrenobleRow>, zones: seq<Zone>, combos: seq<Combo>, targets: seq<Region>)
    returns (r: Result<seq<OutRow>>)
    ensures targets == [] ==> r == Err(ValueError)
    ensures combos == [] ==> r.Err?
    ensures combos == [] && zones == [] ==> r == Err(ValueError)
    ensures r.Ok? <==>
      && targets != [] && combos != []
      && (forall k :: 0 <= k < |targets| ==> TargetWeights(targets[k], zones).Ok?)
      && forall c :: c in combos ==> Aligned(ZoneIds(zones), MaskTable(rows, c))
    ensures r.Ok? ==> forall j :: 0 <= j < |r.value| ==> r.value[j].combo in combos && GrenobleLine(r.value[j], rows, targets, zones)
    ensures r.Ok? ==> forall c, k :: c in combos && 0 <= k < |targets| ==>
      var rents := MaskedRents(rows, targets[k], zones, c);
      rents.Some? ==> OutRow(k, c, rents) in r.value
    ensures r.Ok? && (forall k :: 0 <= k < |rows| ==> Ordered(rows[k].rents)) ==>
      forall j :: 0 <= j < |r.value| ==> r.value[j].rents.Some? && Ordered(r.value[j].rents.value)
    ensures r.Err? ==> r.error in {ValueError, ZeroDivision}
  {
    var weights := AllTargetWeights(targets, zones);
    if weights.Err? {
      return Err(weights.error);
    }
    if combos == [] {
      return Err(ValueError);
    }
    var ids := ZoneIds(zones);
    var tableOf := c => MaskTable(rows, c);
    var blocks := AllBlocks(combos, weights.value, ids, tableOf);
    if blocks.Err? {
      var i :| 0 <= i < |combos| && !Aligned(ids, tableOf(combos[i]));
      return Err(blocks.error);
    }
    var all := Concat(blocks.value);
    TargetLines(blocks.value, combos, weights.value, ids, tableOf, targets, zones);
    GrenobleKept(all, combos, rows, targets, zones);
    if forall k :: 0 <= k < |rows| ==> Ordered(rows[k].rents) {
      MaskTablesOrdered(rows, combos);
      ExportOrdered(blocks.value, combos, weights.value, ids, tableOf);
      DropNaKeeps(all, (x: OutRow) => x.rents.Some? ==> Ordered(x.rents.value));
    }
    DropNaConcat(blocks.value);
    r := Ok(Concat(seq(|blocks.value|, i requires 0 <= i < |blocks.value| => DropNa(blocks.value[i]))));
  }
}
