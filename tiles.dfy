/** The always-underwater download: the feature service refuses an envelope holding too many
    records, so for each layer a stack of tiles starts with the whole map box; a refused tile is
    split into `N_DIVIDE`² sub-tiles pushed back on the stack, a fetched tile adds its area to the
    covered area, and a tile that fails for any other reason is given up. The service is an
    oracle `fetch` from tiles to outcomes. */
module Tiles {
  import opened Tables

  datatype Tile = Tile(xmin: real, ymin: real, xmax: real, ymax: real)

  /** A feature of a layer; `niv` 99 marks the areas that are always under water. */
  datatype Feature = Feature(objectid: int, niv: int)

  /** What the service answers for one tile. */
  datatype Outcome =
    | Fetched(rows: seq<Feature>)   // `gpd.read_file(url)` returned
    | TooManyRecords                // DataSourceError
    | Failed                        // any other exception

  const N_DIVIDE: nat := 2

  const MAP_TILE: Tile := Tile(590660.3999999985, 6782748.9307, 718969.9790000021, 6896220.694400001)

  const LAYERS: seq<int> := [1, 7, 13, 18]

  predicate Proper(t: Tile)
  {
    t.xmin <= t.xmax && t.ymin <= t.ymax
  }

  function TileArea(t: Tile): real
  {
    (t.xmax - t.xmin) * (t.ymax - t.ymin)
  }

  /** Sub-tile `(xi, yi)` of the `N_DIVIDE` by `N_DIVIDE` grid over `t`. */
  function SubTile(t: Tile, xi: nat, yi: nat): Tile
  {
    var xstep := (t.xmax - t.xmin) / N_DIVIDE as real;
    var ystep := (t.ymax - t.ymin) / N_DIVIDE as real;
    Tile(t.xmin + xi as real * xstep, t.ymin + yi as real * ystep,
         t.xmin + (xi + 1) as real * xstep, t.ymin + (yi + 1) as real * ystep)
  }

  /** The sub-tiles in the order the two nested loops append them: `yi` varies fastest. */
  function Split(t: Tile): (r: seq<Tile>)
    ensures |r| == N_DIVIDE * N_DIVIDE
  {
    seq(N_DIVIDE * N_DIVIDE, i requires 0 <= i < N_DIVIDE * N_DIVIDE => SubTile(t, i / N_DIVIDE, i % N_DIVIDE))
  }

  predicate Inside(s: Tile, t: Tile)
  {
    t.xmin <= s.xmin && s.xmax <= t.xmax && t.ymin <= s.ymin && s.ymax <= t.ymax
  }

  /** Two tiles share at most a boundary. */
  predicate NonOverlapping(a: Tile, b: Tile)
  {
    a.xmax <= b.xmin || b.xmax <= a.xmin || a.ymax <= b.ymin || b.ymax <= a.ymin
  }

  /** The four sub-tiles of a tile are proper, lie inside it, do not overlap and cover its area. */
  lemma SplitPartitions(t: Tile)
    requires Proper(t)
    ensures forall i :: 0 <= i < |Split(t)| ==> Proper(Split(t)[i]) && Inside(Split(t)[i], t)
    ensures forall i, j :: 0 <= i < j < |Split(t)| ==> NonOverlapping(Split(t)[i], Split(t)[j])
    ensures SumAreas(Split(t)) == TileArea(t)
  {
    var w, h := t.xmax - t.xmin, t.ymax - t.ymin;
    var xs, ys := w / 2.0, h / 2.0;
    SplitIs(t);
    SubTileFacts(t, 0, 0, xs, ys);
    SubTileFacts(t, 0, 1, xs, ys);
    SubTileFacts(t, 1, 0, xs, ys);
    SubTileFacts(t, 1, 1, xs, ys);
    QuarterAreas(w, h, xs, ys);
    QuadPartition(t, Split(t), xs, ys);
  }

  /** The four quarters named by their corners. */
  lemma QuadPartition(t: Tile, s: seq<Tile>, xs: real, ys: real)
    requires Proper(t) && xs == (t.xmax - t.xmin) / 2.0 && ys == (t.ymax - t.ymin) / 2.0
    requires TileArea(t) == 4.0 * (xs * ys)
    requires |s| == 4
    requires s[0] == Tile(t.xmin, t.ymin, t.xmin + xs, t.ymin + ys)
    requires s[1] == Tile(t.xmin, t.ymin + ys, t.xmin + xs, t.ymin + 2.0 * ys)
    requires s[2] == Tile(t.xmin + xs, t.ymin, t.xmin + 2.0 * xs, t.ymin + ys)
    requires s[3] == Tile(t.xmin + xs, t.ymin + ys, t.xmin + 2.0 * xs, t.ymin + 2.0 * ys)
    requires forall i :: 0 <= i < 4 ==> TileArea(s[i]) == xs * ys
    ensures forall i :: 0 <= i < |s| ==> Proper(s[i]) && Inside(s[i], t)
    ensures forall i, j :: 0 <= i < j < |s| ==> NonOverlapping(s[i], s[j])
    ensures SumAreas(s) == TileArea(t)
  {
    SumAreasOfFour(s, xs * ys);
  }

  lemma SplitIs(t: Tile)
    ensures Split(t) == [SubTile(t, 0, 0), SubTile(t, 0, 1), SubTile(t, 1, 0), SubTile(t, 1, 1)]
  {
    assert 1 / 2 == 0 && 1 % 2 == 1 && 2 / 2 == 1 && 2 % 2 == 0 && 3 / 2 == 1 && 3 % 2 == 1;
  }

  /** The position and area of one sub-tile, `xs` and `ys` being the half width and height. */
  lemma SubTileFacts(t: Tile, xi: nat, yi: nat, xs: real, ys: real)
    requires Proper(t) && xi < 2 && yi < 2
    requires xs == (t.xmax - t.xmin) / 2.0 && ys == (t.ymax - t.ymin) / 2.0
    ensures SubTile(t, xi, yi) ==
      Tile(t.xmin + xi as real * xs, t.ymin + yi as real * ys, t.xmin + (xi + 1) as real * xs, t.ymin + (yi + 1) as real * ys)
    ensures Proper(SubTile(t, xi, yi)) && Inside(SubTile(t, xi, yi), t)
    ensures TileArea(SubTile(t, xi, yi)) == xs * ys
  {
    var u := SubTile(t, xi, yi);
    assert u.xmax - u.xmin == xs by {
      if xi == 0 { assert u.xmax == t.xmin + xs; } else { assert u.xmax == t.xmin + 2.0 * xs; }
    }
    assert u.ymax - u.ymin == ys by {
      if yi == 0 { assert u.ymax == t.ymin + ys; } else { assert u.ymax == t.ymin + 2.0 * ys; }
    }
  }

  lemma QuarterAreas(w: real, h: real, xs: real, ys: real)
    requires xs == w / 2.0 && ys == h / 2.0
    ensures w * h == 4.0 * (xs * ys)
  {
  }

  lemma SumAreasOfFour(s: seq<Tile>, a: real)
    requires |s| == 4 && forall i :: 0 <= i < 4 ==> TileArea(s[i]) == a
    ensures SumAreas(s) == 4.0 * a
  {
    assert s[..3][..2] == s[..2] && s[..2][..1] == s[..1] && s[..1][..0] == [];
    assert SumAreas(s[..1]) == a;
    assert SumAreas(s[..2]) == 2.0 * a;
    assert SumAreas(s[..3]) == 3.0 * a;
  }

  /** The total area of the tiles on the stack. */
  function SumAreas(ts: seq<Tile>): real
  {
    if ts == [] then 0.0 else SumAreas(ts[..|ts| - 1]) + TileArea(ts[|ts| - 1])
  }

  lemma {:induction false} SumAreasAppend(a: seq<Tile>, b: seq<Tile>)
    ensures SumAreas(a + b) == SumAreas(a) + SumAreas(b)
  {
    if b == [] {
      assert a + b == a;
    } else {
      assert (a + b)[..|a + b| - 1] == a + b[..|b| - 1];
      assert (a + b)[|a + b| - 1] == b[|b| - 1];
      SumAreasAppend(a, b[..|b| - 1]);
    }
  }

  lemma {:induction false} SumAreasNonNegative(ts: seq<Tile>)
    requires forall i :: 0 <= i < |ts| ==> Proper(ts[i])
    ensures SumAreas(ts) >= 0.0
  {
    if ts != [] {
      SumAreasNonNegative(ts[..|ts| - 1]);
      ProperAreaNonNegative(ts[|ts| - 1]);
    }
  }

  lemma ProperAreaNonNegative(t: Tile)
    requires Proper(t)
    ensures TileArea(t) >= 0.0
  {
  }

  /** `gdf.query('niv == 99')` when the result is not empty; an empty result is kept as it is. */
  function Underwater(rows: seq<Feature>): (r: seq<Feature>)
    ensures forall f :: f in r <==> f in rows && f.niv == 99
  {
    if rows == [] then [] else Select(rows, (f: Feature) => f.niv == 99)
  }

  /** The state of one layer's loop: the stack, the fetched tables, the covered area, and the area
      given up on other failures (the last is accounting only; the script does not keep it). */
  datatype Work = Work(tiles: seq<Tile>, gdfs: seq<seq<Feature>>, covered: real, dropped: real)

  /** One pass of `while tiles`: pop the last tile and act on the service's answer. */
  function Step(w: Work, fetch: Tile -> Outcome): Work
    requires w.tiles != []
  {
    var t := w.tiles[|w.tiles| - 1];
    var rest := w.tiles[..|w.tiles| - 1];
    match fetch(t)
    case Fetched(rows) => Work(rest, w.gdfs + [Underwater(rows)], w.covered + TileArea(t), w.dropped)
    case TooManyRecords => Work(rest + Split(t), w.gdfs, w.covered, w.dropped)
    case Failed => Work(rest, w.gdfs, w.covered, w.dropped + TileArea(t))
  }

  /** At most `fuel` passes, stopping early when the stack is empty. */
  function Run(w: Work, fetch: Tile -> Outcome, fuel: nat): Work
    decreases fuel
  {
    if fuel == 0 || w.tiles == [] then w else Run(Step(w, fetch), fetch, fuel - 1)
  }

  /** The area bookkeeping of the loop: covered, pending and given-up area add up to `total`,
      with every pending tile proper. */
  ghost predicate Balanced(w: Work, total: real)
  {
    && (forall i :: 0 <= i < |w.tiles| ==> Proper(w.tiles[i]))
    && w.covered >= 0.0 && w.dropped >= 0.0
    && w.covered + SumAreas(w.tiles) + w.dropped == total
  }

  /** Each pass keeps the bookkeeping: a fetched tile moves its area to `covered`, a refused one is
      replaced by sub-tiles of the same total area, a failed one moves its area to `dropped`. */
  lemma StepBalanced(w: Work, fetch: Tile -> Outcome, total: real)
    requires w.tiles != [] && Balanced(w, total)
    ensures Balanced(Step(w, fetch), total)
    ensures Step(w, fetch).covered >= w.covered
  {
    var t := w.tiles[|w.tiles| - 1];
    var rest := w.tiles[..|w.tiles| - 1];
    ProperAreaNonNegative(t);
    if fetch(t) == TooManyRecords {
      SplitPartitions(t);
      SumAreasAppend(rest, Split(t));
      forall i | 0 <= i < |rest + Split(t)| ensures Proper((rest + Split(t))[i]) {
        if i >= |rest| {
          assert (rest + Split(t))[i] == Split(t)[i - |rest|];
        }
      }
    }
  }

  lemma {:induction false} RunBalanced(w: Work, fetch: Tile -> Outcome, fuel: nat, total: real)
    requires Balanced(w, total)
    ensures Balanced(Run(w, fetch, fuel), total)
    decreases fuel
  {
    if fuel > 0 && w.tiles != [] {
      StepBalanced(w, fetch, total);
      RunBalanced(Step(w, fetch), fetch, fuel - 1, total);
    }
  }

  /** The covered area never exceeds the map's area, and once the stack is empty with nothing
      given up it equals it. */
  lemma CoveredBound(w: Work, total: real)
    requires Balanced(w, total)
    ensures w.covered <= total
    ensures w.tiles == [] && w.dropped == 0.0 ==> w.covered == total
  {
    SumAreasNonNegative(w.tiles);
  }

  /** One layer's download loop, run for at most `fuel` passes; `pending` is the stack left when
      the fuel runs out (empty when the loop finished). */
  method FetchLayer(bbox: Tile, fetch: Tile -> Outcome, fuel: nat)
    returns (gdfs: seq<seq<Feature>>, covered: real, pending: seq<Tile>, ghost dropped: real)
    requires Proper(bbox)
    ensures Work(pending, gdfs, covered, dropped) == Run(Work([bbox], [], 0.0, 0.0), fetch, fuel)
    ensures Balanced(Work(pending, gdfs, covered, dropped), TileArea(bbox))
    ensures 0.0 <= covered <= TileArea(bbox)
    ensures pending == [] && dropped == 0.0 ==> covered == TileArea(bbox)
  {
    var tiles := [bbox];
    gdfs, covered, dropped := [], 0.0, 0.0;
    var k := 0;
    ghost var start := Work([bbox], [], 0.0, 0.0);
    assert SumAreas([bbox]) == TileArea(bbox) by { assert [bbox][..0] == []; }
    while tiles != [] && k < fuel
      invariant 0 <= k <= fuel
      invariant Run(Work(tiles, gdfs, covered, dropped), fetch, fuel - k) == Run(start, fetch, fuel)
      invariant Balanced(Work(tiles, gdfs, covered, dropped), TileArea(bbox))
      decreases fuel - k
    {
      ghost var before := Work(tiles, gdfs, covered, dropped);
      StepBalanced(before, fetch, TileArea(bbox));
      var t := tiles[|tiles| - 1];
      tiles := tiles[..|tiles| - 1];
      match fetch(t) {
        case Fetched(rows) =>
          gdfs := gdfs + [Underwater(rows)];
          covered := covered + TileArea(t);
        case TooManyRecords =>
          tiles := PushSplit(tiles, t);
        case Failed =>
          dropped := dropped + TileArea(t);
      }
      assert Work(tiles, gdfs, covered, dropped) == Step(before, fetch);
      k := k + 1;
    }
    pending := tiles;
    CoveredBound(Work(pending, gdfs, covered, dropped), TileArea(bbox));
  }

  /** The two nested loops over `xi` and `yi` pushing the sub-tiles of `t`. */
  method PushSplit(tiles: seq<Tile>, t: Tile) returns (r: seq<Tile>)
    ensures r == tiles + Split(t)
  {
    r := tiles;
    for xi := 0 to N_DIVIDE
      invariant r == tiles + Split(t)[..xi * N_DIVIDE]
    {
      for yi := 0 to N_DIVIDE
        invariant r == tiles + Split(t)[..xi * N_DIVIDE + yi]
      {
        assert Split(t)[xi * N_DIVIDE + yi] == SubTile(t, xi, yi);
        assert Split(t)[..xi * N_DIVIDE + yi + 1] == Split(t)[..xi * N_DIVIDE + yi] + [SubTile(t, xi, yi)];
        r := r + [SubTile(t, xi, yi)];
      }
    }
    assert Split(t)[..N_DIVIDE * N_DIVIDE] == Split(t);
  }

  /** `for layer in layers`: the loop above over the map box, once per layer, with the service's
      answers for that layer. */
  method FetchLayers(fetchOf: int -> Tile -> Outcome, fuel: nat)
    returns (covered: seq<real>, pending: seq<seq<Tile>>)
    ensures |covered| == |LAYERS| && |pending| == |LAYERS|
    ensures forall i :: 0 <= i < |LAYERS| ==>
      covered[i] == Run(Work([MAP_TILE], [], 0.0, 0.0), fetchOf(LAYERS[i]), fuel).covered &&
      pending[i] == Run(Work([MAP_TILE], [], 0.0, 0.0), fetchOf(LAYERS[i]), fuel).tiles
    ensures forall i :: 0 <= i < |LAYERS| ==> 0.0 <= covered[i] <= TileArea(MAP_TILE)
  {
    covered, pending := [], [];
    for i := 0 to |LAYERS|
      invariant |covered| == i && |pending| == i
      invariant forall j :: 0 <= j < i ==>
        covered[j] == Run(Work([MAP_TILE], [], 0.0, 0.0), fetchOf(LAYERS[j]), fuel).covered &&
        pending[j] == Run(Work([MAP_TILE], [], 0.0, 0.0), fetchOf(LAYERS[j]), fuel).tiles
      invariant forall j :: 0 <= j < i ==> 0.0 <= covered[j] <= TileArea(MAP_TILE)
    {
      var gdfs, c, p, d := FetchLayer(MAP_TILE, fetchOf(LAYERS[i]), fuel);
      covered, pending := covered + [c], pending + [p];
    }
  }
}
