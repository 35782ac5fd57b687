/** The flood-risk area arrives as an SVG drawing. Its paths are placed on the map by an affine
    map that sends the drawing's bounding box onto a fixed Lambert-93 box; each path becomes a
    ring of map points; only the paths whose fill colour is labelled 'Impact fort' are kept. */
module Svg {
  import opened Common

  /** An SVG point (the complex number `x + y i` of svgpathtools) or a map point. */
  datatype Point = Point(x: real, y: real)

  /** A segment of a path; only its end points matter here. */
  datatype Segment = Segment(start: Point, end: Point)

  type SvgPath = seq<Segment>

  datatype Box = Box(xmin: real, ymin: real, xmax: real, ymax: real)

  predicate Contains(b: Box, p: Point)
  {
    b.xmin <= p.x <= b.xmax && b.ymin <= p.y <= b.ymax
  }

  /** The map extent the drawing was exported for. */
  const MAP_BOX: Box := Box(590660.3999999985, 6782748.9307, 718969.9790000021, 6896220.694400001)

  /** Every segment of every path, in order. */
  function Segments(paths: seq<SvgPath>): (r: seq<Segment>)
    ensures forall p, k :: 0 <= p < |paths| && 0 <= k < |paths[p]| ==> paths[p][k] in r
    ensures forall k :: 0 <= k < |r| ==> exists p :: 0 <= p < |paths| && r[k] in paths[p]
  {
    if paths == [] then []
    else
      var rest := Segments(paths[1..]);
      forall p, k | 1 <= p < |paths| && 0 <= k < |paths[p]| ensures paths[p][k] in rest {
        assert paths[p] == paths[1..][p - 1];
      }
      forall k | 0 <= k < |rest| ensures exists p :: 0 <= p < |paths| && rest[k] in paths[p] {
        var q :| 0 <= q < |paths[1..]| && rest[k] in paths[1..][q];
        assert rest[k] in paths[q + 1];
      }
      paths[0] + rest
  }

  function Max(s: seq<real>): (m: real)
    requires s != []
    ensures m in s && forall i :: 0 <= i < |s| ==> s[i] <= m
  {
    if |s| == 1 then s[0]
    else
      var t := Max(s[1..]);
      if s[0] >= t then s[0] else t
  }

  function Min(s: seq<real>): (m: real)
    requires s != []
    ensures m in s && forall i :: 0 <= i < |s| ==> m <= s[i]
  {
    if |s| == 1 then s[0]
    else
      var t := Min(s[1..]);
      if s[0] <= t then s[0] else t
  }

  /** `svg_xs`: the x of every segment start, then of every segment end. */
  function Xs(segs: seq<Segment>): (r: seq<real>)
    ensures |r| == 2 * |segs|
    ensures forall k :: 0 <= k < |segs| ==> r[k] == segs[k].start.x && r[|segs| + k] == segs[k].end.x
  {
    seq(|segs|, k requires 0 <= k < |segs| => segs[k].start.x) + seq(|segs|, k requires 0 <= k < |segs| => segs[k].end.x)
  }

  /** `svg_ys`: the y of every segment start, then of every segment end. */
  function Ys(segs: seq<Segment>): (r: seq<real>)
    ensures |r| == 2 * |segs|
    ensures forall k :: 0 <= k < |segs| ==> r[k] == segs[k].start.y && r[|segs| + k] == segs[k].end.y
  {
    seq(|segs|, k requires 0 <= k < |segs| => segs[k].start.y) + seq(|segs|, k requires 0 <= k < |segs| => segs[k].end.y)
  }

  /** Some segment has an end point with this x coordinate. */
  ghost predicate AttainedX(segs: seq<Segment>, x: real)
  {
    exists k :: 0 <= k < |segs| && (segs[k].start.x == x || segs[k].end.x == x)
  }

  ghost predicate AttainedY(segs: seq<Segment>, y: real)
  {
    exists k :: 0 <= k < |segs| && (segs[k].start.y == y || segs[k].end.y == y)
  }

  /** `max`/`min` of `svg_xs` and `svg_ys`: the smallest box holding every segment's end points;
      a drawing without segments makes `max` of an empty list raise ValueError. */
  function Bounds(paths: seq<SvgPath>): (r: Result<Box>)
    ensures r.Err? <==> Segments(paths) == []
    ensures r.Err? ==> r.error == ValueError
    ensures r.Ok? ==> forall p, k :: 0 <= p < |paths| && 0 <= k < |paths[p]| ==>
      Contains(r.value, paths[p][k].start) && Contains(r.value, paths[p][k].end)
    ensures r.Ok? ==> AttainedX(Segments(paths), r.value.xmin) && AttainedX(Segments(paths), r.value.xmax)
    ensures r.Ok? ==> AttainedY(Segments(paths), r.value.ymin) && AttainedY(Segments(paths), r.value.ymax)
  {
    var segs := Segments(paths);
    if segs == [] then Err(ValueError)
    else
      var b := Box(Min(Xs(segs)), Min(Ys(segs)), Max(Xs(segs)), Max(Ys(segs)));
      BoundsOfSegments(segs, b);
      Ok(b)
  }

  lemma BoundsOfSegments(segs: seq<Segment>, b: Box)
    requires segs != []
    requires b == Box(Min(Xs(segs)), Min(Ys(segs)), Max(Xs(segs)), Max(Ys(segs)))
    ensures forall s :: s in segs ==> Contains(b, s.start) && Contains(b, s.end)
    ensures AttainedX(segs, b.xmin) && AttainedX(segs, b.xmax)
    ensures AttainedY(segs, b.ymin) && AttainedY(segs, b.ymax)
  {
    var xs, ys, n := Xs(segs), Ys(segs), |segs|;
    forall s | s in segs ensures Contains(b, s.start) && Contains(b, s.end) {
      var k :| 0 <= k < n && segs[k] == s;
      assert xs[k] == s.start.x && xs[n + k] == s.end.x;
      assert ys[k] == s.start.y && ys[n + k] == s.end.y;
    }
    Attained(segs, xs, b.xmin, true);
    Attained(segs, xs, b.xmax, true);
    Attained(segs, ys, b.ymin, false);
    Attained(segs, ys, b.ymax, false);
  }

  /** A value of `Xs` (or `Ys`) is a coordinate of some end point. */
  lemma Attained(segs: seq<Segment>, cs: seq<real>, c: real, isX: bool)
    requires cs == if isX then Xs(segs) else Ys(segs)
    requires c in cs
    ensures isX ==> AttainedX(segs, c)
    ensures !isX ==> AttainedY(segs, c)
  {
    var n := |segs|;
    var i :| 0 <= i < |cs| && cs[i] == c;
    var k := if i < n then i else i - n;
    assert isX ==> segs[k].start.x == c || segs[k].end.x == c;
    assert !isX ==> segs[k].start.y == c || segs[k].end.y == c;
  }

  /** The drawing's box, the map's box and the two scale factors between them. */
  datatype Frame = Frame(svg: Box, target: Box, widthScale: real, heightScale: real)

  /** `width_scale_factor` and `height_scale_factor`; a drawing of zero width or height raises
      ZeroDivisionError. */
  function MakeFrame(svg: Box, target: Box): (r: Result<Frame>)
    ensures r.Err? <==> svg.xmax == svg.xmin || svg.ymax == svg.ymin
    ensures r.Err? ==> r.error == ZeroDivision
    ensures r.Ok? ==> r.value.svg == svg && r.value.target == target
    ensures r.Ok? ==> r.value.widthScale * (svg.xmax - svg.xmin) == target.xmax - target.xmin
    ensures r.Ok? ==> r.value.heightScale * (svg.ymax - svg.ymin) == target.ymax - target.ymin
    ensures r.Ok? && svg.xmin < svg.xmax && target.xmin < target.xmax ==> r.value.widthScale > 0.0
    ensures r.Ok? && svg.ymin < svg.ymax && target.ymin < target.ymax ==> r.value.heightScale > 0.0
  {
    if svg.xmax - svg.xmin == 0.0 || svg.ymax - svg.ymin == 0.0 then Err(ZeroDivision)
    else
      var w := (target.xmax - target.xmin) / (svg.xmax - svg.xmin);
      var h := (target.ymax - target.ymin) / (svg.ymax - svg.ymin);
      ScaleFactor(target.xmax - target.xmin, svg.xmax - svg.xmin, w);
      ScaleFactor(target.ymax - target.ymin, svg.ymax - svg.ymin, h);
      Ok(Frame(svg, target, w, h))
  }

  lemma ScaleFactor(m: real, s: real, q: real)
    requires s != 0.0 && q == m / s
    ensures q * s == m
    ensures s > 0.0 && m > 0.0 ==> q > 0.0
  {
  }

  /** A frame whose boxes both have positive width and height, as the drawing's bounds and
      the fixed map box do once the drawing has extent. */
  ghost predicate Proper(f: Frame)
  {
    && MakeFrame(f.svg, f.target) == Ok(f)
    && f.svg.xmin < f.svg.xmax && f.svg.ymin < f.svg.ymax
    && f.target.xmin < f.target.xmax && f.target.ymin < f.target.ymax
  }

  /** `translate`: the affine map from drawing to map coordinates. */
  function Translate(f: Frame, p: Point): Point
  {
    Point(f.target.xmin + (p.x - f.svg.xmin) * f.widthScale, f.target.ymin + (p.y - f.svg.ymin) * f.heightScale)
  }

  /** The drawing's corners go to the map's corners. */
  lemma TranslateCorners(f: Frame)
    requires MakeFrame(f.svg, f.target) == Ok(f)
    ensures Translate(f, Point(f.svg.xmin, f.svg.ymin)) == Point(f.target.xmin, f.target.ymin)
    ensures Translate(f, Point(f.svg.xmax, f.svg.ymax)) == Point(f.target.xmax, f.target.ymax)
  {
    assert (f.svg.xmax - f.svg.xmin) * f.widthScale == f.target.xmax - f.target.xmin;
    assert (f.svg.ymax - f.svg.ymin) * f.heightScale == f.target.ymax - f.target.ymin;
  }

  /** With positive scale factors each coordinate is strictly increasing. */
  lemma TranslateIncreasing(f: Frame, a: Point, b: Point)
    requires Proper(f)
    ensures a.x < b.x ==> Translate(f, a).x < Translate(f, b).x
    ensures a.y < b.y ==> Translate(f, a).y < Translate(f, b).y
  {
    AffineIncreasing(a.x, b.x, f.svg.xmin, f.target.xmin, f.widthScale);
    AffineIncreasing(a.y, b.y, f.svg.ymin, f.target.ymin, f.heightScale);
  }

  lemma AffineIncreasing(u: real, v: real, from: real, to: real, k: real)
    requires k > 0.0
    ensures u < v ==> to + (u - from) * k < to + (v - from) * k
  {
    if u < v {
      assert (v - from) * k - (u - from) * k == (v - u) * k;
    }
  }

  /** A point of the drawing's box lands in the map's box. */
  lemma TranslateInto(f: Frame, p: Point)
    requires Proper(f) && Contains(f.svg, p)
    ensures Contains(f.target, Translate(f, p))
  {
    TranslateCorners(f);
    var lo, hi := Point(f.svg.xmin, f.svg.ymin), Point(f.svg.xmax, f.svg.ymax);
    TranslateIncreasing(f, lo, p);
    TranslateIncreasing(f, p, hi);
    assert p.x == lo.x ==> Translate(f, p).x == f.target.xmin;
    assert p.x == hi.x ==> Translate(f, p).x == f.target.xmax;
    assert p.y == lo.y ==> Translate(f, p).y == f.target.ymin;
    assert p.y == hi.y ==> Translate(f, p).y == f.target.ymax;
  }

  function Abs(v: real): real
  {
    if v < 0.0 then -v else v
  }

  /** `almost_equal`: the L1 distance of the two points is below 1e-8. */
  predicate AlmostEqual(a: Point, b: Point)
  {
    Abs(a.x - b.x) + Abs(a.y - b.y) < 0.00000001
  }

  lemma AlmostEqualReflexive(a: Point)
    ensures AlmostEqual(a, a)
  {
  }

  lemma AlmostEqualSymmetric(a: Point, b: Point)
    ensures AlmostEqual(a, b) <==> AlmostEqual(b, a)
  {
  }

  /** Almost equal points are within 1e-8 in each coordinate. */
  lemma AlmostEqualClose(a: Point, b: Point)
    requires AlmostEqual(a, b)
    ensures Abs(a.x - b.x) < 0.00000001 && Abs(a.y - b.y) < 0.00000001
  {
  }

  /** The vertices `polygonize` hands to `Polygon`: the translated start of every segment, then
      the translated end of the last segment unless the first and last starts almost coincide.
      An empty path makes `points[0]` raise IndexError. */
  function Ring(path: SvgPath, f: Frame): (r: Result<seq<Point>>)
    ensures r.Err? <==> path == []
    ensures r.Err? ==> r.error == IndexError
    ensures r.Ok? ==> |path| <= |r.value| <= |path| + 1
    ensures r.Ok? ==> forall i :: 0 <= i < |path| ==> r.value[i] == Translate(f, path[i].start)
    ensures r.Ok? ==> (|r.value| == |path| <==>
      AlmostEqual(Translate(f, path[0].start), Translate(f, path[|path| - 1].start)))
    ensures r.Ok? && |r.value| > |path| ==> r.value[|path|] == Translate(f, path[|path| - 1].end)
  {
    if path == [] then Err(IndexError)
    else
      var starts := seq(|path|, i requires 0 <= i < |path| => Translate(f, path[i].start));
      if AlmostEqual(starts[0], starts[|path| - 1]) then Ok(starts)
      else Ok(starts + [Translate(f, path[|path| - 1].end)])
  }

  /** `polygonize`: the vertex list is built by a comprehension and then appended to. */
  method Polygonize(path: SvgPath, f: Frame) returns (r: Result<seq<Point>>)
    ensures r == Ring(path, f)
  {
    if path == [] {
      return Err(IndexError);
    }
    var points := seq(|path|, i requires 0 <= i < |path| => Translate(f, path[i].start));
    if !AlmostEqual(points[0], points[|points| - 1]) {
      var endPoint := Translate(f, path[|path| - 1].end);
      points := points + [endPoint];
    }
    return Ok(points);
  }

  /** A continuous path: each segment starts where the previous one ends. */
  ghost predicate Continuous(path: SvgPath)
  {
    forall i :: 0 <= i < |path| - 1 ==> path[i].end == path[i + 1].start
  }

  /** On a continuous path the ring walks the segments: consecutive vertices are the translated
      end points of one segment, up to the last vertex. */
  lemma RingFollowsSegments(path: SvgPath, f: Frame)
    requires Continuous(path) && Ring(path, f).Ok?
    ensures forall i :: 0 <= i < |Ring(path, f).value| - 1 ==>
      Ring(path, f).value[i] == Translate(f, path[i].start) && Ring(path, f).value[i + 1] == Translate(f, path[i].end)
  {
    var r := Ring(path, f).value;
    forall i | 0 <= i < |r| - 1 ensures r[i + 1] == Translate(f, path[i].end) {
      if i < |path| - 1 {
        assert path[i].end == path[i + 1].start;
      }
    }
  }

  /** A ring built from segments inside the drawing's box lies inside the map's box. */
  lemma RingInMap(path: SvgPath, f: Frame)
    requires Proper(f) && Ring(path, f).Ok?
    requires forall i :: 0 <= i < |path| ==> Contains(f.svg, path[i].start) && Contains(f.svg, path[i].end)
    ensures forall v :: v in Ring(path, f).value ==> Contains(f.target, v)
  {
    var r := Ring(path, f).value;
    forall v | v in r ensures Contains(f.target, v) {
      var i :| 0 <= i < |r| && r[i] == v;
      if i < |path| {
        TranslateInto(f, path[i].start);
      } else {
        TranslateInto(f, path[|path| - 1].end);
      }
    }
  }

  /** The frame of the script: the drawing's bounds against the fixed map box. */
  function DrawingFrame(paths: seq<SvgPath>): (r: Result<Frame>)
    ensures r.Err? <==> Segments(paths) == [] || Bounds(paths).value.xmin == Bounds(paths).value.xmax ||
                        Bounds(paths).value.ymin == Bounds(paths).value.ymax
    ensures r.Ok? ==> Proper(r.value) && r.value.target == MAP_BOX
  {
    match Bounds(paths)
    case Err(e) => Err(e)
    case Ok(b) => MakeFrame(b, MAP_BOX)
  }

  /** Every vertex of every ring of the drawing lands inside the map box. */
  lemma DrawingRingsInMap(paths: seq<SvgPath>, p: nat)
    requires DrawingFrame(paths).Ok? && p < |paths| && paths[p] != []
    ensures forall v :: v in Ring(paths[p], DrawingFrame(paths).value).value ==> Contains(MAP_BOX, v)
  {
    var f := DrawingFrame(paths).value;
    assert f.svg == Bounds(paths).value;
    RingInMap(paths[p], f);
  }

  // ---- The fill filter ----

  /** An SVG element's attributes. */
  type Attributes = map<string, string>

  const FORT: string := "Impact fort"

  /** `fill_to_label`. */
  const FILL_TO_LABEL: map<string, string> :=
    map["#B2526B" := "Impact fort", "#D49FAD" := "Impact modéré", "#B2B2B2" := "Impact non mesuré"]

  /** `fill_to_label[attribute['fill']]`: a missing `fill` or an unknown colour raises KeyError. */
  function Label(a: Attributes): (r: Result<string>)
    ensures r.Err? <==> "fill" !in a || a["fill"] !in FILL_TO_LABEL
    ensures r.Err? ==> r.error == KeyError
  {
    if "fill" in a && a["fill"] in FILL_TO_LABEL then Ok(FILL_TO_LABEL[a["fill"]]) else Err(KeyError)
  }

  /** The label of every element, in order; the first lookup that fails raises. */
  function Labels(attrs: seq<Attributes>): (r: Result<seq<string>>)
    ensures r.Ok? <==> forall i :: 0 <= i < |attrs| ==> Label(attrs[i]).Ok?
    ensures r.Err? ==> r.error == KeyError
    ensures r.Ok? ==> |r.value| == |attrs| && forall i :: 0 <= i < |attrs| ==> Label(attrs[i]) == Ok(r.value[i])
  {
    if attrs == [] then Ok([])
    else
      match Label(attrs[0])
      case Err(e) => Err(e)
      case Ok(l) =>
        match Labels(attrs[1..])
        case Err(e) =>
          assert !(forall i :: 0 <= i < |attrs[1..]| ==> Label(attrs[1..][i]).Ok?);
          Err(e)
        case Ok(rest) => Ok([l] + rest)
  }

  /** The positions, in order, at which `flags` holds. */
  function Positions(flags: seq<bool>): (r: seq<nat>)
    ensures forall k :: 0 <= k < |r| ==> r[k] < |flags|
    ensures forall k, l :: 0 <= k < l < |r| ==> r[k] < r[l]
    ensures forall i :: 0 <= i < |flags| ==> (i in r <==> flags[i])
  {
    if flags == [] then []
    else
      var rest := Positions(flags[1..]);
      var shifted := Shifted(rest, |flags| - 1);
      PositionsCons(flags, rest, shifted);
      if flags[0] then [0] + shifted else shifted
  }

  /** Every position moved one place on. */
  function Shifted(ps: seq<nat>, n: nat): (r: seq<nat>)
    requires forall k :: 0 <= k < |ps| ==> ps[k] < n
    ensures |r| == |ps| && forall k :: 0 <= k < |ps| ==> r[k] == ps[k] + 1
  {
    seq(|ps|, k requires 0 <= k < |ps| => ps[k] + 1)
  }

  lemma PositionsCons(flags: seq<bool>, rest: seq<nat>, shifted: seq<nat>)
    requires flags != []
    requires forall i :: 0 <= i < |flags| - 1 ==> (i in rest <==> flags[1..][i])
    requires |shifted| == |rest| && forall k :: 0 <= k < |rest| ==> shifted[k] == rest[k] + 1
    ensures 0 !in shifted
    ensures forall i :: 0 < i < |flags| ==> (i in shifted <==> flags[i])
  {
    forall i | 0 < i < |flags| ensures i in shifted <==> flags[i] {
      assert flags[1..][i - 1] == flags[i];
      if i in shifted {
        var k :| 0 <= k < |shifted| && shifted[k] == i;
        assert rest[k] == i - 1;
      }
      if (i - 1) in rest {
        var k :| 0 <= k < |rest| && rest[k] == i - 1;
        assert shifted[k] == i;
      }
    }
  }

  /** Which labels are 'Impact fort'. */
  function IsFort(labels: seq<string>): (r: seq<bool>)
    ensures |r| == |labels| && forall i :: 0 <= i < |labels| ==> r[i] == (labels[i] == FORT)
  {
    seq(|labels|, i requires 0 <= i < |labels| => labels[i] == FORT)
  }

  /** The positions, in order, of the elements labelled 'Impact fort'; the first element whose
      label lookup fails raises. */
  function FortPositions(attrs: seq<Attributes>): (r: Result<seq<nat>>)
    ensures r.Ok? <==> forall i :: 0 <= i < |attrs| ==> Label(attrs[i]).Ok?
    ensures r.Err? ==> r.error == KeyError
    ensures r.Ok? ==> forall k :: 0 <= k < |r.value| ==> r.value[k] < |attrs|
    ensures r.Ok? ==> forall k, l :: 0 <= k < l < |r.value| ==> r.value[k] < r.value[l]
    ensures r.Ok? ==> forall i :: 0 <= i < |attrs| ==> (i in r.value <==> Label(attrs[i]) == Ok(FORT))
  {
    match Labels(attrs)
    case Err(e) => Err(e)
    case Ok(labels) => Ok(Positions(IsFort(labels)))
  }

  /** The elements of `s` at the positions `ps`. */
  function Pick<T>(s: seq<T>, ps: seq<nat>): (r: seq<T>)
    requires forall k :: 0 <= k < |ps| ==> ps[k] < |s|
    ensures |r| == |ps| && forall k :: 0 <= k < |ps| ==> r[k] == s[ps[k]]
  {
    seq(|ps|, k requires 0 <= k < |ps| => s[ps[k]])
  }

  function MinLength(m: nat, n: nat): nat
  {
    if m <= n then m else n
  }

  /** `filtered_paths`: the paths, zipped with their attributes (the shorter list decides), whose
      label is 'Impact fort'. */
  function FilteredPaths(paths: seq<SvgPath>, attrs: seq<Attributes>): (r: Result<seq<SvgPath>>)
    ensures r.Ok? <==> forall i :: 0 <= i < MinLength(|paths|, |attrs|) ==> Label(attrs[i]).Ok?
  {
    var n := MinLength(|paths|, |attrs|);
    match FortPositions(attrs[..n])
    case Err(e) => Err(e)
    case Ok(ps) => Ok(Pick(paths, ps))
  }

  /** `filtered_attributes`: the attributes labelled 'Impact fort'. */
  function FilteredAttributes(attrs: seq<Attributes>): (r: Result<seq<Attributes>>)
    ensures r.Ok? <==> forall i :: 0 <= i < |attrs| ==> Label(attrs[i]).Ok?
    ensures r.Ok? ==> forall a :: a in r.value ==> Label(a) == Ok(FORT)
  {
    match FortPositions(attrs)
    case Err(e) => Err(e)
    case Ok(ps) => Ok(Pick(attrs, ps))
  }

  /** For a drawing with one attribute map per path the two filtered lists are aligned: the
      same positions, in order, exactly those labelled 'Impact fort'. */
  lemma FiltersAligned(paths: seq<SvgPath>, attrs: seq<Attributes>)
    requires |paths| == |attrs|
    ensures FilteredPaths(paths, attrs).Ok? <==> FilteredAttributes(attrs).Ok?
    ensures FilteredAttributes(attrs).Ok? ==>
      exists ps: seq<nat> ::
        && (forall k, l :: 0 <= k < l < |ps| ==> ps[k] < ps[l])
        && (forall i :: 0 <= i < |attrs| ==> (i in ps <==> Label(attrs[i]) == Ok(FORT)))
        && (forall k :: 0 <= k < |ps| ==> ps[k] < |attrs|)
        && FilteredPaths(paths, attrs) == Ok(Pick(paths, ps))
        && FilteredAttributes(attrs) == Ok(Pick(attrs, ps))
  {
    assert attrs[..MinLength(|paths|, |attrs|)] == attrs;
    if FortPositions(attrs).Ok? {
      var ps := FortPositions(attrs).value;
      assert FilteredPaths(paths, attrs) == Ok(Pick(paths, ps));
    }
  }
}
