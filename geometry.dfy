/** Planar geometry, abstracted: a polygon (possibly multi-part) is the finite set of unit
    cells it covers, its area is the number of cells, and shapely's `intersection`,
    `difference`, `union` and `intersects` are the set operations. */
module Geometry {

  type Cell = (int, int)
  type Region = set<Cell>

  function Area(r: Region): (a: real)
    ensures a >= 0.0
    ensures a == 0.0 <==> r == {}
  {
    |r| as real
  }

  /** `p1.intersection(p2).area`, the `geo_weight_relative` of the heat-stress scripts. */
  function GeoWeightRelative(p1: Region, p2: Region): (a: real)
    ensures 0.0 <= a <= Area(p1) && a <= Area(p2)
    ensures a == 0.0 <==> !Intersects(p1, p2)
  {
    AreaMonotone(p1 * p2, p1);
    AreaMonotone(p1 * p2, p2);
    Area(p1 * p2)
  }

  /** shapely's `intersects`: the two shapes share some cell. */
  predicate Intersects(p1: Region, p2: Region)
  {
    p1 * p2 != {}
  }

  lemma GeoWeightSymmetric(p1: Region, p2: Region)
    ensures GeoWeightRelative(p1, p2) == GeoWeightRelative(p2, p1)
  {
    assert p1 * p2 == p2 * p1;
  }

  lemma AreaMonotone(a: Region, b: Region)
    requires a <= b
    ensures Area(a) <= Area(b)
  {
    var d := b - a;
    assert b == a + d && a !! d;
  }

  /** Areas of disjoint parts add up. */
  lemma AreaDisjointUnion(a: Region, b: Region)
    requires a !! b
    ensures Area(a + b) == Area(a) + Area(b)
  {
  }
}
