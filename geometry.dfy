/**
  Plane geometry for the counting regions: points with exact real
  coordinates, polygons as vertex rings, rigid translation (what a drag does
  to a region) and point-in-polygon containment.
 */
module Geometry {

  /** A point of the image plane; pixel coordinates idealised as exact reals. */
  datatype Point = Point(x: real, y: real)

  /**
    A polygon as its ring of vertices, each vertex once. The closing vertex
    that a ring's coordinate list repeats at the end is not stored: edge k runs
    from vertex k to vertex (k + 1) mod n.
   */
  type Polygon = seq<Point>

  function Shift(p: Point, dx: real, dy: real): Point {
    Point(p.x + dx, p.y + dy)
  }

  /** The polygon with every vertex moved by (dx, dy), vertex order kept. */
  function Translate(poly: Polygon, dx: real, dy: real): (r: Polygon)
    ensures |r| == |poly|
  {
    seq(|poly|, i requires 0 <= i < |poly| => Shift(poly[i], dx, dy))
  }

  /**
    Whether the horizontal ray from p towards +x crosses the edge from a to b.
    An edge counts when exactly one of its end points lies strictly above p
    (the half-open rule), and the crossing lies strictly right of p.
   */
  predicate EdgeCrosses(a: Point, b: Point, p: Point) {
    (a.y > p.y) != (b.y > p.y) &&
    p.x < a.x + (p.y - a.y) * (b.x - a.x) / (b.y - a.y)
  }

  /** The number of edges k, k + 1, ..., n - 1 of poly that the ray from p crosses. */
  function CrossingsFrom(poly: Polygon, p: Point, k: nat): nat
    decreases |poly| - k
  {
    if k >= |poly| then 0
    else
      (if EdgeCrosses(poly[k], poly[(k + 1) % |poly|], p) then 1 else 0)
      + CrossingsFrom(poly, p, k + 1)
  }

  /**
    Even-odd containment: p is inside when its ray crosses an odd number of
    edges. A ring of fewer than three vertices encloses no area and contains
    no point.
   */
  predicate Contains(poly: Polygon, p: Point)
    ensures Contains(poly, p) ==> |poly| >= 3
  {
    DegenerateRingCrossesEvenly(poly, p);
    CrossingsFrom(poly, p, 0) % 2 == 1
  }

  /** The two edges of a two-vertex ring are the same segment, so the ray crosses both or neither. */
  lemma SegmentCrossesBothWays(a: Point, b: Point, p: Point)
    ensures EdgeCrosses(a, b, p) == EdgeCrosses(b, a, p)
  {
    if (a.y > p.y) != (b.y > p.y) {
      var d := b.y - a.y;
      assert d != 0.0;
      var u := (p.y - a.y) * (b.x - a.x) / d;
      var v := (p.y - b.y) * (a.x - b.x) / (a.y - b.y);
      assert u * d == (p.y - a.y) * (b.x - a.x);
      assert v * d == (p.y - b.y) * (b.x - a.x);
      assert (a.x + u - (b.x + v)) * d == 0.0;
      assert a.x + u == b.x + v;
    }
  }

  lemma DegenerateRingCrossesEvenly(poly: Polygon, p: Point)
    ensures |poly| < 3 ==> CrossingsFrom(poly, p, 0) % 2 == 0
  {
    if |poly| == 2 {
      SegmentCrossesBothWays(poly[0], poly[1], p);
      assert CrossingsFrom(poly, p, 2) == 0;
      assert (1 + 1) % 2 == 0;
    } else if |poly| == 1 {
      assert CrossingsFrom(poly, p, 1) == 0;
    }
  }

  /** Moving an edge and the probe point together does not change whether they cross. */
  lemma EdgeCrossesShift(a: Point, b: Point, p: Point, dx: real, dy: real)
    ensures EdgeCrosses(Shift(a, dx, dy), Shift(b, dx, dy), Shift(p, dx, dy)) == EdgeCrosses(a, b, p)
  {
    var a', b', p' := Shift(a, dx, dy), Shift(b, dx, dy), Shift(p, dx, dy);
    assert p'.y - a'.y == p.y - a.y;
    assert b'.x - a'.x == b.x - a.x;
    assert b'.y - a'.y == b.y - a.y;
  }

  lemma {:induction false} CrossingsTranslate(poly: Polygon, p: Point, dx: real, dy: real, k: nat)
    ensures CrossingsFrom(Translate(poly, dx, dy), Shift(p, dx, dy), k) == CrossingsFrom(poly, p, k)
    decreases |poly| - k
  {
    if k < |poly| {
      var t := Translate(poly, dx, dy);
      EdgeCrossesShift(poly[k], poly[(k + 1) % |poly|], p, dx, dy);
      assert t[k] == Shift(poly[k], dx, dy);
      assert t[(k + 1) % |t|] == Shift(poly[(k + 1) % |poly|], dx, dy);
      CrossingsTranslate(poly, p, dx, dy, k + 1);
    }
  }

  /**
    A point dragged along with a polygon keeps its inside/outside status:
    containment is invariant under translating both by the same vector.
   */
  lemma ContainsTranslate(poly: Polygon, p: Point, dx: real, dy: real)
    ensures Contains(Translate(poly, dx, dy), Shift(p, dx, dy)) <==> Contains(poly, p)
  {
    CrossingsTranslate(poly, p, dx, dy, 0);
  }

  /** Two successive translations are one translation by the summed vector. */
  lemma TranslateCompose(poly: Polygon, dx1: real, dy1: real, dx2: real, dy2: real)
    ensures Translate(Translate(poly, dx1, dy1), dx2, dy2) == Translate(poly, dx1 + dx2, dy1 + dy2)
  {
    var lhs := Translate(Translate(poly, dx1, dy1), dx2, dy2);
    var rhs := Translate(poly, dx1 + dx2, dy1 + dy2);
    assert |lhs| == |rhs|;
    forall i | 0 <= i < |lhs|
      ensures lhs[i] == rhs[i]
    {
      assert Translate(poly, dx1, dy1)[i] == Shift(poly[i], dx1, dy1);
    }
  }

  /** Translating by (dx, dy) and back by (-dx, -dy) restores the polygon exactly. */
  lemma TranslateInverse(poly: Polygon, dx: real, dy: real)
    ensures Translate(Translate(poly, dx, dy), -dx, -dy) == poly
  {
    TranslateCompose(poly, dx, dy, -dx, -dy);
    var t := Translate(poly, 0.0, 0.0);
    assert |t| == |poly|;
    forall i | 0 <= i < |t|
      ensures t[i] == poly[i]
    {
    }
  }
}
