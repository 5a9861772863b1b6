/**
 * The geometric values the domain graph and the size function exchange:
 * points, polygon rings, shapely-style polygons with holes, and
 * matplotlib-style triangulations (a point table plus a triangle table of
 * point indices).
 */
module Geometry {
  import opened Wrappers
  import opened Reals

  datatype Point = Point(x: real, y: real)

  /** A polygon ring as its vertex list (shapely closes it by repeating the first vertex). */
  type Ring = seq<Point>

  datatype Polygon = Polygon(exterior: Ring, interiors: seq<Ring>)

  type MultiPolygon = seq<Polygon>

  /** One row of an `(n, 3)` integer table: a triangle's vertices, or its neighbours. */
  datatype Triple = Triple(v0: int, v1: int, v2: int) {
    function At(j: nat): int
      requires j < 3
    {
      if j == 0 then v0 else if j == 1 then v1 else v2
    }
  }

  /** A triangulation: the point table and the triangles over it. */
  datatype Mesh = Mesh(points: seq<Point>, triangles: seq<Triple>)

  /** Every vertex index of every triangle points into a table of `n` points. */
  predicate ValidTriangles(tris: seq<Triple>, n: nat) {
    forall k :: 0 <= k < |tris| ==> 0 <= tris[k].v0 < n && 0 <= tris[k].v1 < n && 0 <= tris[k].v2 < n
  }

  /** A triangle's centroid, the point tested against the polygon rings. */
  function Centroid(pts: seq<Point>, t: Triple): Point
    requires 0 <= t.v0 < |pts| && 0 <= t.v1 < |pts| && 0 <= t.v2 < |pts|
  {
    Point((pts[t.v0].x + pts[t.v1].x + pts[t.v2].x) / 3.0,
          (pts[t.v0].y + pts[t.v1].y + pts[t.v2].y) / 3.0)
  }

  function Centroids(pts: seq<Point>, tris: seq<Triple>): (cs: seq<Point>)
    requires ValidTriangles(tris, |pts|)
    ensures |cs| == |tris|
  {
    seq(|tris|, k requires 0 <= k < |tris| => Centroid(pts, tris[k]))
  }

  /** Axis-aligned extents, as `Path.get_extents` reports them. */
  datatype Bbox = Bbox(xmin: real, xmax: real, ymin: real, ymax: real) {
    predicate Contains(p: Point) {
      xmin <= p.x && xmax >= p.x && ymin <= p.y && ymax >= p.y
    }
  }

  /** The extents of a ring; an empty ring has the null box, which holds no point. */
  function Extents(r: Ring): (b: Option<Bbox>)
    ensures b.None? <==> |r| == 0
    ensures b.Some? ==> forall k :: 0 <= k < |r| ==> b.value.Contains(r[k])
    ensures b.Some? ==>
      && (exists k :: 0 <= k < |r| && r[k].x == b.value.xmin)
      && (exists k :: 0 <= k < |r| && r[k].x == b.value.xmax)
      && (exists k :: 0 <= k < |r| && r[k].y == b.value.ymin)
      && (exists k :: 0 <= k < |r| && r[k].y == b.value.ymax)
  {
    var xs := seq(|r|, k requires 0 <= k < |r| => r[k].x);
    var ys := seq(|r|, k requires 0 <= k < |r| => r[k].y);
    if |r| == 0 then None
    else
      var b := Bbox(MinOf(xs).value, MaxOf(xs).value, MinOf(ys).value, MaxOf(ys).value);
      assert forall k :: 0 <= k < |r| ==> xs[k] == r[k].x && ys[k] == r[k].y;
      Some(b)
  }

  /** The point lies in the ring's extents. */
  predicate InBox(r: Ring, p: Point) {
    match Extents(r)
    case None => false
    case Some(b) => b.Contains(p)
  }
}
