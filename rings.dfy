/**
 * Ring flattening of the domain graph (`coords`): the vertex table is every
 * ring of every polygon stacked in one fixed order: polygon by polygon,
 * the exterior ring first and then the interior rings in their order.
 */
module RingCoords {
  import opened Geometry
  import opened Indices

  /** A polygon's rings in the order they are stacked. */
  function PolygonRings(p: Polygon): seq<Ring> {
    [p.exterior] + p.interiors
  }

  /** The rings of a multipolygon in stacking order. */
  function AllRings(mp: MultiPolygon): seq<Ring> {
    Concat(seq(|mp|, i requires 0 <= i < |mp| => PolygonRings(mp[i])))
  }

  /** The flattened vertex table, as a specification. */
  function Coordinates(mp: MultiPolygon): seq<Point> {
    Concat(AllRings(mp))
  }

  lemma ConcatSnoc<T>(ss: seq<seq<T>>, s: seq<T>)
    ensures Concat(ss + [s]) == Concat(ss) + s
  {
    assert (ss + [s])[..|ss|] == ss;
  }

  lemma AllRingsSnoc(mp: MultiPolygon, i: nat)
    requires i < |mp|
    ensures AllRings(mp[..i + 1]) == AllRings(mp[..i]) + PolygonRings(mp[i])
  {
    var f := seq(i + 1, k requires 0 <= k < i + 1 => PolygonRings(mp[..i + 1][k]));
    var g := seq(i, k requires 0 <= k < i => PolygonRings(mp[..i][k]));
    assert f == g + [PolygonRings(mp[i])];
    ConcatSnoc(g, PolygonRings(mp[i]));
  }

  /** A polygon's rings stack to the exterior followed by the stacked holes. */
  lemma PolygonRingsConcat(p: Polygon)
    ensures Concat(PolygonRings(p)) == p.exterior + Concat(p.interiors)
  {
    var noRing: seq<Ring> := [];
    assert [p.exterior] == noRing + [p.exterior];
    ConcatSnoc(noRing, p.exterior);
    ConcatAppend([p.exterior], p.interiors);
  }

  /** The inner loop of `coords`: stack each hole onto the table in turn. */
  method StackRings(coords: seq<Point>, rings: seq<Ring>) returns (out: seq<Point>)
    ensures out == coords + Concat(rings)
  {
    out := coords;
    for h := 0 to |rings|
      invariant out == coords + Concat(rings[..h])
    {
      assert rings[..h + 1] == rings[..h] + [rings[h]];
      ConcatSnoc(rings[..h], rings[h]);
      out := out + rings[h];
    }
    assert rings[..|rings|] == rings;
  }

  /** The loop of `coords`: start empty and stack each ring in turn. */
  method FlattenCoords(mp: MultiPolygon) returns (coords: seq<Point>)
    ensures coords == Coordinates(mp)
  {
    coords := [];
    for i := 0 to |mp|
      invariant coords == Coordinates(mp[..i])
    {
      coords := coords + mp[i].exterior;
      coords := StackRings(coords, mp[i].interiors);
      PolygonRingsConcat(mp[i]);
      AllRingsSnoc(mp, i);
      ConcatAppend(AllRings(mp[..i]), PolygonRings(mp[i]));
    }
    assert mp[..|mp|] == mp;
  }

  /** Flattening two multipolygons one after the other stacks their tables. */
  lemma CoordinatesAppend(a: MultiPolygon, b: MultiPolygon)
    ensures Coordinates(a + b) == Coordinates(a) + Coordinates(b)
  {
    var fa := seq(|a|, i requires 0 <= i < |a| => PolygonRings(a[i]));
    var fb := seq(|b|, i requires 0 <= i < |b| => PolygonRings(b[i]));
    var fab := seq(|a + b|, i requires 0 <= i < |a + b| => PolygonRings((a + b)[i]));
    assert fab == fa + fb;
    ConcatAppend(fa, fb);
    ConcatAppend(Concat(fa), Concat(fb));
  }

  /** One polygon flattens to its exterior ring followed by its interior rings. */
  lemma CoordinatesOfPolygon(p: Polygon)
    ensures Coordinates([p]) == p.exterior + Concat(p.interiors)
  {
    var f := seq(1, i requires 0 <= i < 1 => PolygonRings([p][i]));
    var none: seq<seq<Ring>> := [];
    assert f == none + [PolygonRings(p)];
    ConcatSnoc(none, PolygonRings(p));
    assert AllRings([p]) == PolygonRings(p);
    ConcatAppend([p.exterior], p.interiors);
    var noRing: seq<Ring> := [];
    assert [p.exterior] == noRing + [p.exterior];
    ConcatSnoc(noRing, p.exterior);
  }

  /** A point is in the table exactly when it is a vertex of one of the rings,
      and the table is as long as all rings together. */
  lemma CoordinatesMembers(mp: MultiPolygon, q: Point)
    ensures |Coordinates(mp)| == TotalLength(AllRings(mp))
    ensures q in Coordinates(mp) <==> exists r :: r in AllRings(mp) && q in r
  {
    ConcatMembers(AllRings(mp), q);
    var rs := AllRings(mp);
    if exists r :: r in rs && q in r {
      var r :| r in rs && q in r;
      var i :| 0 <= i < |rs| && rs[i] == r;
      assert q in rs[i];
    }
  }
}
