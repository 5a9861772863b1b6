/**
 * The planar-straight-line-graph domain object and its attribute cache.
 *
 * The object keeps the elevation window (`zmin`, `zmax`), the destination
 * coordinate reference system, and three lazily computed values: the polygon
 * collection built from the rasters, the flattened ring coordinates, and the
 * masked triangulation. Assigning a new elevation bound or a new reference
 * system drops the collection, and dropping the collection drops the
 * triangulation. Dropping stops early when nothing was cached, because the
 * first failing `del` aborts the rest of the deleter. The coordinates are
 * never dropped.
 */
module Pslg {
  import opened Wrappers
  import opened Geometry
  import opened RingCoords
  import opened TriangleMask
  import opened BoundaryEdges

  /**
   * The code the object calls but that is not modelled: the polygon collection the
   * raster pipeline produces for the current window, matplotlib's Delaunay
   * triangulation and neighbour table, and point-in-polygon.
   */
  datatype Collaborators = Collaborators(
    built: MultiPolygon,
    delaunay: seq<Point> -> seq<Triple>,
    neighbors: seq<Triple> -> seq<Triple>,
    contains: Containment)

  /** Delaunay only produces triangles over the given points; the neighbour table has one row per triangle. */
  ghost predicate Sound(env: Collaborators) {
    && (forall pts: seq<Point> :: ValidTriangles(env.delaunay(pts), |pts|))
    && (forall tris: seq<Triple> :: |env.neighbors(tris)| == |tris|)
  }

  /** The private attributes; `None` is an attribute that is not set. */
  datatype Cache = Cache(
    zmin: Option<real>,
    zmax: Option<real>,
    dstCrs: Option<string>,
    collection: Option<MultiPolygon>,
    coords: Option<seq<Point>>,
    triangulation: Option<Mesh>)

  /** Both elevation bounds are set, so reading `zmin` and `zmax` does not raise. */
  predicate BoundsSet(c: Cache) {
    c.zmin.Some? && c.zmax.Some?
  }

  /**
   * A triangulation is only ever built after the collection and the
   * coordinates, and a collection only while both bounds are set.
   */
  predicate Coherent(c: Cache) {
    && (c.triangulation.Some? ==> c.collection.Some? && c.coords.Some?)
    && (c.collection.Some? ==> BoundsSet(c))
  }

  /** The `_triangulation` deleter: only the triangulation goes. */
  function DropTriangulation(c: Cache): (d: Cache)
    ensures d.triangulation.None?
    ensures d.zmin == c.zmin && d.zmax == c.zmax && d.dstCrs == c.dstCrs
    ensures d.collection == c.collection && d.coords == c.coords
    ensures Coherent(c) ==> Coherent(d)
  {
    c.(triangulation := None)
  }

  /** The `_collection` deleter: the second `del` only runs when the first one succeeded. */
  function DropCollection(c: Cache): (d: Cache)
    ensures c.collection.None? ==> d == c
    ensures d.collection.None? && d.zmin == c.zmin && d.zmax == c.zmax && d.dstCrs == c.dstCrs && d.coords == c.coords
    ensures c.collection.Some? ==> d.triangulation.None?
    ensures Coherent(c) ==> Coherent(d) && d.triangulation.None?
  {
    if c.collection.Some? then DropTriangulation(c.(collection := None)) else c
  }

  /** The `_zmin` deleter. */
  function DropZmin(c: Cache): (d: Cache)
    ensures d.zmin.None? && d.zmax == c.zmax && d.dstCrs == c.dstCrs && d.coords == c.coords
    ensures c.zmin.None? ==> d == c
    ensures c.zmin.Some? ==> d.collection.None? && (Coherent(c) ==> d.triangulation.None?)
    ensures Coherent(c) ==> Coherent(d)
  {
    if c.zmin.Some? then DropCollection(c.(zmin := None)) else c
  }

  /** The `_zmax` deleter. */
  function DropZmax(c: Cache): (d: Cache)
    ensures d.zmax.None? && d.zmin == c.zmin && d.dstCrs == c.dstCrs && d.coords == c.coords
    ensures c.zmax.None? ==> d == c
    ensures c.zmax.Some? ==> d.collection.None? && (Coherent(c) ==> d.triangulation.None?)
    ensures Coherent(c) ==> Coherent(d)
  {
    if c.zmax.Some? then DropCollection(c.(zmax := None)) else c
  }

  /**
   * The `_zmin` setter. `None` runs the deleter. A value equal to the stored
   * one changes nothing; a different one drops the collection; the first
   * value, when none is stored, is only stored (the comparison raises and is
   * swallowed).
   */
  function StoreZmin(c: Cache, z: Option<real>): (d: Cache)
    ensures z.None? ==> d == DropZmin(c)
    ensures z.Some? && c.zmin == z ==> d == c
    ensures z.Some? && c.zmin.None? ==> d == c.(zmin := z)
    ensures z.Some? && c.zmin.Some? && c.zmin != z ==>
      d.zmin == z && d.collection.None? && (Coherent(c) ==> d.triangulation.None?)
    ensures d.zmax == c.zmax && d.dstCrs == c.dstCrs && d.coords == c.coords
    ensures Coherent(c) ==> Coherent(d)
  {
    if z.None? then DropZmin(c)
    else
      var c' := if c.zmin.Some? && z.value != c.zmin.value then DropCollection(c) else c;
      c'.(zmin := z)
  }

  /** The `_zmax` setter, the same rules as `StoreZmin` for the upper bound. */
  function StoreZmax(c: Cache, z: Option<real>): (d: Cache)
    ensures z.None? ==> d == DropZmax(c)
    ensures z.Some? && c.zmax == z ==> d == c
    ensures z.Some? && c.zmax.None? ==> d == c.(zmax := z)
    ensures z.Some? && c.zmax.Some? && c.zmax != z ==>
      d.zmax == z && d.collection.None? && (Coherent(c) ==> d.triangulation.None?)
    ensures d.zmin == c.zmin && d.dstCrs == c.dstCrs && d.coords == c.coords
    ensures Coherent(c) ==> Coherent(d)
  {
    if z.None? then DropZmax(c)
    else
      var c' := if c.zmax.Some? && z.value != c.zmax.value then DropCollection(c) else c;
      c'.(zmax := z)
  }

  /** The `dst_crs` / `_dst_crs` setters: always attempt to drop the collection, equal value or not. */
  function StoreDstCrs(c: Cache, crs: string): (d: Cache)
    ensures d.dstCrs == Some(crs) && d.collection.None?
    ensures d.zmin == c.zmin && d.zmax == c.zmax && d.coords == c.coords
    ensures c.collection.None? ==> d.triangulation == c.triangulation
    ensures Coherent(c) ==> Coherent(d) && d.triangulation.None?
  {
    DropCollection(c).(dstCrs := Some(crs))
  }

  /**
   * The `_collection` getter: built once, then returned from the cache.
   * Building reads `zmin` and `zmax`, which raises while either is unset;
   * `None` is that error, and nothing changes.
   */
  function GetCollection(c: Cache, built: MultiPolygon): (r: (Cache, Option<MultiPolygon>))
    ensures r.1.None? <==> c.collection.None? && !BoundsSet(c)
    ensures r.1.None? ==> r.0 == c
    ensures c.collection.Some? ==> r == (c, c.collection)
    ensures c.collection.None? && BoundsSet(c) ==> r == (c.(collection := Some(built)), Some(built))
    ensures r.1.Some? ==> r.0.collection == r.1
    ensures Coherent(c) ==> Coherent(r.0)
  {
    if c.collection.Some? then (c, c.collection)
    else if !BoundsSet(c) then (c, None)
    else (c.(collection := Some(built)), Some(built))
  }

  /**
   * The `coords` getter: the flattened rings of the collection, computed
   * once. It raises, changing nothing, when it has to build the collection
   * and cannot.
   */
  function GetCoords(c: Cache, built: MultiPolygon): (r: (Cache, Option<seq<Point>>))
    ensures r.1.None? <==> c.coords.None? && c.collection.None? && !BoundsSet(c)
    ensures r.1.None? ==> r.0 == c
    ensures c.coords.Some? ==> r == (c, c.coords)
    ensures c.coords.None? && r.1.Some? ==>
      && r.0.coords == r.1
      && r.0.collection == GetCollection(c, built).0.collection
      && r.1.value == Coordinates(r.0.collection.value)
      && r.0.triangulation == c.triangulation
    ensures r.0.zmin == c.zmin && r.0.zmax == c.zmax && r.0.dstCrs == c.dstCrs
    ensures Coherent(c) ==> Coherent(r.0)
  {
    if c.coords.Some? then (c, c.coords)
    else
      var (c1, mp) := GetCollection(c, built);
      if mp.None? then (c1, None)
      else
        var pts := Coordinates(mp.value);
        (c1.(coords := Some(pts)), Some(pts))
  }

  /**
   * The `_triangulation` getter: Delaunay over the coordinates (cached ones
   * are reused), masked by the collection's polygons, computed once. It
   * raises, changing nothing, when the collection has to be built and
   * cannot.
   */
  function GetTriangulation(c: Cache, env: Collaborators): (r: (Cache, Option<Mesh>))
    requires Sound(env)
    ensures r.1.None? <==> c.triangulation.None? && c.collection.None? && !BoundsSet(c)
    ensures r.1.None? ==> r.0 == c
    ensures c.triangulation.Some? ==> r == (c, c.triangulation)
    ensures c.triangulation.None? && r.1.Some? ==>
      && r.0.triangulation == r.1
      && r.0.coords == GetCoords(c, env.built).0.coords
      && r.0.collection == GetCollection(c, env.built).0.collection
      && r.1.value.points == r.0.coords.value
      && ValidTriangles(env.delaunay(r.1.value.points), |r.1.value.points|)
      && r.1.value.triangles
         == KeptTriangles(r.0.collection.value, r.1.value.points, env.delaunay(r.1.value.points), env.contains)
    ensures c.triangulation.None? && c.coords.Some? && r.1.Some? ==> r.1.value.points == c.coords.value
    ensures c.collection.Some? ==> r.0.collection == c.collection
    ensures r.0.zmin == c.zmin && r.0.zmax == c.zmax && r.0.dstCrs == c.dstCrs
    ensures Coherent(c) ==> Coherent(r.0)
  {
    if c.triangulation.Some? then (c, c.triangulation)
    else
      var (c1, pts) := GetCoords(c, env.built);
      if pts.None? then (c1, None)
      else
        var (c2, mp) := GetCollection(c1, env.built);
        if mp.None? then (c2, None)
        else
          var tris := env.delaunay(pts.value);
          var m := Mesh(pts.value, KeptTriangles(mp.value, pts.value, tris, env.contains));
          (c2.(triangulation := Some(m)), Some(m))
  }

  /**
   * After a change of `zmin` the triangulation is rebuilt from the old
   * coordinates, since nothing drops them, but masked with the newly built
   * collection.
   */
  lemma RebuildReusesCoords(c: Cache, z: real, env: Collaborators)
    requires Sound(env) && Coherent(c) && c.zmin.Some? && c.zmin.value != z
    requires c.zmax.Some? && c.coords.Some?
    ensures var r := GetTriangulation(StoreZmin(c, Some(z)), env);
      && r.1.Some?
      && r.1.value.points == c.coords.value
      && r.0.collection == Some(env.built)
  {
    var d := StoreZmin(c, Some(z));
    assert d.collection.None? && d.triangulation.None? && BoundsSet(d);
  }

  /** Assigning the stored `zmin` again keeps a cached triangulation. */
  lemma SameZminKeepsTriangulation(c: Cache, env: Collaborators)
    requires Sound(env) && c.zmin.Some? && c.triangulation.Some?
    ensures GetTriangulation(StoreZmin(c, c.zmin), env) == (c, c.triangulation)
  {
  }

  /**
   * Once `zmin` is deleted, the triangulation (and so `edge2`) raises until
   * a bound is assigned again, and the coordinates are only available if
   * they were cached before.
   */
  lemma DeletedZminRaises(c: Cache, env: Collaborators)
    requires Sound(env) && Coherent(c)
    ensures GetTriangulation(StoreZmin(c, None), env).1.None?
    ensures GetCoords(StoreZmin(c, None), env.built).1.None? <==> c.coords.None?
  {
    var d := StoreZmin(c, None);
    assert d.collection.None? && d.triangulation.None? && !BoundsSet(d);
  }

  class PlanarStraightLineGraph {
    var zmin: Option<real>
    var zmax: Option<real>
    var dstCrs: Option<string>
    var collection: Option<MultiPolygon>
    var coords: Option<seq<Point>>
    var triangulation: Option<Mesh>

    ghost function State(): Cache
      reads this
    {
      Cache(zmin, zmax, dstCrs, collection, coords, triangulation)
    }

    ghost predicate Valid()
      reads this
    {
      Coherent(State())
    }

    /** `__init__`: nothing cached, then the three setters in the source's order. */
    constructor (zmin: Option<real>, zmax: Option<real>, dstCrs: string)
      ensures Valid()
      ensures State() == Cache(zmin, zmax, Some(dstCrs), None, None, None)
    {
      this.zmin, this.zmax, this.dstCrs := None, None, None;
      collection, coords, triangulation := None, None, None;
      new;
      SetZmin(zmin);
      SetZmax(zmax);
      SetDstCrs(dstCrs);
    }

    method DeleteTriangulation()
      requires Valid()
      modifies this
      ensures Valid()
      ensures State() == DropTriangulation(old(State()))
    {
      triangulation := None;
    }

    method DeleteCollection()
      requires Valid()
      modifies this
      ensures Valid()
      ensures State() == DropCollection(old(State()))
    {
      if collection.Some? {
        collection := None;
        triangulation := None;
      }
    }

    method DeleteZmin()
      requires Valid()
      modifies this
      ensures Valid()
      ensures State() == DropZmin(old(State()))
    {
      // the two deletions touch disjoint attributes; the collection goes first
      // so that no intermediate state holds a collection without its bound
      if zmin.Some? {
        DeleteCollection();
        zmin := None;
      }
    }

    method DeleteZmax()
      requires Valid()
      modifies this
      ensures Valid()
      ensures State() == DropZmax(old(State()))
    {
      // the two deletions touch disjoint attributes; the collection goes first
      // so that no intermediate state holds a collection without its bound
      if zmax.Some? {
        DeleteCollection();
        zmax := None;
      }
    }

    method SetZmin(z: Option<real>)
      requires Valid()
      modifies this
      ensures Valid()
      ensures State() == StoreZmin(old(State()), z)
    {
      if z.None? {
        DeleteZmin();
      } else {
        if zmin.Some? && z.value != zmin.value {
          DeleteCollection();
        }
        zmin := z;
      }
    }

    method SetZmax(z: Option<real>)
      requires Valid()
      modifies this
      ensures Valid()
      ensures State() == StoreZmax(old(State()), z)
    {
      if z.None? {
        DeleteZmax();
      } else {
        if zmax.Some? && z.value != zmax.value {
          DeleteCollection();
        }
        zmax := z;
      }
    }

    method SetDstCrs(crs: string)
      requires Valid()
      modifies this
      ensures Valid()
      ensures State() == StoreDstCrs(old(State()), crs)
    {
      DeleteCollection();
      dstCrs := Some(crs);
    }

    /** `None` is the `AttributeError` of reading an unset bound. */
    method Collection(built: MultiPolygon) returns (mp: Option<MultiPolygon>)
      requires Valid()
      modifies this
      ensures Valid()
      ensures (State(), mp) == GetCollection(old(State()), built)
    {
      if collection.None? {
        if zmin.None? || zmax.None? {
          return None;
        }
        collection := Some(built);
      }
      mp := collection;
    }

    method Coords(built: MultiPolygon) returns (pts: Option<seq<Point>>)
      requires Valid()
      modifies this
      ensures Valid()
      ensures (State(), pts) == GetCoords(old(State()), built)
    {
      if coords.Some? {
        return coords;
      }
      var mp := Collection(built);
      if mp.None? {
        return None;
      }
      var flat := FlattenCoords(mp.value);
      coords := Some(flat);
      pts := coords;
    }

    method Triangulation(env: Collaborators) returns (m: Option<Mesh>)
      requires Valid() && Sound(env)
      modifies this
      ensures Valid()
      ensures (State(), m) == GetTriangulation(old(State()), env)
    {
      if triangulation.Some? {
        return triangulation;
      }
      var pts := Coords(env.built);
      if pts.None? {
        return None;
      }
      var tris := env.delaunay(pts.value);
      var mp := Collection(env.built);
      if mp.None? {
        return None;
      }
      var kept := KeepTriangles(mp.value, pts.value, tris, env.contains);
      m := Some(Mesh(pts.value, kept));
      triangulation := m;
    }

    /** `edge2`: the boundary edges of the (lazily built) triangulation; `None` where building it raises. */
    method Edge2Table(env: Collaborators) returns (es: Option<seq<Edge>>)
      requires Valid() && Sound(env)
      modifies this
      ensures Valid()
      ensures var (c, m) := GetTriangulation(old(State()), env);
        && State() == c
        && (m.None? ==> es.None?)
        && (m.Some? ==> es == Some(Edge2(m.value.triangles, env.neighbors(m.value.triangles))))
    {
      var m := Triangulation(env);
      if m.None? {
        return None;
      }
      es := Some(Edge2(m.value.triangles, env.neighbors(m.value.triangles)));
    }
  }
}
