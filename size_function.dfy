/**
 * The size-function object: built over a domain graph, it keeps a
 * destination reference system, a lazily defaulted and validated `scaling`
 * mode, and a lazily built triangulation with one size value per point.
 */
module SizeFunctionState {
  import opened Wrappers
  import opened Geometry
  import opened Reals
  import opened TriangleMask
  import opened GridPoints
  import Pslg

  datatype Scaling = Absolute | Relative

  function ScalingName(s: Scaling): string {
    match s
    case Absolute => "absolute"
    case Relative => "relative"
  }

  /** The `_scaling` setter's check: only the two names are accepted. */
  function ParseScaling(name: string): (r: Option<Scaling>)
    ensures r.Some? <==> name == "absolute" || name == "relative"
    ensures r.Some? ==> ScalingName(r.value) == name
  {
    if name == "absolute" then Some(Absolute)
    else if name == "relative" then Some(Relative)
    else None
  }

  /** Every mode's name is accepted and read back as that mode. */
  lemma ParseScalingName(s: Scaling)
    ensures ParseScaling(ScalingName(s)) == Some(s)
  {
  }

  /** The point table of a triangulation built from collected rows. */
  function PlanarPoints(pts: seq<Point3>): (r: seq<Point>)
    ensures |r| == |pts| && forall i :: 0 <= i < |pts| ==> r[i] == Point(pts[i].x, pts[i].y)
  {
    seq(|pts|, i requires 0 <= i < |pts| => Point(pts[i].x, pts[i].y))
  }

  /** The value column `points[:, 2]`. */
  function SizeColumn(pts: seq<Point3>): (r: seq<real>)
    ensures |r| == |pts| && forall i :: 0 <= i < |pts| ==> r[i] == pts[i].z
  {
    seq(|pts|, i requires 0 <= i < |pts| => pts[i].z)
  }

  /** `hmin` and `hmax` bracket every size value, and both exist unless there are no values. */
  lemma BoundsBracketValues(values: seq<real>)
    ensures MinOf(values).Some? <==> MaxOf(values).Some?
    ensures MinOf(values).Some? ==>
      forall k :: 0 <= k < |values| ==> MinOf(values).value <= values[k] <= MaxOf(values).value
  {
  }

  /**
   * What `_set_triangulation` produces from a domain-graph state: the
   * domain graph's state afterwards and, unless reading its polygons
   * raises, a triangulation over the collected rows' planar points, masked
   * by those polygons, with one size value per point.
   */
  function BuildTriangulation(c: Pslg.Cache, grids: seq<Grid>, env: Pslg.Collaborators)
    : (r: (Pslg.Cache, Option<(Mesh, seq<real>)>))
    requires forall i :: 0 <= i < |grids| ==> WellShaped(grids[i])
    requires Pslg.Sound(env)
    ensures r.0 == Pslg.GetCollection(c, env.built).0
    ensures r.1.None? <==> Pslg.GetCollection(c, env.built).1.None?
    ensures r.1.Some? ==>
      var (m, v) := r.1.value;
      var rows := AllPoints(grids);
      && |m.points| == |rows| && |v| == |rows|
      && (forall i :: 0 <= i < |rows| ==> m.points[i] == Point(rows[i].x, rows[i].y) && v[i] == rows[i].z)
      && ValidTriangles(m.triangles, |m.points|)
      && m.triangles
         == KeptTriangles(Pslg.GetCollection(c, env.built).1.value, m.points, env.delaunay(m.points), env.contains)
  {
    var (c1, mp) := Pslg.GetCollection(c, env.built);
    if mp.None? then (c1, None)
    else
      var rows := AllPoints(grids);
      var pts := PlanarPoints(rows);
      (c1, Some((Mesh(pts, KeptTriangles(mp.value, pts, env.delaunay(pts), env.contains)), SizeColumn(rows))))
  }

  class SizeFunction {
    const pslg: Pslg.PlanarStraightLineGraph
    var dstCrs: string
    var scaling: Option<Scaling>
    var triangulation: Option<Mesh>
    var values: Option<seq<real>>

    /** The domain graph is coherent, and the triangulation and the values are only ever set together. */
    ghost predicate Valid()
      reads this, pslg
    {
      pslg.Valid() && (triangulation.Some? <==> values.Some?)
    }

    /** `__init__`: the reference-system setter also resets the domain graph's collection. */
    constructor (pslg: Pslg.PlanarStraightLineGraph, dstCrs: string)
      requires pslg.Valid()
      modifies pslg
      ensures Valid()
      ensures this.pslg == pslg && this.dstCrs == dstCrs
      ensures scaling.None? && triangulation.None? && values.None?
      ensures pslg.State() == Pslg.StoreDstCrs(old(pslg.State()), dstCrs)
    {
      this.pslg := pslg;
      this.dstCrs := dstCrs;
      scaling, triangulation, values := None, None, None;
      new;
      SetDstCrs(dstCrs);
    }

    /** The `dst_crs` / `_dst_crs` setters: forwarded to the domain graph, then stored. */
    method SetDstCrs(crs: string)
      requires Valid()
      modifies this`dstCrs, pslg
      ensures Valid()
      ensures dstCrs == crs
      ensures pslg.State() == Pslg.StoreDstCrs(old(pslg.State()), crs)
    {
      pslg.SetDstCrs(crs);
      dstCrs := crs;
    }

    /** The `scaling` getter: "absolute" until a mode is set, and that default is then stored. */
    method GetScaling() returns (s: Scaling)
      requires Valid()
      modifies this`scaling
      ensures Valid()
      ensures s == if old(scaling).Some? then old(scaling).value else Absolute
      ensures scaling == Some(s)
    {
      if scaling.None? {
        var ok := SetScaling("absolute");
      }
      s := scaling.value;
    }

    /** The `scaling` setter: a name other than the two modes fails before anything is stored. */
    method SetScaling(name: string) returns (ok: bool)
      requires Valid()
      modifies this`scaling
      ensures Valid()
      ensures ok <==> name == "absolute" || name == "relative"
      ensures scaling == if ok then ParseScaling(name) else old(scaling)
    {
      var parsed := ParseScaling(name);
      ok := parsed.Some?;
      if ok {
        scaling := parsed;
      }
    }

    /**
     * `_set_triangulation` from the point-collection step on: the rows of all
     * rasters, Delaunay over their planar points, the same keep/discard
     * fold as the domain graph against its polygons, and the value column.
     * `ok` is false where reading the domain graph's polygons raises; then
     * nothing of this object changes.
     */
    method SetTriangulation(grids: seq<Grid>, env: Pslg.Collaborators) returns (ok: bool)
      requires Valid()
      requires forall i :: 0 <= i < |grids| ==> WellShaped(grids[i])
      requires Pslg.Sound(env)
      modifies this`triangulation, this`values, pslg
      ensures Valid()
      ensures var (c, b) := BuildTriangulation(old(pslg.State()), grids, env);
        && pslg.State() == c
        && ok == b.Some?
        && (b.Some? ==> triangulation == Some(b.value.0) && values == Some(b.value.1))
        && (b.None? ==> triangulation == old(triangulation) && values == old(values))
    {
      var rows := CollectPoints(grids);
      var mp := pslg.Collection(env.built);
      if mp.None? {
        return false;
      }
      var pts := PlanarPoints(rows);
      var tris := env.delaunay(pts);
      var kept := KeepTriangles(mp.value, pts, tris, env.contains);
      triangulation := Some(Mesh(pts, kept));
      values := Some(SizeColumn(rows));
      ok := true;
    }

    /** The `_values` getter: built on first use (with the triangulation), then cached; `None` where building raises. */
    method Values(grids: seq<Grid>, env: Pslg.Collaborators) returns (v: Option<seq<real>>)
      requires Valid()
      requires forall i :: 0 <= i < |grids| ==> WellShaped(grids[i])
      requires Pslg.Sound(env)
      modifies this`triangulation, this`values, pslg
      ensures Valid()
      ensures old(values).Some? ==> v == old(values) && unchanged(this) && unchanged(pslg)
      ensures old(values).None? ==>
        var (c, b) := BuildTriangulation(old(pslg.State()), grids, env);
        && pslg.State() == c
        && (b.Some? ==> v == Some(b.value.1) && triangulation == Some(b.value.0))
        && (b.None? ==> v.None? && triangulation.None?)
      ensures values == v
    {
      if values.None? {
        var ok := SetTriangulation(grids, env);
      }
      v := values;
    }

    /** The `_triangulation` getter: built on first use (with the values), then cached; `None` where building raises. */
    method Triangulation(grids: seq<Grid>, env: Pslg.Collaborators) returns (m: Option<Mesh>)
      requires Valid()
      requires forall i :: 0 <= i < |grids| ==> WellShaped(grids[i])
      requires Pslg.Sound(env)
      modifies this`triangulation, this`values, pslg
      ensures Valid()
      ensures old(triangulation).Some? ==> m == old(triangulation) && unchanged(this) && unchanged(pslg)
      ensures old(triangulation).None? ==>
        var (c, b) := BuildTriangulation(old(pslg.State()), grids, env);
        && pslg.State() == c
        && (b.Some? ==> m == Some(b.value.0) && values == Some(b.value.1))
        && (b.None? ==> m.None? && values.None?)
      ensures triangulation == m
    {
      if triangulation.None? {
        var ok := SetTriangulation(grids, env);
      }
      m := triangulation;
    }

    /**
     * `hmin`: the smallest size value. `None` stands for both ways it
     * raises: building the values raises, or there are no values.
     */
    method HMin(grids: seq<Grid>, env: Pslg.Collaborators) returns (h: Option<real>)
      requires Valid()
      requires forall i :: 0 <= i < |grids| ==> WellShaped(grids[i])
      requires Pslg.Sound(env)
      modifies this`triangulation, this`values, pslg
      ensures Valid()
      ensures old(values).Some? ==> h == MinOf(old(values).value) && unchanged(this) && unchanged(pslg)
      ensures old(values).None? ==>
        var (c, b) := BuildTriangulation(old(pslg.State()), grids, env);
        && pslg.State() == c
        && (b.Some? ==> h == MinOf(b.value.1) && values == Some(b.value.1) && triangulation == Some(b.value.0))
        && (b.None? ==> h.None? && values.None? && triangulation.None?)
    {
      var v := Values(grids, env);
      h := if v.Some? then MinOf(v.value) else None;
    }

    /**
     * `hmax`: the largest size value. `None` stands for both ways it
     * raises: building the values raises, or there are no values.
     */
    method HMax(grids: seq<Grid>, env: Pslg.Collaborators) returns (h: Option<real>)
      requires Valid()
      requires forall i :: 0 <= i < |grids| ==> WellShaped(grids[i])
      requires Pslg.Sound(env)
      modifies this`triangulation, this`values, pslg
      ensures Valid()
      ensures old(values).Some? ==> h == MaxOf(old(values).value) && unchanged(this) && unchanged(pslg)
      ensures old(values).None? ==>
        var (c, b) := BuildTriangulation(old(pslg.State()), grids, env);
        && pslg.State() == c
        && (b.Some? ==> h == MaxOf(b.value.1) && values == Some(b.value.1) && triangulation == Some(b.value.0))
        && (b.None? ==> h.None? && values.None? && triangulation.None?)
    {
      var v := Values(grids, env);
      h := if v.Some? then MaxOf(v.value) else None;
    }
  }
}
