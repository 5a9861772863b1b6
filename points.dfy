/**
 * The grid-point collection of the size function's triangulation step: each
 * raster's grid is expanded with `numpy.meshgrid` and flattened row-major,
 * the grid points whose band value is the raster's nodata value are masked
 * out of the x, y and band columns alike, and the surviving `(x, y, band)`
 * rows of all rasters are stacked in raster order.
 */
module GridPoints {
  import opened Indices

  datatype Point3 = Point3(x: real, y: real, z: real)

  /** One raster as it reaches the filter: its axes, its band (row-major, one row per `y`) and its nodata value. */
  datatype Grid = Grid(xs: seq<real>, ys: seq<real>, band: seq<real>, nodata: real)

  /** The band has the meshgrid's shape. */
  predicate WellShaped(g: Grid) {
    |g.band| == |g.ys| * |g.xs|
  }

  lemma RowColumn(k: nat, nx: nat, ny: nat)
    requires k < ny * nx
    ensures nx > 0 && k / nx < ny && k % nx < nx
  {
    assert nx != 0 by {
      assert ny * nx > 0;
    }
    var q := k / nx;
    assert q * nx <= k;
    assert (ny - q) * nx == ny * nx - q * nx;
    assert (ny - q) * nx > 0;
  }

  /** Flattened `x` of `numpy.meshgrid(xs, ys)`: entry `k` is column `k % nx`. */
  function MeshX(g: Grid): (r: seq<real>)
    requires WellShaped(g)
    ensures |r| == |g.band|
  {
    seq(|g.band|, k requires 0 <= k < |g.band| => RowColumn(k, |g.xs|, |g.ys|); g.xs[k % |g.xs|])
  }

  /** Flattened `y` of `numpy.meshgrid(xs, ys)`: entry `k` is row `k / nx`. */
  function MeshY(g: Grid): (r: seq<real>)
    requires WellShaped(g)
    ensures |r| == |g.band|
  {
    seq(|g.band|, k requires 0 <= k < |g.band| => RowColumn(k, |g.xs|, |g.ys|); g.ys[k / |g.xs|])
  }

  /** `~numpy.ma.masked_equal(band, nodata).mask`. */
  function DataMask(g: Grid): (r: seq<bool>)
    ensures |r| == |g.band|
  {
    seq(|g.band|, k requires 0 <= k < |g.band| => g.band[k] != g.nodata)
  }

  /** The three masked columns, stacked side by side. */
  function RasterPoints(g: Grid): (r: seq<Point3>)
    requires WellShaped(g)
    ensures |r| <= |g.band| && forall m :: 0 <= m < |r| ==> r[m].z != g.nodata
  {
    var keep := DataMask(g);
    GatherExactly(g.band, keep);
    var x, y, z := Gather(MeshX(g), keep), Gather(MeshY(g), keep), Gather(g.band, keep);
    seq(|x|, m requires 0 <= m < |x| => Point3(x[m], y[m], z[m]))
  }

  /**
   * The emitted rows are exactly the grid points whose band value is not
   * nodata, in grid order, and each row's `x`, `y` and band value belong to
   * the same grid point.
   */
  lemma RasterPointsExactly(g: Grid)
    requires WellShaped(g)
    ensures var pts, w := RasterPoints(g), Where(DataMask(g));
      && |pts| == |w|
      && (forall m :: 0 <= m < |pts| ==>
            && w[m] < |g.band| && g.band[w[m]] != g.nodata
            && w[m] / |g.xs| < |g.ys|
            && pts[m] == Point3(g.xs[w[m] % |g.xs|], g.ys[w[m] / |g.xs|], g.band[w[m]]))
      && (forall k :: 0 <= k < |g.band| && g.band[k] != g.nodata ==> k in w)
      && (forall a, b :: 0 <= a < b < |w| ==> w[a] < w[b])
  {
    var keep := DataMask(g);
    GatherExactly(MeshX(g), keep);
    GatherExactly(MeshY(g), keep);
    GatherExactly(g.band, keep);
    var w := Where(keep);
    forall m | 0 <= m < |w| ensures w[m] / |g.xs| < |g.ys| {
      RowColumn(w[m], |g.xs|, |g.ys|);
    }
    forall k | 0 <= k < |g.band| && g.band[k] != g.nodata ensures k in w {
      assert keep[k];
    }
  }

  /** Every raster's rows, in raster order. */
  function AllPoints(grids: seq<Grid>): seq<Point3>
    requires forall i :: 0 <= i < |grids| ==> WellShaped(grids[i])
  {
    Concat(seq(|grids|, i requires 0 <= i < |grids| => RasterPoints(grids[i])))
  }

  /** The `points = numpy.vstack([points, ...])` loop over the rasters. */
  method CollectPoints(grids: seq<Grid>) returns (points: seq<Point3>)
    requires forall i :: 0 <= i < |grids| ==> WellShaped(grids[i])
    ensures points == AllPoints(grids)
  {
    points := [];
    for i := 0 to |grids|
      invariant points == AllPoints(grids[..i])
    {
      var blocks := seq(i, j requires 0 <= j < i => RasterPoints(grids[..i][j]));
      var blocks' := seq(i + 1, j requires 0 <= j < i + 1 => RasterPoints(grids[..i + 1][j]));
      assert blocks' == blocks + [RasterPoints(grids[i])];
      assert (blocks + [RasterPoints(grids[i])])[..i] == blocks;
      points := points + RasterPoints(grids[i]);
    }
    assert grids[..|grids|] == grids;
  }

  /** A point is collected exactly when some raster emits it; no row is lost or added. */
  lemma AllPointsMembers(grids: seq<Grid>, p: Point3)
    requires forall i :: 0 <= i < |grids| ==> WellShaped(grids[i])
    ensures p in AllPoints(grids) <==> exists i :: 0 <= i < |grids| && p in RasterPoints(grids[i])
  {
    var blocks := seq(|grids|, i requires 0 <= i < |grids| => RasterPoints(grids[i]));
    ConcatMembers(blocks, p);
    if exists i :: 0 <= i < |grids| && p in RasterPoints(grids[i]) {
      var i :| 0 <= i < |grids| && p in RasterPoints(grids[i]);
      assert p in blocks[i];
    }
  }
}
