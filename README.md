# geomesh domain graph and size function, modelled in Dafny

This project models two pieces of the `geomesh` package of OCSMesh. It
models their behaviour and proves properties of that behaviour.

- **The planar-straight-line-graph domain object** (`geomesh/pslg.py`).
  It extracts boundary edges from a triangulation's neighbour table
  (`edge2`). It flattens the polygon rings into a vertex table (`coords`).
  It builds the masked triangulation by a keep/discard fold over the
  triangle centroids (`_triangulation`). It also keeps an attribute cache:
  the elevation window `zmin`/`zmax`, the destination reference system, the
  polygon collection, the coordinates and the triangulation, with setters
  and deleters that invalidate parts of that cache.
- **The size-function object** (`geomesh/size_function.py`). This covers the
  linear size-from-distance rule and the clamping to `hmin`/`hmax`. It also
  covers the element-wise minimum over the bands tagged `SIZE_FUNCTION`, the
  nodata filter over the meshgrid of each raster, the stacking of the
  surviving rows, `hmin`/`hmax` of the values, and the validated, lazily
  defaulted `scaling` mode.

Layout, one module per file:

| file | module | contents |
|---|---|---|
| wrappers.dfy | Wrappers | `Option`, standing for `None` and for attributes that are not set |
| indices.dfy | Indices | `numpy.where` (`Where`), boolean-mask indexing (`Gather`), `vstack` (`Concat`) |
| reals.dfy | Reals | `numpy.min`/`numpy.max`, with `None` for an empty array |
| geometry.dfy | Geometry | points, rings, polygons, triangle tables, centroids, ring extents |
| edges.dfy | BoundaryEdges | `edge2` and its per-triangle reference definition |
| rings.dfy | RingCoords | the `coords` flattening loop |
| mask.dfy | TriangleMask | the keep/discard fold, in place on a `bool` array |
| pslg.dfy | Pslg | the attribute cache as pure transitions, and the class that mutates it |
| sizing.dfy | Sizing | the size rule and the in-place clamp |
| bands.dfy | Bands | the band-minimum fold |
| points.dfy | GridPoints | the nodata filter and the row stacking |
| size_function.dfy | SizeFunctionState | the size-function class |

How the model is specified:

- Each state-changing method of the two classes is tied to a pure function
  on the `Pslg.Cache` record of private attributes, for example
  `State() == StoreZmin(old(State()), z)`. The cache rules are stated and
  proved about those functions.
- `Coherent` is the invariant that a cached triangulation implies a cached
  collection and cached coordinates, and that a cached collection implies
  both bounds are set. Every transition preserves it, and each class's
  `Valid()` (which includes it) is required and ensured by every
  state-changing method. With it, the early stop of the `_collection`
  deleter never leaves a triangulation behind.
- Reading an unset `zmin` or `zmax` raises `AttributeError` (the
  attributes are absent after `_zmin = None` or a `None` given to the
  constructor). Building the collection reads both, so the collection, the
  coordinates, the triangulation, `edge2` and the size function's
  triangulation raise while a bound is unset and they are not cached. A
  getter that can raise returns `None` for that error and leaves the state
  unchanged.
- The coordinates cache is never dropped. After `zmin` changes, a rebuilt
  triangulation therefore uses the old coordinates, masked with the newly
  built collection (`Pslg.RebuildReusesCoords`). The model reproduces this
  as the code does it.
- The size function's `_set_triangulation` repeats the domain graph's mask
  code (geomesh/size_function.py:124-153). The model uses the single
  `TriangleMask` definition for both.

## Model

| member | source | states |
|---|---|---|
| Indices.WhereExactly | geomesh/pslg.py:127 | `numpy.where` lists every flagged position and nothing else, each once, in strictly increasing row-major order |
| Indices.GatherExactly | geomesh/pslg.py:215-216 | boolean-mask indexing keeps exactly the flagged entries, once each, in their original order |
| Indices.Gather | geomesh/pslg.py:215-216 | boolean-mask indexing returns at most as many entries as it is given, each one of them (the exact characterisation is `GatherExactly`) |
| Reals.MinOf | geomesh/size_function.py:185-186 | the minimum is one of the values and at most every value; `None` exactly for an empty array (where numpy raises) |
| Reals.MaxOf | geomesh/size_function.py:189-190 | the maximum is one of the values and at least every value; `None` exactly for an empty array |
| Geometry.Extents | geomesh/pslg.py:193 | a ring's extents contain every vertex of the ring and are the tightest such box (each bound is attained by a vertex); an empty ring has the null box |
| BoundaryEdges.TriangleEdges | geomesh/pslg.py:127-130 | a triangle with all three neighbours contributes no edge; one with none contributes `(a,b),(b,c),(c,a)`, a closed head-to-tail 3-cycle; otherwise one edge per missing neighbour |
| BoundaryEdges.Edge2 | geomesh/pslg.py:127-130 | `edge2` yields at most three edges per triangle, each a side of some triangle; a neighbour table without `-1` yields none |
| BoundaryEdges.Edge2PerTriangle | geomesh/pslg.py:125-131 | `edge2` equals the exterior sides of triangle 0, then of triangle 1, and so on, each triangle's in local side order |
| BoundaryEdges.Edge2Count | geomesh/pslg.py:127-130 | exactly one edge per `-1` entry of the neighbour table |
| BoundaryEdges.Edge2Slots | geomesh/pslg.py:127-130 | the m-th edge comes from a slot `(i, j)` whose neighbour is `-1` and is `(triangles[i][j], triangles[i][(j+1)%3])`; every `-1` slot is reported; slots are in strictly increasing row-major order |
| BoundaryEdges.Edge2Winding | geomesh/pslg.py:129-130 | every emitted edge joins two consecutive vertices of an owning triangle in that triangle's winding order, on a side without a neighbour |
| RingCoords.FlattenCoords | geomesh/pslg.py:74-78 | the loop's result is the concatenation, polygon by polygon, of the exterior ring and then the interior rings |
| RingCoords.StackRings | geomesh/pslg.py:77-78 | the inner loop appends the holes' vertex lists to the table, in hole order |
| RingCoords.CoordinatesAppend | geomesh/pslg.py:75-78 | flattening two lists of polygons one after the other stacks their tables (polygon order is kept) |
| RingCoords.CoordinatesOfPolygon | geomesh/pslg.py:76-78 | a single polygon flattens to its exterior ring followed by its interior rings |
| RingCoords.CoordinatesMembers | geomesh/pslg.py:74-79 | a point is in the table exactly when it is a vertex of one of the rings; the length is the total ring length |
| TriangleMask.ApplyExterior | geomesh/pslg.py:192-202 | one exterior ring clears the discard flag of each centroid it contains, among those in the ring's extents, and changes nothing else |
| TriangleMask.ApplyInterior | geomesh/pslg.py:204-214 | one hole sets the discard flag of each centroid it contains, among those in the hole's extents, and changes nothing else |
| TriangleMask.ApplyHoles | geomesh/pslg.py:203-214 | the holes loop leaves each centroid's flag as the fold of the hole updates over it, in hole order |
| TriangleMask.ApplyPolygon | geomesh/pslg.py:191-214 | one polygon's pass is its exterior update followed by its holes loop |
| TriangleMask.Discard | geomesh/pslg.py:187-214 | the fold starts at "discard"; a centroid outside the extents of every exterior ring stays discarded |
| TriangleMask.HolesFold | geomesh/pslg.py:203-214 | holes only ever set the discard flag, never clear it |
| TriangleMask.DiscardMask | geomesh/pslg.py:187-214 | the mask starts all true and ends, per centroid, as the fold over polygons (exterior, then holes) |
| TriangleMask.HolesFoldIsHit | geomesh/pslg.py:203-214 | the holes of one polygon set the flag exactly when one of them contains the centroid |
| TriangleMask.ExtentsFilterIsHarmless | geomesh/pslg.py:193-214 | limiting each ring update to the centroids in the ring's extents does not change the result, given that containment implies being in the extents |
| TriangleMask.KeptExactly | geomesh/pslg.py:187-216 | a centroid is kept exactly when some polygon's exterior contains it, none of that polygon's holes does, and no hole of a later polygon does |
| TriangleMask.KeptTrianglesExactly | geomesh/pslg.py:215-216 | the kept triangles are, in order, exactly those whose flag ends false, that is, those characterised by `KeptExactly` |
| TriangleMask.KeptTriangles | geomesh/pslg.py:215-216 | the kept triangles are a selection of the Delaunay triangles and still index only the given points, as `Triangulation(x, y, triangles=...)` needs |
| TriangleMask.KeepTriangles | geomesh/pslg.py:186-216 | computing the mask in place and indexing with `~mask` gives `KeptTriangles` |
| Pslg.DropCollection | geomesh/pslg.py:272-278 | the deleter drops the collection and, only when one was cached, the triangulation; nothing else changes; under `Coherent` no triangulation is left |
| Pslg.DropTriangulation | geomesh/pslg.py:296-301 | the deleter removes the triangulation and nothing else; `Coherent` is kept |
| Pslg.DropZmin | geomesh/pslg.py:280-286 | an unset `zmin` changes nothing; a set one is removed and the collection is dropped |
| Pslg.DropZmax | geomesh/pslg.py:288-294 | the same rule for `zmax` |
| Pslg.StoreZmin | geomesh/pslg.py:246-257 | `None` deletes; an equal value keeps every cache; the first value only stores; a different value drops the collection (and the triangulation); coordinates, `zmax` and the reference system are kept; `Coherent` is preserved |
| Pslg.StoreZmax | geomesh/pslg.py:259-270 | the same rules for `zmax` |
| Pslg.StoreDstCrs | geomesh/pslg.py:231-244 | assigning a reference system always drops the collection, even for an equal value, and stores the new value |
| Pslg.GetCollection | geomesh/pslg.py:137-167 | a cached collection is returned unchanged; otherwise it is built only when both bounds are set, because reading an unset `zmin`/`zmax` raises (`None`, state unchanged); `Coherent` is kept |
| Pslg.GetCoords | geomesh/pslg.py:69-80 | cached coordinates are returned unchanged; otherwise they are the flattening of the collection `GetCollection` leaves in the cache, the triangulation cache is untouched; it raises (state unchanged) exactly when the collection must be built with a bound unset |
| Pslg.GetTriangulation | geomesh/pslg.py:181-217 | a cached triangulation is returned unchanged; otherwise it is Delaunay over the coordinates `GetCoords` leaves (cached ones are reused) with the triangles the mask fold over the collection `GetCollection` leaves keeps (a cached one is reused); it raises, changing nothing, exactly when no collection is cached and a bound is unset |
| Pslg.RebuildReusesCoords | geomesh/pslg.py:69-80 | after a `zmin` change (with `zmax` set) the triangulation is rebuilt, over the old coordinates, masked by a freshly built collection |
| Pslg.SameZminKeepsTriangulation | geomesh/pslg.py:252-257 | re-assigning the stored `zmin` keeps the cached triangulation |
| Pslg.DeletedZminRaises | geomesh/pslg.py:174-175 | after `zmin` is deleted the triangulation raises, and the coordinates raise exactly when they were not already cached |
| Pslg.PlanarStraightLineGraph.constructor | geomesh/pslg.py:14-18 | the three setters run on an empty cache: the bounds and the reference system are stored and nothing is cached |
| Pslg.PlanarStraightLineGraph.DeleteTriangulation | geomesh/pslg.py:296-301 | drops the triangulation |
| Pslg.PlanarStraightLineGraph.DeleteCollection | geomesh/pslg.py:272-278 | the state becomes `DropCollection` of the old state |
| Pslg.PlanarStraightLineGraph.DeleteZmin | geomesh/pslg.py:280-286 | the state becomes `DropZmin` of the old state |
| Pslg.PlanarStraightLineGraph.DeleteZmax | geomesh/pslg.py:288-294 | the state becomes `DropZmax` of the old state |
| Pslg.PlanarStraightLineGraph.SetZmin | geomesh/pslg.py:246-257 | the state becomes `StoreZmin` of the old state |
| Pslg.PlanarStraightLineGraph.SetZmax | geomesh/pslg.py:259-270 | the state becomes `StoreZmax` of the old state |
| Pslg.PlanarStraightLineGraph.SetDstCrs | geomesh/pslg.py:240-244 | the state becomes `StoreDstCrs` of the old state |
| Pslg.PlanarStraightLineGraph.Collection | geomesh/pslg.py:137-167 | state and result are `GetCollection` of the old state, including its raise when a bound is unset |
| Pslg.PlanarStraightLineGraph.Coords | geomesh/pslg.py:69-80 | state and result are `GetCoords` of the old state, including its raise |
| Pslg.PlanarStraightLineGraph.Triangulation | geomesh/pslg.py:181-217 | the in-place array fold gives state and result `GetTriangulation` of the old state, including its raise |
| Pslg.PlanarStraightLineGraph.Edge2Table | geomesh/pslg.py:125-131 | the state becomes that of `GetTriangulation`; the edges are `Edge2` of its triangles and neighbours, and `edge2` raises where the triangulation does |
| Sizing.SizeAtContour | geomesh/size_function.py:68 | at distance 0 the size is the target size |
| Sizing.SizeAt | geomesh/size_function.py:68 | away from the contour the size is at least the target size when `expansion_rate * target_size >= 0`, and at most it when that slope is not positive |
| Sizing.SizeNonDecreasing | geomesh/size_function.py:68 | the size is non-decreasing in the distance when `expansion_rate * target_size >= 0` |
| Sizing.SizeAffine | geomesh/size_function.py:68 | the size changes by `expansion_rate * target_size` per unit of distance |
| Sizing.RaiseTo | geomesh/size_function.py:70-71 | after the `hmin` step every value is at least `hmin`, and values already at least `hmin` are unchanged |
| Sizing.LowerTo | geomesh/size_function.py:72-73 | after the `hmax` step every value is at most `hmax`, and values already at most `hmax` are unchanged |
| Sizing.Clamped | geomesh/size_function.py:70-73 | the result is at most `hmax`; at least `hmin` when the bounds do not cross; exactly `hmax` when `hmin > hmax`; unchanged inside the bounds and when both are `None` |
| Sizing.ClampedIdempotent | geomesh/size_function.py:70-73 | clamping twice is clamping once |
| Sizing.Clamp | geomesh/size_function.py:88-91 | the in-place passes (lower bound, then upper bound) leave each entry `Clamped` of its old value |
| Sizing.ContourBand | geomesh/size_function.py:68-73 | each stored entry is the clamped size at that grid point's distance |
| Bands.Minimum | geomesh/size_function.py:100 | the element-wise minimum is finite, at most the new value and the old one, and equal to one of them |
| Bands.FinalizedBand | geomesh/size_function.py:97-100 | each entry is +inf exactly when no band is tagged `SIZE_FUNCTION`; otherwise it is at most every tagged band's entry and equal to one of them |
| GridPoints.RasterPointsExactly | geomesh/size_function.py:109-118 | the emitted rows are exactly the grid points whose band value is not nodata, in grid order, with `x`, `y` and band value of the same point |
| GridPoints.RasterPoints | geomesh/size_function.py:109-118 | at most one row per grid point, and no row carries the nodata value |
| GridPoints.CollectPoints | geomesh/size_function.py:95-119 | the stacking loop gives every raster's rows in raster order |
| GridPoints.AllPointsMembers | geomesh/size_function.py:119 | a row is collected exactly when some raster emits it |
| SizeFunctionState.ParseScaling | geomesh/size_function.py:262-265 | a name is accepted exactly when it is "absolute" or "relative", and is read as that mode |
| SizeFunctionState.ParseScalingName | geomesh/size_function.py:262-265 | each mode's name is accepted and read back as that mode |
| SizeFunctionState.BoundsBracketValues | geomesh/size_function.py:184-190 | `hmin <= v <= hmax` for every size value `v`; both exist unless there are no values |
| SizeFunctionState.BuildTriangulation | geomesh/size_function.py:94-154 | the domain graph ends in `GetCollection`'s state; the build raises exactly when that does; otherwise point `i` of the mesh and size value `i` come from collected row `i`, and the triangles are the Delaunay triangles over those points that the mask fold over the domain graph's polygons keeps |
| SizeFunctionState.SizeFunction.constructor | geomesh/size_function.py:24-26 | stores the domain graph and the reference system; the forwarded setter drops the domain graph's collection |
| SizeFunctionState.SizeFunction.SetDstCrs | geomesh/size_function.py:275-278 | forwards to the domain graph's setter, then stores |
| SizeFunctionState.SizeFunction.GetScaling | geomesh/size_function.py:226-232 | reads "absolute" until a mode is set, and stores that default |
| SizeFunctionState.SizeFunction.SetScaling | geomesh/size_function.py:262-265 | a name other than the two modes fails and leaves the stored mode unchanged; otherwise the mode is stored |
| SizeFunctionState.SizeFunction.SetTriangulation | geomesh/size_function.py:94-154 | the domain graph's state and the new triangulation and values are those of `BuildTriangulation`; where it raises nothing of the size function changes |
| SizeFunctionState.SizeFunction.Triangulation | geomesh/size_function.py:234-240 | a cached triangulation is returned with nothing changed; otherwise triangulation, values and the domain graph's state are those of `BuildTriangulation`, or it raises with nothing of the size function set |
| SizeFunctionState.SizeFunction.Values | geomesh/size_function.py:242-248 | cached values are returned with nothing changed; otherwise values, triangulation and the domain graph's state are those of `BuildTriangulation`, or it raises with nothing of the size function set |
| SizeFunctionState.SizeFunction.HMin | geomesh/size_function.py:184-186 | the minimum of the cached values, or of the values `BuildTriangulation` gives (which are then cached with the triangulation); `None` where building raises or there are no values |
| SizeFunctionState.SizeFunction.HMax | geomesh/size_function.py:188-190 | the maximum of the cached values, or of the values `BuildTriangulation` gives (which are then cached with the triangulation); `None` where building raises or there are no values |

## Left out

- The boundary classifier: open/land/interior classification, ring tracing, the region editor and antimeridian unwrapping. `tests/api/mesh.py` exercises it, but it lives in `ocsmesh.mesh` and `ocsmesh.utils`, which are not part of this model. `ocsmesh/geom/__init__.py` only re-exports classes.
- Plotting and `breakpoint()` (`make_plot`, `plot_pslg`, `plot_topobathy`): no behaviour to model.
- Contour extraction and `cKDTree` queries in `add_contour`: the distances are an input of `Sizing.ContourBand`.
- The subtidal limiter's values, built from `np.gradient`, `sqrt` and a masked fill: only its clamp is modelled (`Sizing.Clamp`), because the rest is floating-point array arithmetic on raster data.
- Raster side effects in `_set_triangulation`: `add_band`, `mask`, the resampling decision on `min(band)` and the `astype` cast. The band that reaches the nodata filter is an input (`GridPoints.Grid`), and `Bands.FinalizedBand` models the fold on its own.
- Delaunay construction, the neighbour table and `Path.contains_points`: these are parameters (`Pslg.Collaborators`). Delaunay is assumed to index only given points, and the neighbour table to have one row per triangle.
- The raster pipeline, shapely `MultiPolygon(...).buffer(0)` and the fiona shapefile round trip: the collection is modelled by the multipolygon of its first feature, passed in as `built`.
- Reference-system handling: forwarding `dst_crs` to the raster collection, and the `crs` property.
- jigsaw packaging: `geom`, `vert2`, `hfun`, `tria3`, `hfun_value`, `mshID`, `ndim`, and the ID tag `0` that `edge2` attaches to each edge.
- Floating point: values are `real`. There is no NaN. In the source, NaN makes `zmin != zmin` true and `np.minimum` propagate NaN. Centroid rounding and `float(...)` conversion errors are not modelled.
- The `isinstance` asserts on `_raster_collection` and `_pslg`, the temporary directory `_shp`, and assertions disabled under `python -O`.
- Trivial accessors: `__iter__`, `raster_collection`, `x`, `y`, `points`, and the independent setters `_triangulation`/`_values` of the size function.
- The `edge2` output is the edge list itself, not a numpy record array.
- The default arguments `dst_crs="EPSG:3395"` of both constructors: the model's constructors take the reference system explicitly.
- HMin: `None` covers both ways `hmin` raises (building the values raises, or `numpy.min` of no values), without saying which exception is raised.
- HMax: `None` covers both ways `hmax` raises, as for `HMin`.
