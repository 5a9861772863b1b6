/**
 * Size-field post-processing applied to each raster's band: the linear
 * size-from-distance rule of `add_contour`, and the clamping to `hmin` and
 * `hmax` shared by `add_contour` and `add_subtidal_flow_limiter`. The lower
 * bound is applied first and the upper bound last, so the upper bound wins
 * when the two cross.
 */
module Sizing {
  import opened Wrappers

  /** Target size at distance `d` from the contour. */
  function SizeAt(targetSize: real, expansionRate: real, d: real): (r: real)
    ensures expansionRate * targetSize >= 0.0 && d >= 0.0 ==> r >= targetSize
    ensures expansionRate * targetSize <= 0.0 && d >= 0.0 ==> r <= targetSize
  {
    var slope := expansionRate * targetSize;
    assert d >= 0.0 ==> (slope >= 0.0 ==> slope * d >= 0.0) && (slope <= 0.0 ==> slope * d <= 0.0);
    slope * d + targetSize
  }

  /** At the contour the size is the target size. */
  lemma SizeAtContour(targetSize: real, expansionRate: real)
    ensures SizeAt(targetSize, expansionRate, 0.0) == targetSize
  {
  }

  /** With a non-negative slope the size never shrinks away from the contour. */
  lemma SizeNonDecreasing(targetSize: real, expansionRate: real, d1: real, d2: real)
    requires expansionRate * targetSize >= 0.0 && d1 <= d2
    ensures SizeAt(targetSize, expansionRate, d1) <= SizeAt(targetSize, expansionRate, d2)
  {
    var slope := expansionRate * targetSize;
    assert slope * d2 - slope * d1 == slope * (d2 - d1);
    assert slope * (d2 - d1) >= 0.0;
  }

  /** Equal steps in distance give equal steps in size: the rule is affine. */
  lemma SizeAffine(targetSize: real, expansionRate: real, d1: real, d2: real)
    ensures SizeAt(targetSize, expansionRate, d2) - SizeAt(targetSize, expansionRate, d1)
         == expansionRate * targetSize * (d2 - d1)
  {
    var slope := expansionRate * targetSize;
    assert slope * d2 - slope * d1 == slope * (d2 - d1);
  }

  /** `values[values < hmin] = hmin` on one value. */
  function RaiseTo(v: real, hmin: Option<real>): (r: real)
    ensures hmin.Some? ==> r >= hmin.value
    ensures hmin.None? || v >= hmin.value ==> r == v
  {
    if hmin.Some? && v < hmin.value then hmin.value else v
  }

  /** `values[values > hmax] = hmax` on one value. */
  function LowerTo(v: real, hmax: Option<real>): (r: real)
    ensures hmax.Some? ==> r <= hmax.value
    ensures hmax.None? || v <= hmax.value ==> r == v
  {
    if hmax.Some? && v > hmax.value then hmax.value else v
  }

  /** Both steps in the source's order. */
  function Clamped(v: real, hmin: Option<real>, hmax: Option<real>): (r: real)
    ensures hmax.Some? ==> r <= hmax.value
    ensures hmin.Some? && (hmax.None? || hmin.value <= hmax.value) ==> r >= hmin.value
    ensures hmin.Some? && hmax.Some? && hmin.value > hmax.value ==> r == hmax.value
    ensures (hmin.None? || hmin.value <= v) && (hmax.None? || v <= hmax.value) ==> r == v
    ensures hmin.None? && hmax.None? ==> r == v
  {
    LowerTo(RaiseTo(v, hmin), hmax)
  }

  /** Clamping twice is clamping once. */
  lemma ClampedIdempotent(v: real, hmin: Option<real>, hmax: Option<real>)
    ensures Clamped(Clamped(v, hmin, hmax), hmin, hmax) == Clamped(v, hmin, hmax)
  {
  }

  /** The in-place clamp: the lower-bound pass, then the upper-bound pass. */
  method Clamp(values: array<real>, hmin: Option<real>, hmax: Option<real>)
    modifies values
    ensures forall k :: 0 <= k < values.Length ==> values[k] == Clamped(old(values[k]), hmin, hmax)
  {
    if hmin.Some? {
      for k := 0 to values.Length
        invariant forall i :: 0 <= i < k ==> values[i] == RaiseTo(old(values[i]), hmin)
        invariant forall i :: k <= i < values.Length ==> values[i] == old(values[i])
      {
        if values[k] < hmin.value {
          values[k] := hmin.value;
        }
      }
    }
    ghost var raised := values[..];
    assert forall i :: 0 <= i < values.Length ==> raised[i] == RaiseTo(old(values[i]), hmin);
    if hmax.Some? {
      for k := 0 to values.Length
        invariant forall i :: 0 <= i < k ==> values[i] == LowerTo(raised[i], hmax)
        invariant forall i :: k <= i < values.Length ==> values[i] == raised[i]
      {
        if values[k] > hmax.value {
          values[k] := hmax.value;
        }
      }
    }
  }

  /**
   * The band `add_contour` stores for one raster: the size rule applied to
   * each grid point's distance to the nearest contour vertex, then clamped.
   */
  method ContourBand(distances: seq<real>, targetSize: real, expansionRate: real,
                     hmin: Option<real>, hmax: Option<real>) returns (values: array<real>)
    ensures fresh(values) && values.Length == |distances|
    ensures forall k :: 0 <= k < |distances| ==>
      values[k] == Clamped(SizeAt(targetSize, expansionRate, distances[k]), hmin, hmax)
  {
    values := new real[|distances|](k requires 0 <= k < |distances| => SizeAt(targetSize, expansionRate, distances[k]));
    Clamp(values, hmin, hmax);
  }
}
