/**
 * The triangle keep/discard fold of the domain graph (`_triangulation`; the
 * size function repeats the same code when it builds its own
 * triangulation). Every triangle starts out discarded. For each polygon in
 * turn, a triangle whose centroid the exterior ring contains is kept again,
 * and then one whose centroid one of the polygon's holes contains is
 * discarded again. Each ring update is applied only to centroids inside the
 * ring's extents. Point-in-polygon is the parameter `contains`.
 */
module TriangleMask {
  import opened Geometry
  import opened Indices

  /** `Path.contains_points` for one point and one ring. */
  type Containment = (Ring, Point) -> bool

  // ----- The fold as the source writes it, with the extents pre-filter -----

  function ExteriorStep(discard: bool, ring: Ring, c: Point, contains: Containment): bool {
    if InBox(ring, c) then discard && !contains(ring, c) else discard
  }

  function InteriorStep(discard: bool, ring: Ring, c: Point, contains: Containment): bool {
    if InBox(ring, c) then discard || contains(ring, c) else discard
  }

  function HolesFold(discard: bool, holes: seq<Ring>, c: Point, contains: Containment): (r: bool)
    ensures discard ==> r
    decreases |holes|
  {
    if |holes| == 0 then discard
    else
      var n := |holes| - 1;
      InteriorStep(HolesFold(discard, holes[..n], c, contains), holes[n], c, contains)
  }

  function PolygonStep(discard: bool, p: Polygon, c: Point, contains: Containment): bool {
    HolesFold(ExteriorStep(discard, p.exterior, c, contains), p.interiors, c, contains)
  }

  /** The discard flag of one centroid after all polygons. */
  function Discard(mp: MultiPolygon, c: Point, contains: Containment): (r: bool)
    ensures (forall p :: 0 <= p < |mp| ==> !InBox(mp[p].exterior, c)) ==> r
    decreases |mp|
  {
    if |mp| == 0 then true
    else
      var n := |mp| - 1;
      PolygonStep(Discard(mp[..n], c, contains), mp[n], c, contains)
  }

  // ----- Reference definition: plain containment, no extents -----

  predicate HoleHit(p: Polygon, c: Point, contains: Containment) {
    exists h :: 0 <= h < |p.interiors| && contains(p.interiors[h], c)
  }

  /** One polygon's net effect: a hole hit discards, else an exterior hit keeps. */
  function PlainStep(discard: bool, p: Polygon, c: Point, contains: Containment): bool {
    if HoleHit(p, c, contains) then true
    else if contains(p.exterior, c) then false
    else discard
  }

  function PlainDiscard(mp: MultiPolygon, c: Point, contains: Containment): bool
    decreases |mp|
  {
    if |mp| == 0 then true
    else
      var n := |mp| - 1;
      PlainStep(PlainDiscard(mp[..n], c, contains), mp[n], c, contains)
  }

  /** A point-in-polygon test that never reports a point outside the ring's extents. */
  ghost predicate WithinExtents(contains: Containment) {
    forall r: Ring, p: Point :: contains(r, p) ==> InBox(r, p)
  }

  /** Some ring of `holes` contains the point. */
  predicate AnyContains(holes: seq<Ring>, c: Point, contains: Containment) {
    exists h :: 0 <= h < |holes| && contains(holes[h], c)
  }

  lemma AnyContainsSnoc(holes: seq<Ring>, c: Point, contains: Containment)
    requires |holes| > 0
    ensures AnyContains(holes, c, contains)
        == (AnyContains(holes[..|holes| - 1], c, contains) || contains(holes[|holes| - 1], c))
  {
    var n := |holes| - 1;
    if AnyContains(holes[..n], c, contains) {
      var h :| 0 <= h < n && contains(holes[..n][h], c);
      assert holes[..n][h] == holes[h];
    }
    if AnyContains(holes, c, contains) {
      var h :| 0 <= h < |holes| && contains(holes[h], c);
      if h < n {
        assert holes[..n][h] == holes[h];
      }
    }
  }

  /** Under the extents assumption, the pre-filter of one hole update is invisible. */
  lemma InteriorStepPlain(discard: bool, ring: Ring, c: Point, contains: Containment)
    requires WithinExtents(contains)
    ensures InteriorStep(discard, ring, c, contains) == (discard || contains(ring, c))
  {
    if contains(ring, c) {
      assert InBox(ring, c);
    }
  }

  /** Under the extents assumption, the pre-filter of one exterior update is invisible. */
  lemma ExteriorStepPlain(discard: bool, ring: Ring, c: Point, contains: Containment)
    requires WithinExtents(contains)
    ensures ExteriorStep(discard, ring, c, contains) == (discard && !contains(ring, c))
  {
    if contains(ring, c) {
      assert InBox(ring, c);
    }
  }

  lemma {:induction false} HolesFoldIsHit(discard: bool, holes: seq<Ring>, c: Point, contains: Containment)
    requires WithinExtents(contains)
    ensures HolesFold(discard, holes, c, contains) == (discard || AnyContains(holes, c, contains))
    decreases |holes|
  {
    if |holes| > 0 {
      var n := |holes| - 1;
      HolesFoldIsHit(discard, holes[..n], c, contains);
      InteriorStepPlain(HolesFold(discard, holes[..n], c, contains), holes[n], c, contains);
      AnyContainsSnoc(holes, c, contains);
    }
  }

  /**
   * Restricting each ring update to the centroids inside the ring's extents
   * does not change the outcome, as long as containment implies being
   * inside the extents.
   */
  lemma {:induction false} ExtentsFilterIsHarmless(mp: MultiPolygon, c: Point, contains: Containment)
    requires WithinExtents(contains)
    ensures Discard(mp, c, contains) == PlainDiscard(mp, c, contains)
    decreases |mp|
  {
    if |mp| > 0 {
      var n := |mp| - 1;
      ExtentsFilterIsHarmless(mp[..n], c, contains);
      var before := Discard(mp[..n], c, contains);
      ExteriorStepPlain(before, mp[n].exterior, c, contains);
      HolesFoldIsHit(ExteriorStep(before, mp[n].exterior, c, contains), mp[n].interiors, c, contains);
      assert HoleHit(mp[n], c, contains) == AnyContains(mp[n].interiors, c, contains);
    }
  }

  /**
   * What the fold means: a centroid ends up kept exactly when some polygon's
   * exterior contains it, none of that polygon's holes does, and no hole of
   * a later polygon contains it.
   */
  lemma {:induction false} KeptExactly(mp: MultiPolygon, c: Point, contains: Containment)
    ensures !PlainDiscard(mp, c, contains) <==>
      exists p :: 0 <= p < |mp| && contains(mp[p].exterior, c) && !HoleHit(mp[p], c, contains)
        && forall q :: p < q < |mp| ==> !HoleHit(mp[q], c, contains)
    decreases |mp|
  {
    if |mp| > 0 {
      var n := |mp| - 1;
      var pre := mp[..n];
      KeptExactly(pre, c, contains);
      if HoleHit(mp[n], c, contains) {
        // the last polygon discards; no earlier polygon can be the witness
      } else if contains(mp[n].exterior, c) {
        // the last polygon is the witness
      } else {
        if !PlainDiscard(pre, c, contains) {
          var p :| 0 <= p < n && contains(pre[p].exterior, c) && !HoleHit(pre[p], c, contains)
            && forall q :: p < q < n ==> !HoleHit(pre[q], c, contains);
          assert pre[p] == mp[p];
          forall q | p < q < |mp| ensures !HoleHit(mp[q], c, contains) {
            if q < n {
              assert pre[q] == mp[q];
            }
          }
        }
        if exists p ::
             && 0 <= p < |mp| && contains(mp[p].exterior, c) && !HoleHit(mp[p], c, contains)
             && forall q :: p < q < |mp| ==> !HoleHit(mp[q], c, contains)
        {
          var p :| 0 <= p < |mp| && contains(mp[p].exterior, c) && !HoleHit(mp[p], c, contains)
            && forall q :: p < q < |mp| ==> !HoleHit(mp[q], c, contains);
          assert p < n;
          assert pre[p] == mp[p];
          forall q | p < q < n ensures !HoleHit(pre[q], c, contains) {
            assert pre[q] == mp[q];
          }
        }
      }
    }
  }

  // ----- The in-place update of the mask array -----

  /** `mask[idxs] = mask[idxs] & ~contains` for the centroids in the exterior's extents. */
  method ApplyExterior(mask: array<bool>, ring: Ring, cs: seq<Point>, contains: Containment)
    requires mask.Length == |cs|
    modifies mask
    ensures forall k :: 0 <= k < |cs| ==> mask[k] == ExteriorStep(old(mask[k]), ring, cs[k], contains)
  {
    var box := Extents(ring);
    for k := 0 to |cs|
      invariant forall i :: 0 <= i < k ==> mask[i] == ExteriorStep(old(mask[i]), ring, cs[i], contains)
      invariant forall i :: k <= i < |cs| ==> mask[i] == old(mask[i])
    {
      if box.Some? && box.value.Contains(cs[k]) {
        mask[k] := mask[k] && !contains(ring, cs[k]);
      }
    }
  }

  /** `mask[idxs] = mask[idxs] | contains` for the centroids in the hole's extents. */
  method ApplyInterior(mask: array<bool>, ring: Ring, cs: seq<Point>, contains: Containment)
    requires mask.Length == |cs|
    modifies mask
    ensures forall k :: 0 <= k < |cs| ==> mask[k] == InteriorStep(old(mask[k]), ring, cs[k], contains)
  {
    var box := Extents(ring);
    for k := 0 to |cs|
      invariant forall i :: 0 <= i < k ==> mask[i] == InteriorStep(old(mask[i]), ring, cs[i], contains)
      invariant forall i :: k <= i < |cs| ==> mask[i] == old(mask[i])
    {
      if box.Some? && box.value.Contains(cs[k]) {
        mask[k] := mask[k] || contains(ring, cs[k]);
      }
    }
  }

  /** The loop over one polygon's holes. */
  method ApplyHoles(mask: array<bool>, holes: seq<Ring>, cs: seq<Point>, contains: Containment)
    requires mask.Length == |cs|
    modifies mask
    ensures forall k :: 0 <= k < |cs| ==> mask[k] == HolesFold(old(mask[k]), holes, cs[k], contains)
  {
    ghost var before := mask[..];
    for h := 0 to |holes|
      invariant forall k :: 0 <= k < |cs| ==> mask[k] == HolesFold(before[k], holes[..h], cs[k], contains)
    {
      assert holes[..h + 1][..h] == holes[..h];
      ApplyInterior(mask, holes[h], cs, contains);
    }
    assert holes[..|holes|] == holes;
  }

  /** One polygon: its exterior, then its holes. */
  method ApplyPolygon(mask: array<bool>, p: Polygon, cs: seq<Point>, contains: Containment)
    requires mask.Length == |cs|
    modifies mask
    ensures forall k :: 0 <= k < |cs| ==> mask[k] == PolygonStep(old(mask[k]), p, cs[k], contains)
  {
    ApplyExterior(mask, p.exterior, cs, contains);
    ApplyHoles(mask, p.interiors, cs, contains);
  }

  /** One more polygon of the fold. */
  lemma DiscardPrefix(mp: MultiPolygon, p: nat, c: Point, contains: Containment)
    requires p < |mp|
    ensures Discard(mp[..p + 1], c, contains) == PolygonStep(Discard(mp[..p], c, contains), mp[p], c, contains)
  {
    assert mp[..p + 1][..p] == mp[..p];
  }

  /** The whole fold: a fresh all-true mask, updated polygon by polygon. */
  method DiscardMask(mp: MultiPolygon, cs: seq<Point>, contains: Containment) returns (mask: array<bool>)
    ensures fresh(mask) && mask.Length == |cs|
    ensures forall k :: 0 <= k < |cs| ==> mask[k] == Discard(mp, cs[k], contains)
  {
    mask := new bool[|cs|](_ => true);
    for p := 0 to |mp|
      invariant mask.Length == |cs|
      invariant forall k :: 0 <= k < |cs| ==> mask[k] == Discard(mp[..p], cs[k], contains)
    {
      ApplyPolygon(mask, mp[p], cs, contains);
      forall k | 0 <= k < |cs| ensures mask[k] == Discard(mp[..p + 1], cs[k], contains) {
        DiscardPrefix(mp, p, cs[k], contains);
      }
    }
    assert mp[..|mp|] == mp;
  }

  /** The triangles that survive: `triangles[~mask]`. */
  function KeptTriangles(mp: MultiPolygon, pts: seq<Point>, tris: seq<Triple>, contains: Containment): (r: seq<Triple>)
    requires ValidTriangles(tris, |pts|)
    ensures |r| <= |tris| && forall m :: 0 <= m < |r| ==> r[m] in tris
    ensures ValidTriangles(r, |pts|)
  {
    var cs := Centroids(pts, tris);
    Gather(tris, seq(|tris|, k requires 0 <= k < |tris| => !Discard(mp, cs[k], contains)))
  }

  /** `triangles[~mask]` with the mask computed in place by `DiscardMask`. */
  method KeepTriangles(mp: MultiPolygon, pts: seq<Point>, tris: seq<Triple>, contains: Containment)
    returns (kept: seq<Triple>)
    requires ValidTriangles(tris, |pts|)
    ensures kept == KeptTriangles(mp, pts, tris, contains)
  {
    var cs := Centroids(pts, tris);
    var mask := DiscardMask(mp, cs, contains);
    var flags := mask[..];
    var keep := seq(|tris|, k requires 0 <= k < |tris| => !flags[k]);
    assert keep == seq(|tris|, k requires 0 <= k < |tris| => !Discard(mp, cs[k], contains));
    kept := Gather(tris, keep);
  }

  /**
   * The surviving triangles are exactly, and in order, those whose centroid
   * some polygon's exterior contains with no hole of that polygon or of a
   * later one containing it (for a point-in-polygon test that respects the
   * extents).
   */
  lemma KeptTrianglesExactly(mp: MultiPolygon, pts: seq<Point>, tris: seq<Triple>, contains: Containment)
    requires ValidTriangles(tris, |pts|) && WithinExtents(contains)
    ensures var cs := Centroids(pts, tris);
      var keep := seq(|tris|, k requires 0 <= k < |tris| => !Discard(mp, cs[k], contains));
      && KeptTriangles(mp, pts, tris, contains) == Gather(tris, keep)
      && forall k :: 0 <= k < |tris| ==>
           (keep[k] <==> exists p :: 0 <= p < |mp| && contains(mp[p].exterior, cs[k]) && !HoleHit(mp[p], cs[k], contains)
                           && forall q :: p < q < |mp| ==> !HoleHit(mp[q], cs[k], contains))
  {
    var cs := Centroids(pts, tris);
    forall k | 0 <= k < |tris|
      ensures !Discard(mp, cs[k], contains) <==>
                exists p ::
                  && 0 <= p < |mp| && contains(mp[p].exterior, cs[k]) && !HoleHit(mp[p], cs[k], contains)
                  && forall q :: p < q < |mp| ==> !HoleHit(mp[q], cs[k], contains)
    {
      ExtentsFilterIsHarmless(mp, cs[k], contains);
      KeptExactly(mp, cs[k], contains);
    }
  }
}
