/**
 * Boundary-edge extraction of the domain graph (`edge2`): given the
 * triangle table of a triangulation and its neighbour table, where `-1`
 * marks a side that no other triangle shares, emit one directed edge per
 * such side, in the owning triangle's winding order, triangles in table
 * order and sides in local order.
 */
module BoundaryEdges {
  import opened Geometry
  import opened Indices

  /** A directed edge between two vertex indices. */
  datatype Edge = Edge(src: int, dst: int)

  /** Side `j` of a triangle, from its `j`-th vertex to the next one in winding order. */
  function Side(t: Triple, j: nat): Edge
    requires j < 3
  {
    Edge(t.At(j), t.At((j + 1) % 3))
  }

  /** Every side of every triangle, row-major (triangle first, then local side). */
  function AllSides(tris: seq<Triple>): (r: seq<Edge>)
    ensures |r| == 3 * |tris|
  {
    seq(3 * |tris|, k requires 0 <= k < 3 * |tris| => Side(tris[k / 3], k % 3))
  }

  /** The array `neighbors == -1`, flattened row-major. */
  function NoNeighbor(nbrs: seq<Triple>): (r: seq<bool>)
    ensures |r| == 3 * |nbrs|
  {
    seq(3 * |nbrs|, k requires 0 <= k < 3 * |nbrs| => nbrs[k / 3].At(k % 3) == -1)
  }

  /** `edge2`: the sides at the positions `numpy.where(neighbors == -1)` reports. */
  function Edge2(tris: seq<Triple>, nbrs: seq<Triple>): (r: seq<Edge>)
    requires |tris| == |nbrs|
    ensures |r| <= 3 * |tris| && forall m :: 0 <= m < |r| ==> r[m] in AllSides(tris)
    ensures (forall i :: 0 <= i < |nbrs| ==> nbrs[i].v0 != -1 && nbrs[i].v1 != -1 && nbrs[i].v2 != -1) ==> r == []
  {
    var flags := NoNeighbor(nbrs);
    if forall k :: 0 <= k < |flags| ==> !flags[k] then
      WhereNone(flags);
      Gather(AllSides(tris), flags)
    else
      Gather(AllSides(tris), flags)
  }

  /** The edges chain head to tail and the last one returns to the first. */
  predicate ClosedChain(es: seq<Edge>) {
    |es| > 0 && forall k :: 0 <= k < |es| ==> es[k].dst == es[(k + 1) % |es|].src
  }

  /** Number of sides of a triangle that have no neighbour. */
  function OpenSides(nb: Triple): nat {
    (if nb.v0 == -1 then 1 else 0) + (if nb.v1 == -1 then 1 else 0) + (if nb.v2 == -1 then 1 else 0)
  }

  /** Number of `-1` entries in the whole neighbour table. */
  function OpenSideCount(nbrs: seq<Triple>): nat
    decreases |nbrs|
  {
    if |nbrs| == 0 then 0 else OpenSideCount(nbrs[..|nbrs| - 1]) + OpenSides(nbrs[|nbrs| - 1])
  }

  /**
   * Reference definition, one triangle at a time: the exterior sides of a
   * single triangle in local order. A triangle with all three neighbours
   * contributes nothing; one with none contributes its whole boundary as a
   * closed 3-cycle.
   */
  function TriangleEdges(t: Triple, nb: Triple): (r: seq<Edge>)
    ensures |r| == OpenSides(nb)
    ensures nb.v0 != -1 && nb.v1 != -1 && nb.v2 != -1 ==> r == []
    ensures nb.v0 == -1 && nb.v1 == -1 && nb.v2 == -1 ==>
      r == [Edge(t.v0, t.v1), Edge(t.v1, t.v2), Edge(t.v2, t.v0)] && ClosedChain(r)
  {
    (if nb.v0 == -1 then [Side(t, 0)] else [])
    + (if nb.v1 == -1 then [Side(t, 1)] else [])
    + (if nb.v2 == -1 then [Side(t, 2)] else [])
  }

  /** The reference definition over the whole table: triangle by triangle, in table order. */
  function PerTriangle(tris: seq<Triple>, nbrs: seq<Triple>): seq<Edge>
    requires |tris| == |nbrs|
    decreases |tris|
  {
    if |tris| == 0 then []
    else
      var n := |tris| - 1;
      PerTriangle(tris[..n], nbrs[..n]) + TriangleEdges(tris[n], nbrs[n])
  }

  function Sides3(t: Triple): seq<Edge> {
    [Side(t, 0), Side(t, 1), Side(t, 2)]
  }

  function Flags3(nb: Triple): seq<bool> {
    [nb.v0 == -1, nb.v1 == -1, nb.v2 == -1]
  }

  lemma AllSidesSnoc(tris: seq<Triple>)
    requires |tris| > 0
    ensures AllSides(tris) == AllSides(tris[..|tris| - 1]) + Sides3(tris[|tris| - 1])
  {
    var n := |tris| - 1;
    var lhs, rhs := AllSides(tris), AllSides(tris[..n]) + Sides3(tris[n]);
    forall k | 0 <= k < 3 * |tris| ensures lhs[k] == rhs[k] {
      if k < 3 * n {
        assert k / 3 < n;
      } else {
        assert k / 3 == n;
      }
    }
  }

  lemma NoNeighborSnoc(nbrs: seq<Triple>)
    requires |nbrs| > 0
    ensures NoNeighbor(nbrs) == NoNeighbor(nbrs[..|nbrs| - 1]) + Flags3(nbrs[|nbrs| - 1])
  {
    var n := |nbrs| - 1;
    var lhs, rhs := NoNeighbor(nbrs), NoNeighbor(nbrs[..n]) + Flags3(nbrs[n]);
    forall k | 0 <= k < 3 * |nbrs| ensures lhs[k] == rhs[k] {
      if k < 3 * n {
        assert k / 3 < n;
      } else {
        assert k / 3 == n;
      }
    }
  }

  /** On a single triangle, masking its three sides is the reference definition. */
  lemma GatherOneTriangle(t: Triple, nb: Triple)
    ensures Gather(Sides3(t), Flags3(nb)) == TriangleEdges(t, nb)
  {
    var s0, s1, s2 := Side(t, 0), Side(t, 1), Side(t, 2);
    var f0, f1, f2 := nb.v0 == -1, nb.v1 == -1, nb.v2 == -1;
    assert Sides3(t) == [s0] + ([s1] + [s2]);
    assert Flags3(nb) == [f0] + ([f1] + [f2]);
    GatherAppend([s0], [s1] + [s2], [f0], [f1] + [f2]);
    GatherAppend([s1], [s2], [f1], [f2]);
    GatherSingle(s0, f0);
    GatherSingle(s1, f1);
    GatherSingle(s2, f2);
  }

  /**
   * `edge2` is the per-triangle reference definition: the exterior sides of
   * triangle 0, then of triangle 1, and so on, each in local order.
   */
  lemma {:induction false} Edge2PerTriangle(tris: seq<Triple>, nbrs: seq<Triple>)
    requires |tris| == |nbrs|
    ensures Edge2(tris, nbrs) == PerTriangle(tris, nbrs)
    decreases |tris|
  {
    if |tris| == 0 {
      WhereNone(NoNeighbor(nbrs));
    } else {
      var n := |tris| - 1;
      var ts, ns := tris[..n], nbrs[..n];
      Edge2PerTriangle(ts, ns);
      AllSidesSnoc(tris);
      NoNeighborSnoc(nbrs);
      GatherAppend(AllSides(ts), Sides3(tris[n]), NoNeighbor(ns), Flags3(nbrs[n]));
      GatherOneTriangle(tris[n], nbrs[n]);
      calc {
        Edge2(tris, nbrs);
        Gather(AllSides(ts) + Sides3(tris[n]), NoNeighbor(ns) + Flags3(nbrs[n]));
        Edge2(ts, ns) + TriangleEdges(tris[n], nbrs[n]);
        PerTriangle(tris, nbrs);
      }
    }
  }

  /** Exactly one edge per `-1` entry of the neighbour table. */
  lemma {:induction false} Edge2Count(tris: seq<Triple>, nbrs: seq<Triple>)
    requires |tris| == |nbrs|
    ensures |Edge2(tris, nbrs)| == OpenSideCount(nbrs)
    decreases |tris|
  {
    Edge2PerTriangle(tris, nbrs);
    PerTriangleCount(tris, nbrs);
  }

  lemma {:induction false} PerTriangleCount(tris: seq<Triple>, nbrs: seq<Triple>)
    requires |tris| == |nbrs|
    ensures |PerTriangle(tris, nbrs)| == OpenSideCount(nbrs)
    decreases |tris|
  {
    if |tris| > 0 {
      PerTriangleCount(tris[..|tris| - 1], nbrs[..|nbrs| - 1]);
    }
  }

  /**
   * Slot by slot: the `m`-th edge comes from flat slot `k = 3 i + j`, which
   * has no neighbour, and is side `j` of triangle `i`; every slot without a
   * neighbour is reported; slots are reported in strictly increasing
   * row-major order.
   */
  lemma Edge2Slots(tris: seq<Triple>, nbrs: seq<Triple>)
    requires |tris| == |nbrs|
    ensures var es, w := Edge2(tris, nbrs), Where(NoNeighbor(nbrs));
      && |es| == |w|
      && (forall m :: 0 <= m < |es| ==>
            && w[m] / 3 < |tris|
            && nbrs[w[m] / 3].At(w[m] % 3) == -1
            && es[m] == Side(tris[w[m] / 3], w[m] % 3))
      && (forall i, j :: 0 <= i < |nbrs| && 0 <= j < 3 && nbrs[i].At(j) == -1 ==> 3 * i + j in w)
      && (forall a, b :: 0 <= a < b < |w| ==> w[a] < w[b])
  {
    var w := Where(NoNeighbor(nbrs));
    GatherExactly(AllSides(tris), NoNeighbor(nbrs));
    forall i, j | 0 <= i < |nbrs| && 0 <= j < 3 && nbrs[i].At(j) == -1
      ensures 3 * i + j in w
    {
      var k := 3 * i + j;
      assert k / 3 == i && k % 3 == j;
      assert NoNeighbor(nbrs)[k];
    }
  }

  /**
   * Each emitted edge joins two consecutive vertices of some triangle whose
   * side at that position has no neighbour, in that triangle's winding order.
   */
  lemma Edge2Winding(tris: seq<Triple>, nbrs: seq<Triple>, m: nat)
    requires |tris| == |nbrs| && m < |Edge2(tris, nbrs)|
    ensures exists i, j ::
              && 0 <= i < |tris| && 0 <= j < 3 && nbrs[i].At(j) == -1
              && Edge2(tris, nbrs)[m] == Edge(tris[i].At(j), tris[i].At((j + 1) % 3))
  {
    Edge2Slots(tris, nbrs);
    var k := Where(NoNeighbor(nbrs))[m];
    var i, j := k / 3, k % 3;
    assert nbrs[i].At(j) == -1;
  }
}
