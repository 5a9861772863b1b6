/**
 * Index bookkeeping shared by the boundary-edge extraction, the triangle
 * filter and the grid-point filter: `numpy.where` on a flattened boolean
 * array, boolean-mask indexing (`a[mask]`), and `numpy.vstack` of a list of
 * row blocks.
 */
module Indices {

  /** Positions of the true entries of `p`, ascending: `numpy.where(p)[0]`. */
  function Where(p: seq<bool>): (r: seq<nat>)
    ensures |r| <= |p| && forall m :: 0 <= m < |r| ==> r[m] < |p|
    decreases |p|
  {
    if |p| == 0 then []
    else
      var w := Where(p[..|p| - 1]);
      if p[|p| - 1] then w + [|p| - 1] else w
  }

  /** `Where` lists every flagged position, only flagged positions, each once and ascending. */
  lemma {:induction false} WhereExactly(p: seq<bool>)
    ensures forall m :: 0 <= m < |Where(p)| ==> Where(p)[m] < |p| && p[Where(p)[m]]
    ensures forall k :: 0 <= k < |p| && p[k] ==> k in Where(p)
    ensures forall a, b :: 0 <= a < b < |Where(p)| ==> Where(p)[a] < Where(p)[b]
    decreases |p|
  {
    if |p| > 0 {
      var n := |p| - 1;
      WhereExactly(p[..n]);
      forall k | 0 <= k < n
        ensures p[..n][k] == p[k]
      {
      }
    }
  }

  /** With no flag set there is no position to report. */
  lemma {:induction false} WhereNone(p: seq<bool>)
    requires forall k :: 0 <= k < |p| ==> !p[k]
    ensures Where(p) == []
    decreases |p|
  {
    if |p| > 0 {
      WhereNone(p[..|p| - 1]);
    }
  }

  /** Every index in `r` moved up by `d`. */
  function Shift(r: seq<nat>, d: nat): (s: seq<nat>)
    ensures |s| == |r| && forall m :: 0 <= m < |r| ==> s[m] == r[m] + d
  {
    seq(|r|, m requires 0 <= m < |r| => r[m] + d)
  }

  /** One more flag adds its own position when set. */
  lemma WhereSnoc(p: seq<bool>, x: bool)
    ensures Where(p + [x]) == Where(p) + (if x then [|p|] else [])
  {
    assert (p + [x])[..|p|] == p;
  }

  /** The positions found in a concatenation are those of the first part
      followed by those of the second part, offset by the first part's length. */
  lemma {:induction false} WhereAppend(a: seq<bool>, b: seq<bool>)
    ensures Where(a + b) == Where(a) + Shift(Where(b), |a|)
    decreases |b|
  {
    if |b| == 0 {
      assert a + b == a;
    } else {
      var b', x := b[..|b| - 1], b[|b| - 1];
      assert b == b' + [x];
      assert a + b == (a + b') + [x];
      WhereSnoc(a + b', x);
      WhereSnoc(b', x);
      WhereAppend(a, b');
      var tailB := if x then [|b'|] else [];
      ShiftAppend(Where(b'), tailB, |a|);
      assert Shift(tailB, |a|) == if x then [|a + b'|] else [];
    }
  }

  lemma ShiftAppend(r: seq<nat>, t: seq<nat>, d: nat)
    ensures Shift(r + t, d) == Shift(r, d) + Shift(t, d)
  {
  }

  /** Boolean-mask indexing `s[keep]`: the entries of `s` whose flag is set, in order. */
  function Gather<T>(s: seq<T>, keep: seq<bool>): (r: seq<T>)
    requires |s| == |keep|
    ensures |r| <= |s| && forall m :: 0 <= m < |r| ==> r[m] in s
  {
    var w := Where(keep);
    seq(|w|, m requires 0 <= m < |w| => s[w[m]])
  }

  /** `Gather` keeps exactly the flagged entries, each once, in their original order. */
  lemma GatherExactly<T>(s: seq<T>, keep: seq<bool>)
    requires |s| == |keep|
    ensures var r, w := Gather(s, keep), Where(keep);
      && |r| == |w|
      && (forall m :: 0 <= m < |r| ==> w[m] < |s| && keep[w[m]] && r[m] == s[w[m]])
      && (forall k :: 0 <= k < |s| && keep[k] ==> k in w)
      && (forall a, b :: 0 <= a < b < |w| ==> w[a] < w[b])
  {
    WhereExactly(keep);
  }

  /** Masking a concatenation masks each part. */
  lemma GatherAppend<T>(s: seq<T>, t: seq<T>, p: seq<bool>, q: seq<bool>)
    requires |s| == |p| && |t| == |q|
    ensures Gather(s + t, p + q) == Gather(s, p) + Gather(t, q)
  {
    WhereAppend(p, q);
    WhereExactly(p);
    WhereExactly(q);
    var w, u := Where(p), Where(q);
    var lhs, rhs := Gather(s + t, p + q), Gather(s, p) + Gather(t, q);
    assert |lhs| == |rhs|;
    forall m | 0 <= m < |lhs| ensures lhs[m] == rhs[m] {
      if m < |w| {
        assert Where(p + q)[m] == w[m];
      } else {
        assert Where(p + q)[m] == u[m - |w|] + |s|;
      }
    }
  }

  /** Masking a single entry keeps it exactly when its flag is set. */
  lemma GatherSingle<T>(x: T, f: bool)
    ensures Gather([x], [f]) == if f then [x] else []
  {
    WhereSnoc([], f);
    assert [f] == [] + [f];
  }

  /** `numpy.vstack` of row blocks: the blocks one after the other. */
  function Concat<T>(ss: seq<seq<T>>): (r: seq<T>)
    decreases |ss|
  {
    if |ss| == 0 then [] else Concat(ss[..|ss| - 1]) + ss[|ss| - 1]
  }

  /** Stacking two lists of blocks stacks their stacks. */
  lemma {:induction false} ConcatAppend<T>(a: seq<seq<T>>, b: seq<seq<T>>)
    ensures Concat(a + b) == Concat(a) + Concat(b)
    decreases |b|
  {
    if |b| == 0 {
      assert a + b == a;
    } else {
      var b' := b[..|b| - 1];
      assert (a + b)[..|a + b| - 1] == a + b';
      ConcatAppend(a, b');
    }
  }

  /** The length of a stack is the sum of its blocks' lengths. */
  function TotalLength<T>(ss: seq<seq<T>>): nat
    decreases |ss|
  {
    if |ss| == 0 then 0 else TotalLength(ss[..|ss| - 1]) + |ss[|ss| - 1]|
  }

  /** An element is in the stack exactly when it is in one of the blocks,
      and nothing is lost or added in length. */
  lemma {:induction false} ConcatMembers<T>(ss: seq<seq<T>>, x: T)
    ensures |Concat(ss)| == TotalLength(ss)
    ensures x in Concat(ss) <==> exists i :: 0 <= i < |ss| && x in ss[i]
    decreases |ss|
  {
    if |ss| > 0 {
      var n := |ss| - 1;
      ConcatMembers(ss[..n], x);
      if x in ss[n] {
        assert x in Concat(ss);
      }
      if exists i :: 0 <= i < |ss| && x in ss[i] {
        var i :| 0 <= i < |ss| && x in ss[i];
        if i < n {
          assert ss[..n][i] == ss[i];
        }
      }
      if x in Concat(ss[..n]) {
        var i :| 0 <= i < n && x in ss[..n][i];
        assert ss[i] == ss[..n][i];
      }
    }
  }
}
