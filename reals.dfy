/**
 * `numpy.min` and `numpy.max` over a one-dimensional array of reals. Both
 * raise on an empty array; that error is `None` here.
 */
module Reals {
  import opened Wrappers

  function MinOf(s: seq<real>): (r: Option<real>)
    ensures r.None? <==> |s| == 0
    ensures r.Some? ==> r.value in s && forall k :: 0 <= k < |s| ==> r.value <= s[k]
    decreases |s|
  {
    if |s| == 0 then None
    else
      match MinOf(s[..|s| - 1])
      case None => Some(s[|s| - 1])
      case Some(m) => Some(if s[|s| - 1] < m then s[|s| - 1] else m)
  }

  function MaxOf(s: seq<real>): (r: Option<real>)
    ensures r.None? <==> |s| == 0
    ensures r.Some? ==> r.value in s && forall k :: 0 <= k < |s| ==> s[k] <= r.value
    decreases |s|
  {
    if |s| == 0 then None
    else
      match MaxOf(s[..|s| - 1])
      case None => Some(s[|s| - 1])
      case Some(m) => Some(if s[|s| - 1] > m then s[|s| - 1] else m)
  }
}
