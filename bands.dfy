/**
 * The band-minimum fold of the size function's triangulation step: per
 * raster, the finalized size band starts as +inf everywhere and is lowered,
 * element by element, by every band tagged `SIZE_FUNCTION`; bands with any
 * other tag are ignored.
 */
module Bands {

  /** A size value or +inf, the identity of the element-wise minimum. */
  datatype Extended = Finite(value: real) | Infinity {
    predicate AtMost(v: real) {
      Finite? && value <= v
    }
  }

  /** `numpy.minimum` of one band entry and one value (NaN is not modelled). */
  function Minimum(a: Extended, v: real): (r: Extended)
    ensures r.Finite? && r.AtMost(v)
    ensures a.Finite? ==> r.AtMost(a.value)
    ensures r.value == v || (a.Finite? && r.value == a.value)
  {
    match a
    case Infinity => Finite(v)
    case Finite(x) => Finite(if v < x then v else x)
  }

  const SizeFunctionTag := "SIZE_FUNCTION"

  /** One raster band: its `BAND_TYPE` tag and its values, flattened. */
  datatype Band = Band(tag: string, values: seq<real>)

  predicate IsSizeBand(b: Band) {
    b.tag == SizeFunctionTag
  }

  predicate HasSizeBand(bands: seq<Band>) {
    exists i :: 0 <= i < |bands| && IsSizeBand(bands[i])
  }

  /**
   * The fold over a raster's bands. Where no band is tagged the result is
   * +inf; otherwise each entry is the minimum, over the tagged bands, of
   * that entry.
   */
  method FinalizedBand(bands: seq<Band>, n: nat) returns (band: seq<Extended>)
    requires forall i :: 0 <= i < |bands| && IsSizeBand(bands[i]) ==> |bands[i].values| == n
    ensures |band| == n
    ensures forall k :: 0 <= k < n ==> (band[k] == Infinity <==> !HasSizeBand(bands))
    ensures forall k, i :: 0 <= k < n && 0 <= i < |bands| && IsSizeBand(bands[i]) ==>
      band[k].AtMost(bands[i].values[k])
    ensures forall k :: 0 <= k < n && band[k].Finite? ==>
      exists i :: 0 <= i < |bands| && IsSizeBand(bands[i]) && bands[i].values[k] == band[k].value
  {
    band := seq(n, k => Infinity);
    for i := 0 to |bands|
      invariant |band| == n
      invariant forall k :: 0 <= k < n ==> (band[k] == Infinity <==> !HasSizeBand(bands[..i]))
      invariant forall k, j :: 0 <= k < n && 0 <= j < i && IsSizeBand(bands[j]) ==>
        band[k].AtMost(bands[j].values[k])
      invariant forall k :: 0 <= k < n && band[k].Finite? ==>
        exists j :: 0 <= j < i && IsSizeBand(bands[j]) && bands[j].values[k] == band[k].value
    {
      assert forall j :: 0 <= j < i ==> bands[..i + 1][j] == bands[..i][j];
      if IsSizeBand(bands[i]) {
        var b := bands[i].values;
        var prev := band;
        band := seq(n, k requires 0 <= k < n => Minimum(prev[k], b[k]));
        assert bands[..i + 1][i] == bands[i];
        forall k, j | 0 <= k < n && 0 <= j < i + 1 && IsSizeBand(bands[j])
          ensures band[k].AtMost(bands[j].values[k])
        {
          if j < i {
            assert prev[k].AtMost(bands[j].values[k]);
          }
        }
        forall k | 0 <= k < n
          ensures exists j :: 0 <= j < i + 1 && IsSizeBand(bands[j]) && bands[j].values[k] == band[k].value
        {
          if band[k].value != b[k] {
            var j :| 0 <= j < i && IsSizeBand(bands[j]) && bands[j].values[k] == prev[k].value;
          }
        }
      } else {
        assert HasSizeBand(bands[..i + 1]) <==> HasSizeBand(bands[..i]);
      }
    }
    assert bands[..|bands|] == bands;
  }
}
