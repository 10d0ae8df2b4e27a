/**
 * Ground cover from NDVI: every value of the NDVI record is rescaled
 * linearly so that the smallest becomes 0 and the largest 1. The values
 * are taken in the order the record stores them; the record's shape plays
 * no part.
 */
module GroundCover {
  import opened Wrappers

  /** The result of a float division: a real, or the NaN or infinity a zero divisor gives. */
  datatype Ratio = Finite(v: real) | NonFinite

  /** The smallest value. */
  function Min(s: seq<real>): (m: real)
    requires |s| > 0
    ensures m in s && forall i :: 0 <= i < |s| ==> m <= s[i]
  {
    if |s| == 1 then s[0]
    else
      var rest := Min(s[1..]);
      assert forall i :: 1 <= i < |s| ==> s[i] == s[1..][i - 1];
      if s[0] <= rest then s[0] else rest
  }

  /** The largest value. */
  function Max(s: seq<real>): (m: real)
    requires |s| > 0
    ensures m in s && forall i :: 0 <= i < |s| ==> s[i] <= m
  {
    if |s| == 1 then s[0]
    else
      var rest := Max(s[1..]);
      assert forall i :: 1 <= i < |s| ==> s[i] == s[1..][i - 1];
      if s[0] >= rest then s[0] else rest
  }

  /** A value that is in the sequence and no larger than any element is its minimum. */
  lemma MinUnique(s: seq<real>, m: real)
    requires m in s && forall i :: 0 <= i < |s| ==> m <= s[i]
    ensures |s| > 0 && m == Min(s)
  {
  }

  /** A value that is in the sequence and no smaller than any element is its maximum. */
  lemma MaxUnique(s: seq<real>, m: real)
    requires m in s && forall i :: 0 <= i < |s| ==> s[i] <= m
    ensures |s| > 0 && m == Max(s)
  {
  }

  /** `data.min()`: the smallest value; an empty record has none. */
  method Minimum(a: array<real>) returns (r: Option<real>)
    ensures r.None? <==> a.Length == 0
    ensures r.Some? ==> r.value in a[..] && forall i :: 0 <= i < a.Length ==> r.value <= a[i]
  {
    if a.Length == 0 {
      return None;
    }
    var m := a[0];
    for i := 1 to a.Length
      invariant m in a[..i] && forall j :: 0 <= j < i ==> m <= a[j]
    {
      if a[i] < m {
        m := a[i];
      }
    }
    assert a[..a.Length] == a[..];
    return Some(m);
  }

  /** `data.max()`: the largest value; an empty record has none. */
  method Maximum(a: array<real>) returns (r: Option<real>)
    ensures r.None? <==> a.Length == 0
    ensures r.Some? ==> r.value in a[..] && forall i :: 0 <= i < a.Length ==> a[i] <= r.value
  {
    if a.Length == 0 {
      return None;
    }
    var m := a[0];
    for i := 1 to a.Length
      invariant m in a[..i] && forall j :: 0 <= j < i ==> a[j] <= m
    {
      if a[i] > m {
        m := a[i];
      }
    }
    assert a[..a.Length] == a[..];
    return Some(m);
  }

  /** `compute_minmax_ndvi`: the record's minimum and maximum, which an empty record lacks. */
  method ComputeMinMax(a: array<real>) returns (r: Option<(real, real)>)
    ensures r.None? <==> a.Length == 0
    ensures r.Some? ==> r.value == (Min(a[..]), Max(a[..]))
  {
    var lo := Minimum(a);
    var hi := Maximum(a);
    if lo.None? || hi.None? {
      return None;
    }
    MinUnique(a[..], lo.value);
    MaxUnique(a[..], hi.value);
    return Some((lo.value, hi.value));
  }

  /** `(x - lo) / (hi - lo)` in floating point: equal bounds divide by zero. */
  function Rescale(x: Ratio, lo: real, hi: real): (r: Ratio)
    ensures r.Finite? <==> x.Finite? && hi != lo
    ensures r.Finite? ==> lo + r.v * (hi - lo) == x.v
  {
    match x
    case NonFinite => NonFinite
    case Finite(v) => if hi == lo then NonFinite else Finite((v - lo) / (hi - lo))
  }

  function RescaledAll(s: seq<Ratio>, lo: real, hi: real): (r: seq<Ratio>)
    ensures |r| == |s| && forall i :: 0 <= i < |s| ==> r[i] == Rescale(s[i], lo, hi)
  {
    seq(|s|, i requires 0 <= i < |s| => Rescale(s[i], lo, hi))
  }

  function AsRatios(s: seq<real>): (r: seq<Ratio>)
    ensures |r| == |s| && forall i :: 0 <= i < |s| ==> r[i] == Finite(s[i])
  {
    seq(|s|, i requires 0 <= i < |s| => Finite(s[i]))
  }

  /** The ground cover of an NDVI record; None for an empty record, whose minimum fails. */
  function CoverOf(ndvi: seq<real>): (r: Option<seq<Ratio>>)
    ensures r.None? <==> |ndvi| == 0
    ensures r.Some? ==> |r.value| == |ndvi|
  {
    if |ndvi| == 0 then None else Some(RescaledAll(AsRatios(ndvi), Min(ndvi), Max(ndvi)))
  }

  /** The `nditer` read-write loop: each cell overwritten by its rescaled value, one cell at a time. */
  method RescaleInPlace(cover: array<Ratio>, lo: real, hi: real)
    modifies cover
    ensures cover[..] == RescaledAll(old(cover[..]), lo, hi)
  {
    var i := 0;
    while i < cover.Length
      invariant 0 <= i <= cover.Length
      invariant cover[..i] == RescaledAll(old(cover[..]), lo, hi)[..i]
      invariant cover[i..] == old(cover[i..])
    {
      cover[i] := Rescale(cover[i], lo, hi);
      i := i + 1;
    }
  }

  /**
   * The script's main computation: the minimum and maximum, a copy of the
   * record, and the copy rescaled in place; the NDVI record itself is not
   * written.
   */
  method GroundCoverFromNdvi(ndvi: array<real>) returns (r: Option<array<Ratio>>)
    ensures r.None? <==> ndvi.Length == 0
    ensures r.Some? ==> fresh(r.value) && Some(r.value[..]) == CoverOf(ndvi[..])
  {
    var minmax := ComputeMinMax(ndvi);
    if minmax.None? {
      return None;
    }
    var (lo, hi) := minmax.value;
    var cover := new Ratio[ndvi.Length](i requires 0 <= i < ndvi.Length reads ndvi => Finite(ndvi[i]));
    assert cover[..] == AsRatios(ndvi[..]);
    RescaleInPlace(cover, lo, hi);
    return Some(cover);
  }

  /** Between distinct bounds the rescaled value of a number between them lies in [0, 1]. */
  lemma RescaleInUnit(x: real, lo: real, hi: real)
    requires lo <= x <= hi && lo < hi
    ensures Rescale(Finite(x), lo, hi).Finite? && 0.0 <= Rescale(Finite(x), lo, hi).v <= 1.0
  {
    var q := (x - lo) / (hi - lo);
    assert q * (hi - lo) == x - lo;
  }

  /** Between distinct bounds the lower bound becomes 0 and the upper 1. */
  lemma RescaleEnds(lo: real, hi: real)
    requires lo < hi
    ensures Rescale(Finite(lo), lo, hi) == Finite(0.0) && Rescale(Finite(hi), lo, hi) == Finite(1.0)
  {
    var d := hi - lo;
    assert d / d == 1.0;
  }

  /** Between distinct bounds rescaling keeps the order. */
  lemma RescaleMonotone(x: real, y: real, lo: real, hi: real)
    requires x <= y && lo < hi
    ensures Rescale(Finite(x), lo, hi).v <= Rescale(Finite(y), lo, hi).v
  {
    var d := hi - lo;
    assert (y - lo) / d - (x - lo) / d == (y - x) / d;
  }

  /** With distinct extremes every cover value is a number in [0, 1]. */
  lemma CoverInUnit(ndvi: seq<real>, i: nat)
    requires |ndvi| > 0 && Min(ndvi) < Max(ndvi) && i < |ndvi|
    ensures CoverOf(ndvi).value[i].Finite? && 0.0 <= CoverOf(ndvi).value[i].v <= 1.0
  {
    assert CoverOf(ndvi).value[i] == Rescale(Finite(ndvi[i]), Min(ndvi), Max(ndvi));
    RescaleInUnit(ndvi[i], Min(ndvi), Max(ndvi));
  }

  /** With distinct extremes the smallest NDVI value becomes 0 and the largest 1. */
  lemma ExtremesMapToEnds(ndvi: seq<real>, i: nat)
    requires |ndvi| > 0 && Min(ndvi) < Max(ndvi) && i < |ndvi|
    ensures ndvi[i] == Min(ndvi) ==> CoverOf(ndvi).value[i] == Finite(0.0)
    ensures ndvi[i] == Max(ndvi) ==> CoverOf(ndvi).value[i] == Finite(1.0)
  {
    assert CoverOf(ndvi).value[i] == Rescale(Finite(ndvi[i]), Min(ndvi), Max(ndvi));
    RescaleEnds(Min(ndvi), Max(ndvi));
  }

  /** Rescaling keeps the order of the values. */
  lemma CoverMonotone(ndvi: seq<real>, i: nat, j: nat)
    requires |ndvi| > 0 && Min(ndvi) < Max(ndvi) && i < |ndvi| && j < |ndvi| && ndvi[i] <= ndvi[j]
    ensures CoverOf(ndvi).value[i].Finite? && CoverOf(ndvi).value[j].Finite?
    ensures CoverOf(ndvi).value[i].v <= CoverOf(ndvi).value[j].v
  {
    assert CoverOf(ndvi).value[i] == Rescale(Finite(ndvi[i]), Min(ndvi), Max(ndvi));
    assert CoverOf(ndvi).value[j] == Rescale(Finite(ndvi[j]), Min(ndvi), Max(ndvi));
    RescaleMonotone(ndvi[i], ndvi[j], Min(ndvi), Max(ndvi));
  }

  /** When all values are equal there is no guard: every cell becomes a division by zero. */
  lemma FlatRecordNotFinite(ndvi: seq<real>, i: nat)
    requires |ndvi| > 0 && Min(ndvi) == Max(ndvi) && i < |ndvi|
    ensures CoverOf(ndvi).value[i] == NonFinite
  {
  }
}
