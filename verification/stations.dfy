/**
 * Picking the grid coordinate nearest to a station: the index of the
 * element closest to a value, and that element.
 */
module Stations {
  import opened Wrappers

  /** `abs(x - value)` */
  function Distance(x: real, value: real): real
  {
    if x >= value then x - value else value - x
  }

  /**
   * `argmin` of the distances: the elements are scanned from the front and
   * a later element replaces the best so far only when strictly closer, so
   * the first of equally close elements wins.
   */
  function NearestIndex(a: seq<real>, value: real): (idx: nat)
    requires |a| > 0
    ensures idx < |a|
    ensures forall j :: 0 <= j < |a| ==> Distance(a[idx], value) <= Distance(a[j], value)
    ensures forall j :: 0 <= j < idx ==> Distance(a[j], value) > Distance(a[idx], value)
  {
    if |a| == 1 then 0
    else
      var m := |a| - 1;
      var p := NearestIndex(a[..m], value);
      assert forall j :: 0 <= j < m ==> a[..m][j] == a[j];
      if Distance(a[m], value) < Distance(a[p], value) then m else p
  }

  /** `find_nearest`: the index and the element; an empty array has no minimum. */
  function FindNearest(a: seq<real>, value: real): (r: Result<(nat, real), string>)
    ensures r.Failure? <==> |a| == 0
    ensures r.Success? ==> r.value.0 < |a| && r.value.1 == a[r.value.0]
  {
    if |a| == 0 then Failure("ValueError: attempt to get argmin of an empty sequence")
    else
      var idx := NearestIndex(a, value);
      Success((idx, a[idx]))
  }

  /**
   * The index returned is the only one that is both as close as any other
   * element and strictly closer than every element before it.
   */
  lemma NearestIsFirstClosest(a: seq<real>, value: real, k: nat)
    requires k < |a|
    requires forall j :: 0 <= j < |a| ==> Distance(a[k], value) <= Distance(a[j], value)
    requires forall j :: 0 <= j < k ==> Distance(a[j], value) > Distance(a[k], value)
    ensures FindNearest(a, value) == Success((k, a[k]))
  {
    var idx := NearestIndex(a, value);
    assert Distance(a[idx], value) == Distance(a[k], value);
  }
}
