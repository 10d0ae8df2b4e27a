/**
 * The domain-completeness check of the production model. The map
 * attributes of the model, taken in the order the object lists them, are
 * numbered from 1; every cell inside the clone mask records the number of
 * the first attribute that has no value there, or 0, and the run aborts
 * when some cell inside the mask records a number.
 */
module ExtentCheck {
  import opened Wrappers

  /** The clone mask: `Some(true)` inside the study area; false or missing cells lie outside. */
  type Mask = seq<Option<bool>>

  predicate InMask(mask: Mask, i: int)
    requires 0 <= i < |mask|
  {
    mask[i] == Some(true)
  }

  /** Every attribute's definedness pattern lies on the mask's clone. */
  predicate OnMask(mask: Mask, defs: seq<seq<bool>>)
  {
    forall k :: 0 <= k < |defs| ==> |defs[k]| == |mask|
  }

  /** What one call of the check produces. */
  datatype Report =
    | Skipped
      /** ids: the offender map (None outside the mask); warned: the numbers reported with a warning. */
    | Checked(ids: seq<Option<nat>>, warned: seq<nat>, abort: bool)

  /** The number (from 1) of the first attribute without a value at cell i, or 0 when all have one. */
  function FirstMissing(defs: seq<seq<bool>>, i: nat): (r: nat)
    requires forall k :: 0 <= k < |defs| ==> i < |defs[k]|
    ensures r <= |defs|
    ensures r == 0 <==> forall k :: 0 <= k < |defs| ==> defs[k][i]
    ensures r > 0 ==> !defs[r - 1][i] && forall k :: 0 <= k < r - 1 ==> defs[k][i]
  {
    if |defs| == 0 then 0
    else
      var p := FirstMissing(defs[..|defs| - 1], i);
      if p > 0 then p
      else if !defs[|defs| - 1][i] then |defs|
      else 0
  }

  /** The offender map over the whole clone. */
  function MissingIds(mask: Mask, defs: seq<seq<bool>>): (r: seq<Option<nat>>)
    requires OnMask(mask, defs)
    ensures |r| == |mask|
    ensures forall i :: 0 <= i < |mask| ==> r[i] == if InMask(mask, i) then Some(FirstMissing(defs, i)) else None
  {
    seq(|mask|, i requires 0 <= i < |mask| => if InMask(mask, i) then Some(FirstMissing(defs, i)) else None)
  }

  /** An attribute lacks a value somewhere inside the mask. */
  predicate Incomplete(mask: Mask, def: seq<bool>)
    requires |def| == |mask|
  {
    exists i :: 0 <= i < |mask| && InMask(mask, i) && !def[i]
  }

  /** The numbers of the incomplete attributes, in order. */
  function Offenders(mask: Mask, defs: seq<seq<bool>>): (r: seq<nat>)
    requires OnMask(mask, defs)
    ensures forall k :: 1 <= k <= |defs| ==> (k in r <==> Incomplete(mask, defs[k - 1]))
    ensures forall x :: x in r ==> 1 <= x <= |defs|
    ensures forall a, b :: 0 <= a < b < |r| ==> r[a] < r[b]
  {
    if |defs| == 0 then []
    else
      var m := |defs| - 1;
      assert forall k :: 0 <= k < m ==> defs[..m][k] == defs[k];
      var p := Offenders(mask, defs[..m]);
      assert forall a :: 0 <= a < |p| ==> p[a] in p;
      if Incomplete(mask, defs[m]) then p + [|defs|] else p
  }

  /** The run stops: testing is on and some attribute lacks a value somewhere inside the mask. */
  predicate Aborts(tests: bool, mask: Mask, defs: seq<seq<bool>>)
    requires OnMask(mask, defs)
  {
    tests && exists k, i :: 0 <= k < |defs| && 0 <= i < |mask| && InMask(mask, i) && !defs[k][i]
  }

  /**
   * `check_extent`: with testing switched off nothing happens; otherwise
   * the offender map starts at 0 inside the mask and each attribute in turn
   * writes its number into the cells where it has no value and nothing was
   * recorded yet.
   */
  method CheckExtent(tests: bool, mask: Mask, defs: seq<seq<bool>>) returns (rep: Report)
    requires OnMask(mask, defs)
    ensures !tests ==> rep == Skipped
    ensures tests ==> rep.Checked? && rep.ids == MissingIds(mask, defs) && rep.warned == Offenders(mask, defs)
    ensures tests ==> (rep.abort <==>
      exists k, i :: 0 <= k < |defs| && 0 <= i < |mask| && InMask(mask, i) && !defs[k][i])
  {
    if !tests {
      return Skipped;
    }
    var ids := seq(|mask|, i requires 0 <= i < |mask| => if InMask(mask, i) then Some(0) else None);
    var warned := [];
    var count := 0;
    while count < |defs|
      invariant 0 <= count <= |defs|
      invariant ids == MissingIds(mask, defs[..count])
      invariant warned == Offenders(mask, defs[..count])
    {
      var def := defs[count];
      assert defs[..count + 1][..count] == defs[..count];
      count := count + 1;
      ids := seq(|mask|, i requires 0 <= i < |mask| =>
        if InMask(mask, i) && !def[i] && ids[i] == Some(0) then Some(count) else ids[i]);
      if exists i :: 0 <= i < |mask| && InMask(mask, i) && !def[i] {
        warned := warned + [count];
      }
    }
    assert defs[..count] == defs;
    var abort := exists i :: 0 <= i < |mask| && ids[i].Some? && ids[i].value > 0;
    return Checked(ids, warned, abort);
  }

  /** A number once recorded at a cell is never replaced by a later attribute. */
  lemma {:induction false} NeverOverwritten(defs: seq<seq<bool>>, k: nat, i: nat)
    requires k <= |defs| && forall j :: 0 <= j < |defs| ==> i < |defs[j]|
    requires FirstMissing(defs[..k], i) > 0
    ensures FirstMissing(defs, i) == FirstMissing(defs[..k], i)
  {
    if k < |defs| {
      var m := |defs| - 1;
      var prefix := defs[..m];
      assert forall j :: 0 <= j < m ==> prefix[j] == defs[j];
      assert prefix[..k] == defs[..k];
      NeverOverwritten(prefix, k, i);
    } else {
      assert defs[..k] == defs;
    }
  }
}
