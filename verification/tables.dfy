/**
 * Land-cover tables: the dictionaries the model keeps per land-cover class.
 * A coefficient table maps a class name to a number (Manning's n, P factor,
 * interception share); the cover maps give each class its fraction map.
 * Both are kept in insertion order, which is the order the model iterates.
 */
module LandCoverTables {
  import opened Wrappers
  import opened FieldAlgebra

  /** One row of a coefficient table. */
  datatype Entry = Entry(name: string, value: real)

  /** A dictionary from class names to coefficients, in insertion order. */
  type Table = seq<Entry>

  predicate DistinctNames(t: Table)
  {
    forall i, j :: 0 <= i < j < |t| ==> t[i].name != t[j].name
  }

  function Names(t: Table): (r: seq<string>)
    ensures |r| == |t| && forall i :: 0 <= i < |t| ==> r[i] == t[i].name
  {
    seq(|t|, i requires 0 <= i < |t| => t[i].name)
  }

  /** The position of the first entry named `name`. */
  function IndexOf(t: Table, name: string): (i: nat)
    requires name in Names(t)
    ensures i < |t| && t[i].name == name
    ensures forall j :: 0 <= j < i ==> t[j].name != name
  {
    if t[0].name == name then 0
    else
      assert name in Names(t[1..]) by {
        var j :| 0 <= j < |t| && Names(t)[j] == name;
        assert Names(t[1..])[j - 1] == name;
      }
      1 + IndexOf(t[1..], name)
  }

  /** `table[name]`, or None where the name has no entry (a KeyError). */
  function Lookup(t: Table, name: string): (r: Option<real>)
    ensures r.None? <==> name !in Names(t)
    ensures DistinctNames(t) ==> forall i :: 0 <= i < |t| && t[i].name == name ==> r == Some(t[i].value)
  {
    if name in Names(t) then Some(t[IndexOf(t, name)].value) else None
  }

  /**
   * `table[name] = v`: a present name keeps its place and takes the new
   * value, a new name is appended; every other name keeps its value.
   */
  function Put(t: Table, name: string, v: real): (r: Table)
    requires DistinctNames(t)
    ensures DistinctNames(r)
    ensures Lookup(r, name) == Some(v)
    ensures forall other :: other != name ==> Lookup(r, other) == Lookup(t, other)
    ensures name in Names(t) ==> Names(r) == Names(t)
    ensures name !in Names(t) ==> Names(r) == Names(t) + [name]
  {
    if name in Names(t) then
      var r := t[IndexOf(t, name) := Entry(name, v)];
      assert Names(r) == Names(t);
      r
    else
      var r := t + [Entry(name, v)];
      assert Names(r) == Names(t) + [name];
      r
  }

  /** A land-cover class with its cover-fraction map. */
  datatype CoverClass = CoverClass(name: string, fraction: Field)

  predicate ClassesOnClone(cs: seq<CoverClass>, n: nat)
  {
    forall k :: 0 <= k < |cs| ==> |cs[k].fraction| == n
  }

  function ClassNames(cs: seq<CoverClass>): (r: seq<string>)
    ensures |r| == |cs| && forall k :: 0 <= k < |cs| ==> r[k] == cs[k].name
  {
    seq(|cs|, k requires 0 <= k < |cs| => cs[k].name)
  }

  function Fractions(cs: seq<CoverClass>): (r: seq<Field>)
    ensures |r| == |cs| && forall k :: 0 <= k < |cs| ==> r[k] == cs[k].fraction
  {
    seq(|cs|, k requires 0 <= k < |cs| => cs[k].fraction)
  }
}
