/**
 * The land-cover weighted factors of the factor library: the conservation
 * (P) factor, the interception fraction and the vegetation part of Manning's
 * n. Each walks the cover classes in order, adding fraction * coefficient to
 * a map that starts at 0; a class its table does not list stops the walk
 * with a KeyError naming that class.
 */
module ClassWeighting {
  import opened Wrappers
  import opened FieldAlgebra
  import opened LandCoverTables

  const Croplands: string := "croplands"

  /** Where a class's coefficient comes from. */
  datatype Rule =
    | FromTable(table: Table)
      /** The conservation factor's rule: croplands use 0.2 + 0.3 * selected slope, the rest the table. */
    | CroplandSlope(table: Table, slope: Field)

  predicate RuleOnClone(rule: Rule, n: nat)
  {
    rule.CroplandSlope? ==> |rule.slope| == n
  }

  /** The coefficient map of one class, or None when its table has no entry for it. */
  function Coefficient(rule: Rule, name: string, n: nat): (r: Option<Field>)
    requires RuleOnClone(rule, n)
    ensures r.Some? ==> |r.value| == n
    ensures r.None? <==> !(rule.CroplandSlope? && name == Croplands) && name !in Names(rule.table)
  {
    if rule.CroplandSlope? && name == Croplands then
      Some(Map1(s => Add(Lit(0.2), Mul(Lit(0.3), s)), rule.slope))
    else
      match Lookup(rule.table, name)
      case None => None
      case Some(v) => Some(Const(Lit(v), n))
  }

  /** The position of the first class without a coefficient, or |cs| when every class has one. */
  function FirstUnlisted(cs: seq<CoverClass>, rule: Rule, n: nat): (j: nat)
    requires RuleOnClone(rule, n)
    ensures j <= |cs|
    ensures forall k :: 0 <= k < j ==> Coefficient(rule, cs[k].name, n).Some?
    ensures j < |cs| ==> Coefficient(rule, cs[j].name, n).None?
  {
    if |cs| == 0 then 0
    else if Coefficient(rule, cs[0].name, n).None? then 0
    else 1 + FirstUnlisted(cs[1..], rule, n)
  }

  function CoefficientMaps(cs: seq<CoverClass>, rule: Rule, n: nat): (r: seq<Field>)
    requires RuleOnClone(rule, n) && FirstUnlisted(cs, rule, n) == |cs|
    ensures |r| == |cs| && OnClone(r, n)
    ensures forall k :: 0 <= k < |cs| ==> r[k] == Coefficient(rule, cs[k].name, n).value
  {
    seq(|cs|, k requires 0 <= k < |cs| => Coefficient(rule, cs[k].name, n).value)
  }

  /**
   * The weighted sum of the coefficients over the classes, or a KeyError
   * naming the first class without a coefficient.
   */
  function ClassWeighted(cs: seq<CoverClass>, rule: Rule, n: nat): (r: Result<Field, string>)
    requires ClassesOnClone(cs, n) && RuleOnClone(rule, n)
    ensures r.Success? ==> |r.value| == n
  {
    var j := FirstUnlisted(cs, rule, n);
    if j < |cs| then Failure(cs[j].name)
    else Success(WeightedSum(Fractions(cs), CoefficientMaps(cs, rule, n), n))
  }

  /**
   * The weighted factor fails exactly when some class has no coefficient,
   * and then names the first such class.
   */
  lemma ClassWeightedFailure(cs: seq<CoverClass>, rule: Rule, n: nat)
    requires ClassesOnClone(cs, n) && RuleOnClone(rule, n)
    ensures ClassWeighted(cs, rule, n).Failure? <==> exists k :: 0 <= k < |cs| && Coefficient(rule, cs[k].name, n).None?
    ensures ClassWeighted(cs, rule, n).Failure? ==> exists k :: (0 <= k < |cs| && ClassWeighted(cs, rule, n).error == cs[k].name &&
      Coefficient(rule, cs[k].name, n).None? && forall j :: 0 <= j < k ==> Coefficient(rule, cs[j].name, n).Some?)
  {
  }

  /** The weighted sum over the first k classes, all of which have a coefficient. */
  ghost function PrefixSum(cs: seq<CoverClass>, rule: Rule, n: nat, k: nat): Field
    requires ClassesOnClone(cs, n) && RuleOnClone(rule, n) && k <= |cs| && FirstUnlisted(cs[..k], rule, n) == k
  {
    WeightedSum(Fractions(cs[..k]), CoefficientMaps(cs[..k], rule, n), n)
  }

  /** The loop shared by the three weighted factors. */
  method AccumulateClasses(cs: seq<CoverClass>, rule: Rule, n: nat) returns (r: Result<Field, string>)
    requires ClassesOnClone(cs, n) && RuleOnClone(rule, n)
    ensures r == ClassWeighted(cs, rule, n)
  {
    var acc := Const(Lit(0.0), n);
    var k := 0;
    while k < |cs|
      invariant 0 <= k <= |cs|
      invariant FirstUnlisted(cs[..k], rule, n) == k
      invariant acc == PrefixSum(cs, rule, n, k)
    {
      var c := Coefficient(rule, cs[k].name, n);
      if c.None? {
        StopsAtUnlisted(cs, rule, n, k);
        return Failure(cs[k].name);
      }
      var term := Map2(Mul, cs[k].fraction, c.value);
      AccumulateStep(cs, rule, n, k);
      acc := Map2(Add, acc, term);
      k := k + 1;
    }
    WholePrefix(cs, rule, n);
    return Success(acc);
  }

  lemma WholePrefix(cs: seq<CoverClass>, rule: Rule, n: nat)
    requires ClassesOnClone(cs, n) && RuleOnClone(rule, n) && FirstUnlisted(cs[..|cs|], rule, n) == |cs|
    ensures ClassWeighted(cs, rule, n) == Success(PrefixSum(cs, rule, n, |cs|))
  {
    assert cs[..|cs|] == cs;
  }

  lemma StopsAtUnlisted(cs: seq<CoverClass>, rule: Rule, n: nat, k: nat)
    requires ClassesOnClone(cs, n) && RuleOnClone(rule, n) && k < |cs|
    requires FirstUnlisted(cs[..k], rule, n) == k && Coefficient(rule, cs[k].name, n).None?
    ensures ClassWeighted(cs, rule, n) == Failure(cs[k].name)
  {
    assert forall j :: 0 <= j < k ==> cs[..k][j] == cs[j];
  }

  lemma AccumulateStep(cs: seq<CoverClass>, rule: Rule, n: nat, k: nat)
    requires ClassesOnClone(cs, n) && RuleOnClone(rule, n) && k < |cs|
    requires FirstUnlisted(cs[..k], rule, n) == k && Coefficient(rule, cs[k].name, n).Some?
    ensures FirstUnlisted(cs[..k + 1], rule, n) == k + 1
    ensures PrefixSum(cs, rule, n, k + 1) ==
      Map2(Add, PrefixSum(cs, rule, n, k), Map2(Mul, cs[k].fraction, Coefficient(rule, cs[k].name, n).value))
  {
    ListedPrefix(cs, rule, n, k);
    var fr, co := Fractions(cs[..k + 1]), CoefficientMaps(cs[..k + 1], rule, n);
    PrefixMaps(cs, rule, n, k);
    WeightedSumUnfold(fr, co, n);
  }

  lemma ListedPrefix(cs: seq<CoverClass>, rule: Rule, n: nat, k: nat)
    requires RuleOnClone(rule, n) && k < |cs|
    requires FirstUnlisted(cs[..k], rule, n) == k && Coefficient(rule, cs[k].name, n).Some?
    ensures FirstUnlisted(cs[..k + 1], rule, n) == k + 1
  {
    var p := cs[..k + 1];
    forall j | 0 <= j <= k ensures Coefficient(rule, p[j].name, n).Some? {
      if j < k {
        assert p[j] == cs[..k][j];
      }
    }
  }

  lemma PrefixMaps(cs: seq<CoverClass>, rule: Rule, n: nat, k: nat)
    requires RuleOnClone(rule, n) && k < |cs|
    requires FirstUnlisted(cs[..k], rule, n) == k && FirstUnlisted(cs[..k + 1], rule, n) == k + 1
    ensures Fractions(cs[..k + 1])[..k] == Fractions(cs[..k])
    ensures CoefficientMaps(cs[..k + 1], rule, n)[..k] == CoefficientMaps(cs[..k], rule, n)
    ensures Fractions(cs[..k + 1])[k] == cs[k].fraction
    ensures CoefficientMaps(cs[..k + 1], rule, n)[k] == Coefficient(rule, cs[k].name, n).value
  {
  }

  lemma WeightedSumUnfold(fr: seq<Field>, co: seq<Field>, n: nat)
    requires |co| == |fr| > 0 && OnClone(fr, n) && OnClone(co, n)
    ensures WeightedSum(fr, co, n) ==
      Map2(Add, WeightedSum(fr[..|fr| - 1], co[..|fr| - 1], n), Map2(Mul, fr[|fr| - 1], co[|fr| - 1]))
  {
  }

  /** The conservation factor: the class-weighted P value, croplands from the selected slope. */
  method ConservationFactor(cs: seq<CoverClass>, pInfo: Table, selectedSlope: Field, n: nat)
    returns (r: Result<Field, string>)
    requires ClassesOnClone(cs, n) && |selectedSlope| == n
    ensures r == ClassWeighted(cs, CroplandSlope(pInfo, selectedSlope), n)
  {
    r := AccumulateClasses(cs, CroplandSlope(pInfo, selectedSlope), n);
  }

  /** The class-weighted interception share, clamped to [0, 1]. */
  function Interception(cs: seq<CoverClass>, info: Table, n: nat): (r: Result<Field, string>)
    requires ClassesOnClone(cs, n)
    ensures r.Failure? <==> ClassWeighted(cs, FromTable(info), n).Failure?
    ensures r.Success? ==> |r.value| == n && forall i :: 0 <= i < n && r.value[i].Val? ==> 0.0 <= r.value[i].value <= 1.0
  {
    match ClassWeighted(cs, FromTable(info), n)
    case Failure(e) => Failure(e)
    case Success(w) => Success(Map2(Min, Const(Lit(1.0), n), Map2(Max, Const(Lit(0.0), n), w)))
  }

  method InterceptionFraction(cs: seq<CoverClass>, info: Table, n: nat) returns (r: Result<Field, string>)
    requires ClassesOnClone(cs, n)
    ensures r == Interception(cs, info, n)
  {
    var acc := AccumulateClasses(cs, FromTable(info), n);
    if acc.Failure? {
      return Failure(acc.error);
    }
    var part1 := Map2(Max, Const(Lit(0.0), n), acc.value);
    var part2 := Map2(Min, Const(Lit(1.0), n), part1);
    return Success(part2);
  }

  /** The vegetation part of Manning's n: the class-weighted table value. */
  method ManningN4(cs: seq<CoverClass>, info: Table, n: nat) returns (r: Result<Field, string>)
    requires ClassesOnClone(cs, n)
    ensures r == ClassWeighted(cs, FromTable(info), n)
  {
    r := AccumulateClasses(cs, FromTable(info), n);
  }

  // ---------------------------------------------------------------------
  // Properties
  // ---------------------------------------------------------------------

  /** A table that lists every class never fails. */
  lemma ListedClassesSucceed(cs: seq<CoverClass>, t: Table, n: nat)
    requires ClassesOnClone(cs, n)
    requires forall k :: 0 <= k < |cs| ==> cs[k].name in Names(t)
    ensures ClassWeighted(cs, FromTable(t), n).Success?
  {
  }

  /**
   * With non-negative fractions and coefficients in [lo, hi] at a cell, the
   * weighted factor there lies between lo and hi times the fraction total.
   */
  lemma ClassWeightedBetween(cs: seq<CoverClass>, rule: Rule, n: nat, i: nat, lo: real, hi: real)
    requires ClassesOnClone(cs, n) && RuleOnClone(rule, n) && i < n
    requires ClassWeighted(cs, rule, n).Success?
    requires forall k :: 0 <= k < |cs| ==> cs[k].fraction[i].Val? && cs[k].fraction[i].value >= 0.0
    requires forall k :: 0 <= k < |cs| ==>
      Coefficient(rule, cs[k].name, n).value[i].Val? && lo <= Coefficient(rule, cs[k].name, n).value[i].value <= hi
    ensures ClassWeighted(cs, rule, n).value[i].Val? && Total(Fractions(cs), n)[i].Val?
    ensures Scaled(lo, Total(Fractions(cs), n)[i].value, ClassWeighted(cs, rule, n).value[i].value, hi)
  {
    var fr: seq<Field>, co: seq<Field> := Fractions(cs), CoefficientMaps(cs, rule, n);
    CoefficientsAt(cs, rule, n, i, lo, hi, co);
    WeightedSumBetween(fr, co, n, i, lo, hi);
  }

  /** Where the fractions of a cell sum to 1, the weighted factor there is a convex combination: it lies in [lo, hi]. */
  lemma ClassWeightedConvex(cs: seq<CoverClass>, rule: Rule, n: nat, i: nat, lo: real, hi: real)
    requires ClassesOnClone(cs, n) && RuleOnClone(rule, n) && i < n
    requires ClassWeighted(cs, rule, n).Success?
    requires forall k :: 0 <= k < |cs| ==> cs[k].fraction[i].Val? && cs[k].fraction[i].value >= 0.0
    requires forall k :: 0 <= k < |cs| ==>
      Coefficient(rule, cs[k].name, n).value[i].Val? && lo <= Coefficient(rule, cs[k].name, n).value[i].value <= hi
    requires Total(Fractions(cs), n)[i] == Val(1.0)
    ensures ClassWeighted(cs, rule, n).value[i].Val?
    ensures lo <= ClassWeighted(cs, rule, n).value[i].value <= hi
  {
    ClassWeightedBetween(cs, rule, n, i, lo, hi);
  }

  lemma CoefficientsAt(cs: seq<CoverClass>, rule: Rule, n: nat, i: nat, lo: real, hi: real, co: seq<Field>)
    requires RuleOnClone(rule, n) && i < n && FirstUnlisted(cs, rule, n) == |cs|
    requires co == CoefficientMaps(cs, rule, n)
    requires forall k :: 0 <= k < |cs| ==>
      Coefficient(rule, cs[k].name, n).value[i].Val? && lo <= Coefficient(rule, cs[k].name, n).value[i].value <= hi
    ensures forall k :: 0 <= k < |co| ==> co[k][i].Val? && lo <= co[k][i].value <= hi
  {
  }

  /**
   * The table's own croplands entry plays no part in the conservation
   * factor: two P tables that agree on every other class give the same result.
   */
  lemma {:induction false} CroplandsEntryIgnored(cs: seq<CoverClass>, t1: Table, t2: Table, slope: Field, n: nat)
    requires ClassesOnClone(cs, n) && |slope| == n
    requires forall name :: name != Croplands ==> Lookup(t1, name) == Lookup(t2, name)
    ensures ClassWeighted(cs, CroplandSlope(t1, slope), n) == ClassWeighted(cs, CroplandSlope(t2, slope), n)
  {
    var r1, r2 := CroplandSlope(t1, slope), CroplandSlope(t2, slope);
    assert forall name :: Coefficient(r1, name, n) == Coefficient(r2, name, n);
    SameCoefficientsSameFirst(cs, r1, r2, n);
    if FirstUnlisted(cs, r1, n) == |cs| {
      assert CoefficientMaps(cs, r1, n) == CoefficientMaps(cs, r2, n);
    }
  }

  lemma {:induction false} SameCoefficientsSameFirst(cs: seq<CoverClass>, r1: Rule, r2: Rule, n: nat)
    requires RuleOnClone(r1, n) && RuleOnClone(r2, n)
    requires forall name :: Coefficient(r1, name, n) == Coefficient(r2, name, n)
    ensures FirstUnlisted(cs, r1, n) == FirstUnlisted(cs, r2, n)
  {
    if |cs| > 0 {
      SameCoefficientsSameFirst(cs[1..], r1, r2, n);
    }
  }
}
