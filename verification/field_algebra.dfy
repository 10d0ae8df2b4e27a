/**
 * The spatial field algebra the RUSLE engine is written in: PCRaster scalar
 * maps over one fixed clone, evaluated cell by cell.
 *
 * A cell is `Val(v)` or `Missing`, the PCRaster missing value. Every operator
 * propagates a missing operand, and an operator applied outside its domain
 * (a division by zero, the square root of a negative number, a power outside
 * its domain) yields a missing value rather than an error.
 */
module FieldAlgebra {
  import opened Wrappers

  /** A cell of a scalar map: a value, or PCRaster's missing value. */
  datatype Cell = Missing | Val(value: real)

  /** A map over the study domain: one cell per clone cell, in a fixed order. */
  type Field = seq<Cell>

  /**
   * The transcendental operators of the field library. Their values are not
   * modelled; `Math` below keeps only the facts the properties rely on.
   */
  datatype Ops = Ops(
    exp: real -> real,
    pow: (real, real) -> Cell,
    sqrt: real -> Cell,
    sin: real -> real,
    atan: real -> real)

  ghost predicate Sound(o: Ops)
  {
    && (forall x :: o.exp(x) > 0.0)
    && (forall x :: x < 0.0 ==> o.exp(x) < 1.0)
    && (forall x, y :: x > 0.0 ==> o.pow(x, y).Val? && o.pow(x, y).value > 0.0)
    && (forall y :: y > 0.0 ==> o.pow(0.0, y) == Val(0.0))
    && (forall x :: x >= 0.0 ==> o.sqrt(x).Val? && o.sqrt(x).value >= 0.0)
  }

  type Math = o: Ops | Sound(o)
    witness Ops(
      x => if x < 0.0 then 0.5 else 1.0,
      (x, y) => if x > 0.0 then Val(1.0) else if x == 0.0 && y > 0.0 then Val(0.0) else Missing,
      x => if x >= 0.0 then Val(0.0) else Missing,
      x => 0.0,
      x => 0.0)

  // ---------------------------------------------------------------------
  // Cell operators (PCRaster semantics for missing values)
  // ---------------------------------------------------------------------

  function Lit(v: real): Cell { Val(v) }

  function Add(a: Cell, b: Cell): Cell
  {
    if a.Val? && b.Val? then Val(a.value + b.value) else Missing
  }

  function Sub(a: Cell, b: Cell): Cell
  {
    if a.Val? && b.Val? then Val(a.value - b.value) else Missing
  }

  function Mul(a: Cell, b: Cell): Cell
  {
    if a.Val? && b.Val? then Val(a.value * b.value) else Missing
  }

  /** Division; a zero divisor gives a missing value. */
  function Div(a: Cell, b: Cell): Cell
  {
    if a.Val? && b.Val? && b.value != 0.0 then Val(a.value / b.value) else Missing
  }

  function Min(a: Cell, b: Cell): Cell
  {
    if a.Val? && b.Val? then Val(if a.value <= b.value then a.value else b.value) else Missing
  }

  function Max(a: Cell, b: Cell): Cell
  {
    if a.Val? && b.Val? then Val(if a.value >= b.value then a.value else b.value) else Missing
  }

  /** `cover(a, v)`: a missing cell takes the value v. */
  function Cover(a: Cell, v: real): Cell
  {
    if a.Val? then a else Val(v)
  }

  /** `ifthenelse(c, a, b)` where c is the boolean cell `Some(b)`, or `None` where missing. */
  function Select(c: Option<bool>, a: Cell, b: Cell): Cell
  {
    match c
    case None => Missing
    case Some(t) => if t then a else b
  }

  /** `ifthen(c, a)`: a where c holds, missing elsewhere. */
  function Where(c: Option<bool>, a: Cell): Cell
  {
    if c == Some(true) then a else Missing
  }

  function Less(a: Cell, b: Cell): Option<bool>
  {
    if a.Val? && b.Val? then Some(a.value < b.value) else None
  }

  function AtMost(a: Cell, b: Cell): Option<bool>
  {
    if a.Val? && b.Val? then Some(a.value <= b.value) else None
  }

  function And(a: Option<bool>, b: Option<bool>): Option<bool>
  {
    if a.Some? && b.Some? then Some(a.value && b.value) else None
  }

  function Pow(m: Math, a: Cell, b: Cell): Cell
  {
    if a.Val? && b.Val? then m.pow(a.value, b.value) else Missing
  }

  function Sqrt(m: Math, a: Cell): Cell
  {
    if a.Val? then m.sqrt(a.value) else Missing
  }

  function Exp(m: Math, a: Cell): Cell
  {
    if a.Val? then Val(m.exp(a.value)) else Missing
  }

  function Sin(m: Math, a: Cell): Cell
  {
    if a.Val? then Val(m.sin(a.value)) else Missing
  }

  function Atan(m: Math, a: Cell): Cell
  {
    if a.Val? then Val(m.atan(a.value)) else Missing
  }

  // ---------------------------------------------------------------------
  // Fields
  // ---------------------------------------------------------------------

  /** `pcr.scalar(v)`: the same cell everywhere on a clone of n cells. */
  function Const(v: Cell, n: nat): (r: Field)
    ensures |r| == n && forall i :: 0 <= i < n ==> r[i] == v
  {
    seq(n, i => v)
  }

  function Map1(f: Cell -> Cell, a: Field): (r: Field)
    ensures |r| == |a| && forall i :: 0 <= i < |a| ==> r[i] == f(a[i])
  {
    seq(|a|, i requires 0 <= i < |a| => f(a[i]))
  }

  function Map2(f: (Cell, Cell) -> Cell, a: Field, b: Field): (r: Field)
    requires |b| == |a|
    ensures |r| == |a| && forall i :: 0 <= i < |a| ==> r[i] == f(a[i], b[i])
  {
    seq(|a|, i requires 0 <= i < |a| => f(a[i], b[i]))
  }

  function Map3(f: (Cell, Cell, Cell) -> Cell, a: Field, b: Field, c: Field): (r: Field)
    requires |b| == |a| && |c| == |a|
    ensures |r| == |a| && forall i :: 0 <= i < |a| ==> r[i] == f(a[i], b[i], c[i])
  {
    seq(|a|, i requires 0 <= i < |a| => f(a[i], b[i], c[i]))
  }

  function Map4(f: (Cell, Cell, Cell, Cell) -> Cell, a: Field, b: Field, c: Field, d: Field): (r: Field)
    requires |b| == |a| && |c| == |a| && |d| == |a|
    ensures |r| == |a| && forall i :: 0 <= i < |a| ==> r[i] == f(a[i], b[i], c[i], d[i])
  {
    seq(|a|, i requires 0 <= i < |a| => f(a[i], b[i], c[i], d[i]))
  }

  function Map6(f: (Cell, Cell, Cell, Cell, Cell, Cell) -> Cell,
                a: Field, b: Field, c: Field, d: Field, e: Field, g: Field): (r: Field)
    requires |b| == |a| && |c| == |a| && |d| == |a| && |e| == |a| && |g| == |a|
    ensures |r| == |a| && forall i :: 0 <= i < |a| ==> r[i] == f(a[i], b[i], c[i], d[i], e[i], g[i])
  {
    seq(|a|, i requires 0 <= i < |a| => f(a[i], b[i], c[i], d[i], e[i], g[i]))
  }

  /** Every field in fs lies on a clone of n cells. */
  predicate OnClone(fs: seq<Field>, n: nat)
  {
    forall k :: 0 <= k < |fs| ==> |fs[k]| == n
  }

  // ---------------------------------------------------------------------
  // Sums over land-cover classes
  // ---------------------------------------------------------------------

  /** `scalar(0) + fs[0] + fs[1] + ...`, accumulated left to right. */
  function Total(fs: seq<Field>, n: nat): (r: Field)
    requires OnClone(fs, n)
    ensures |r| == n
  {
    if |fs| == 0 then Const(Lit(0.0), n)
    else Map2(Add, Total(fs[..|fs| - 1], n), fs[|fs| - 1])
  }

  /** `scalar(0) + fr[0] * co[0] + fr[1] * co[1] + ...`, accumulated left to right. */
  function WeightedSum(fr: seq<Field>, co: seq<Field>, n: nat): (r: Field)
    requires |co| == |fr| && OnClone(fr, n) && OnClone(co, n)
    ensures |r| == n
  {
    if |fr| == 0 then Const(Lit(0.0), n)
    else Map2(Add, WeightedSum(fr[..|fr| - 1], co[..|co| - 1], n), Map2(Mul, fr[|fr| - 1], co[|co| - 1]))
  }

  /** The land-cover total at cell i is defined exactly where every class is. */
  lemma {:induction false} TotalDefined(fs: seq<Field>, n: nat, i: nat)
    requires OnClone(fs, n) && i < n
    ensures Total(fs, n)[i].Val? <==> forall k :: 0 <= k < |fs| ==> fs[k][i].Val?
  {
    if |fs| > 0 {
      TotalDefined(fs[..|fs| - 1], n, i);
      assert forall k :: 0 <= k < |fs| - 1 ==> fs[..|fs| - 1][k] == fs[k];
    }
  }

  /** Dividing every class by the same non-zero t divides their total by t. */
  lemma {:induction false} TotalOfQuotients(fs: seq<Field>, qs: seq<Field>, n: nat, i: nat, t: real)
    requires OnClone(fs, n) && OnClone(qs, n) && |qs| == |fs| && i < n && t != 0.0
    requires forall k :: 0 <= k < |fs| ==> fs[k][i].Val? && qs[k][i] == Val(fs[k][i].value / t)
    ensures Total(fs, n)[i].Val? && Total(qs, n)[i] == Val(Total(fs, n)[i].value / t)
  {
    if |fs| > 0 {
      var m := |fs| - 1;
      TotalOfQuotients(fs[..m], qs[..m], n, i, t);
      var a := Total(fs[..m], n)[i].value;
      LastTermAt(fs, n, i);
      LastTermAt(qs, n, i);
      SumOfQuotients(a, fs[m][i].value, t);
    }
  }

  /** At one cell, the last field adds its value to the total. */
  lemma LastTermAt(fs: seq<Field>, n: nat, i: nat)
    requires |fs| > 0 && OnClone(fs, n) && i < n
    ensures Total(fs, n)[i] == Add(Total(fs[..|fs| - 1], n)[i], fs[|fs| - 1][i])
  {
  }

  lemma SumOfQuotients(a: real, b: real, t: real)
    requires t != 0.0
    ensures a / t + b / t == (a + b) / t
  {
  }

  /**
   * A weighted sum with non-negative weights and coefficients in [lo, hi]
   * lies between lo and hi times the sum of the weights; in particular, with
   * weights summing to 1 it is a convex combination of the coefficients.
   */
  lemma {:induction false} WeightedSumBetween(fr: seq<Field>, co: seq<Field>, n: nat, i: nat, lo: real, hi: real)
    requires |co| == |fr| && OnClone(fr, n) && OnClone(co, n) && i < n
    requires forall k :: 0 <= k < |fr| ==> fr[k][i].Val? && fr[k][i].value >= 0.0
    requires forall k :: 0 <= k < |co| ==> co[k][i].Val? && lo <= co[k][i].value <= hi
    ensures Total(fr, n)[i].Val? && WeightedSum(fr, co, n)[i].Val?
    ensures Scaled(lo, Total(fr, n)[i].value, WeightedSum(fr, co, n)[i].value, hi)
  {
    if |fr| > 0 {
      var m := |fr| - 1;
      assert forall k :: 0 <= k < m ==> fr[..m][k] == fr[k] && co[..m][k] == co[k];
      WeightedSumBetween(fr[..m], co[..m], n, i, lo, hi);
      LastClassAt(fr, co, n, i);
      AccumulateBetween(Total(fr[..m], n)[i], WeightedSum(fr[..m], co[..m], n)[i], fr[m][i], co[m][i], lo, hi);
    }
  }

  /** At one cell, the last class adds its fraction to the total and its product to the weighted sum. */
  lemma LastClassAt(fr: seq<Field>, co: seq<Field>, n: nat, i: nat)
    requires |co| == |fr| > 0 && OnClone(fr, n) && OnClone(co, n) && i < n
    ensures Total(fr, n)[i] == Add(Total(fr[..|fr| - 1], n)[i], fr[|fr| - 1][i])
    ensures WeightedSum(fr, co, n)[i] == Add(WeightedSum(fr[..|fr| - 1], co[..|fr| - 1], n)[i], Mul(fr[|fr| - 1][i], co[|fr| - 1][i]))
  {
  }

  /** w lies between lo * t and hi * t. */
  ghost predicate Scaled(lo: real, t: real, w: real, hi: real)
  {
    lo * t <= w <= hi * t
  }

  /** Adding a non-negative fraction f with a coefficient in [lo, hi] keeps the bounds. */
  lemma AccumulateBetween(t: Cell, w: Cell, f: Cell, c: Cell, lo: real, hi: real)
    requires t.Val? && w.Val? && f.Val? && c.Val? && Scaled(lo, t.value, w.value, hi)
    requires f.value >= 0.0 && lo <= c.value <= hi
    ensures Add(t, f).Val? && Add(w, Mul(f, c)).Val?
    ensures Scaled(lo, Add(t, f).value, Add(w, Mul(f, c)).value, hi)
  {
    assert f.value * (c.value - lo) >= 0.0;
    assert f.value * (hi - c.value) >= 0.0;
  }
}
