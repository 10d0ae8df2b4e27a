/**
 * The RUSLE factor library of the Amazon sediment production model: cell-wise
 * formulas for the slope, erosivity, erodibility, vegetation cover, Manning
 * roughness and delivery factors of the monthly soil-loss computation.
 *
 * Every function maps the cells of its input maps at one location to the
 * result cell at that location; the driver lifts them to whole maps.
 */
module Factors {
  import opened Wrappers
  import opened FieldAlgebra

  function Abs(x: real): real
  {
    if x < 0.0 then -x else x
  }

  /** x lies between a and b, whichever of the two is larger. */
  ghost predicate Between(x: real, a: real, b: real)
  {
    (a <= x <= b) || (b <= x <= a)
  }

  // ---------------------------------------------------------------------
  // Slope length and steepness
  // ---------------------------------------------------------------------

  /** The slope-length exponent gamma, fitted to the gradient and capped at unity. */
  function SlopeLengthExponent(m: Math, g: Cell): (r: Cell)
    ensures r.Val? ==> r.value <= 1.0
    ensures g.Val? && g.value > 0.0 ==> r.Val? && 0.0 < r.value <= 1.0
    ensures g == Val(0.0) ==> r == Val(0.0)
  {
    Min(Lit(1.0), Mul(Lit(1.183156498), Pow(m, g, Lit(0.351920534))))
  }

  /** The slope-length factor (L / 22.13) ^ gamma. */
  function SlopeLengthFactor(m: Math, l: Cell, g: Cell): (r: Cell)
    ensures l.Val? && l.value > 0.0 && g.Val? && g.value > 0.0 ==> r.Val? && r.value > 0.0
    ensures l == Val(0.0) && g.Val? && g.value > 0.0 ==> r == Val(0.0)
  {
    Pow(m, Div(l, Lit(22.13)), SlopeLengthExponent(m, g))
  }

  /**
   * The steepness factor of Nearing (1997). It depends on the gradient only
   * through the slope angle atan(g); the percentage gradient the source also
   * computes is never used.
   */
  function SlopeSteepnessFactor(m: Math, g: Cell): (r: Cell)
    ensures r.Val? <==> g.Val?
  {
    var angle := Atan(m, g);
    Add(Lit(-1.5), Div(Lit(17.0), Add(Lit(1.0), Exp(m, Sub(Lit(2.3), Mul(Lit(6.1), Sin(m, angle)))))))
  }

  /** Since exp is positive, the steepness factor lies strictly between -1.5 and 15.5. */
  lemma SteepnessBounds(m: Math, g: Cell)
    requires g.Val?
    ensures -1.5 < SlopeSteepnessFactor(m, g).value < 15.5
  {
    QuotientBelow(17.0, 1.0 + m.exp(2.3 - 6.1 * m.sin(m.atan(g.value))));
  }

  /** Two gradients with the same slope angle have the same steepness factor. */
  lemma SteepnessDependsOnAngleOnly(m: Math, g1: real, g2: real)
    requires m.atan(g1) == m.atan(g2)
    ensures SlopeSteepnessFactor(m, Val(g1)) == SlopeSteepnessFactor(m, Val(g2))
  {
  }

  /** The combined slope factor LS: length factor times steepness factor. */
  function SlopeFactor(m: Math, l: Cell, g: Cell): (r: Cell)
    ensures r.Val? <==> SlopeLengthFactor(m, l, g).Val? && g.Val?
  {
    Mul(SlopeLengthFactor(m, l, g), SlopeSteepnessFactor(m, g))
  }

  /**
   * On a positive slope length and gradient LS is defined and lies strictly
   * between -1.5 and 15.5 times the (positive) length factor.
   */
  lemma SlopeFactorBounds(m: Math, l: Cell, g: Cell)
    requires l.Val? && l.value > 0.0 && g.Val? && g.value > 0.0
    ensures SlopeFactor(m, l, g).Val?
    ensures var lf := SlopeLengthFactor(m, l, g).value;
      lf > 0.0 && -1.5 * lf < SlopeFactor(m, l, g).value < 15.5 * lf
  {
    var lf, sf := SlopeLengthFactor(m, l, g), SlopeSteepnessFactor(m, g);
    SteepnessBounds(m, g);
    ScaleStrictlyBetween(lf.value, sf.value, -1.5, 15.5);
  }

  // ---------------------------------------------------------------------
  // Erosivity
  // ---------------------------------------------------------------------

  /**
   * Annual erosivity after Renard and Freimund (1994): a power law up to
   * 850 mm of annual rain, a quadratic above it.
   */
  function AnnualErosivity(m: Math, rain: Cell): (r: Cell)
    ensures rain == Missing ==> r == Missing
    ensures rain == Val(0.0) ==> r == Val(0.0)
    ensures rain.Val? && 0.0 < rain.value <= 850.0 ==> r.Val? && r.value > 0.0
    ensures rain.Val? && rain.value > 850.0 ==> r.Val?
  {
    Select(AtMost(rain, Lit(850.0)),
      Mul(Lit(0.0483), Pow(m, rain, Lit(1.61))),
      Add(Sub(Lit(587.8), Mul(Lit(1.219), rain)), Mul(Lit(0.00415), Mul(rain, rain))))
  }

  /** Above 850 mm the quadratic branch applies and yields a positive erosivity. */
  lemma ErosivityAbove850(m: Math, x: real)
    requires x > 850.0
    ensures AnnualErosivity(m, Val(x)) == Val(587.8 - 1.219 * x + 0.00415 * (x * x))
    ensures AnnualErosivity(m, Val(x)).value > 0.0
  {
    assert 0.00415 * x - 1.219 > 0.0;
    assert x * (0.00415 * x - 1.219) > 0.0;
    assert 0.00415 * (x * x) - 1.219 * x == x * (0.00415 * x - 1.219);
  }

  /** Up to 850 mm the power-law branch applies. */
  lemma ErosivityUpTo850(m: Math, x: real)
    requires x <= 850.0
    ensures AnnualErosivity(m, Val(x)) == Mul(Lit(0.0483), m.pow(x, 1.61))
  {
  }

  /**
   * The part of the annual erosivity falling in one month, in proportion to
   * the month's share of the annual rain; zero where there is no annual rain.
   */
  function PartitionErosivity(rainMonth: Cell, rainAnnual: Cell, erosAnnual: Cell): (r: Cell)
    ensures rainAnnual.Val? && rainAnnual.value <= 0.0 && erosAnnual.Val? ==> r == Val(0.0)
    ensures erosAnnual == Missing ==> r == Missing
  {
    Mul(Select(Less(Lit(0.0), rainAnnual), Div(rainMonth, Max(rainMonth, rainAnnual)), Lit(0.0)), erosAnnual)
  }

  /**
   * With positive annual rain and non-negative monthly rain the month's share
   * lies in [0, 1], so the monthly erosivity lies between 0 and the annual one.
   */
  lemma PartitionBounded(rainMonth: real, rainAnnual: real, erosAnnual: real)
    requires rainAnnual > 0.0 && rainMonth >= 0.0
    ensures var r := PartitionErosivity(Val(rainMonth), Val(rainAnnual), Val(erosAnnual));
      r.Val? && Abs(r.value) <= Abs(erosAnnual) && Between(r.value, 0.0, erosAnnual)
  {
    var d := if rainMonth >= rainAnnual then rainMonth else rainAnnual;
    ShareInUnit(rainMonth, d);
    ScaledByUnit(rainMonth / d, erosAnnual);
  }

  // ---------------------------------------------------------------------
  // Vegetation cover
  // ---------------------------------------------------------------------

  /**
   * The cover-management factor after Yang (2014): exp(-0.799 - 7.74 gc +
   * 0.0449 gc^2) times the erosivity index R_month / R_year, each missing
   * cell of the exponential and of the product replaced by `fill`.
   */
  function VegCoverFactor(m: Math, gc: Cell, rainEros: Cell, yearEros: Cell, fill: real): (r: Cell)
    ensures r.Val?
    ensures Div(rainEros, yearEros) == Missing ==> r == Val(fill)
    ensures gc == Missing && Div(rainEros, yearEros).Val? ==> r == Val(fill * Div(rainEros, yearEros).value)
  {
    var expo := Add(Sub(Lit(-0.799), Mul(Lit(7.74), gc)), Mul(Lit(0.0449), Mul(gc, gc)));
    var ex := Cover(Exp(m, expo), fill);
    Cover(Mul(ex, Div(rainEros, yearEros)), fill)
  }

  /**
   * For a ground cover fraction in [0, 1] and a monthly erosivity between 0
   * and a positive annual one, the cover factor lies in [0, 1).
   */
  lemma VegCoverBounded(m: Math, gc: real, rainEros: real, yearEros: real, fill: real)
    requires 0.0 <= gc <= 1.0 && 0.0 <= rainEros <= yearEros && yearEros > 0.0
    ensures 0.0 <= VegCoverFactor(m, Val(gc), Val(rainEros), Val(yearEros), fill).value < 1.0
  {
    assert gc * gc <= gc by { assert gc * (1.0 - gc) >= 0.0; }
    var x := -0.799 - 7.74 * gc + 0.0449 * (gc * gc);
    assert x < 0.0;
    var e := m.exp(x);
    assert 0.0 < e < 1.0;
    var a := rainEros / yearEros;
    ShareInUnit(rainEros, yearEros);
    var gcv := Val(gc);
    var expo := Add(Sub(Lit(-0.799), Mul(Lit(7.74), gcv)), Mul(Lit(0.0449), Mul(gcv, gcv)));
    assert expo == Val(x);
    assert Exp(m, expo) == Val(e);
    assert Div(Val(rainEros), Val(yearEros)) == Val(a);
    assert VegCoverFactor(m, Val(gc), Val(rainEros), Val(yearEros), fill) == Val(e * a);
    ProductBelowOne(e, a);
  }

  // ---------------------------------------------------------------------
  // Erodibility
  // ---------------------------------------------------------------------

  const DefaultMeltTemperature: real := 0.0

  /**
   * The fraction of the period the air is above the melt temperature,
   * min(1, max(0, tmax - tmelt) / max(0.1, tmax - tmin)).
   */
  function MeltTimeFraction(tmin: Cell, tmax: Cell, tmelt: real): (r: Cell)
    ensures r.Val? <==> tmin.Val? && tmax.Val?
    ensures r.Val? ==> r.value <= 1.0
    ensures tmin.Val? && tmax.Val? && tmax.value <= tmelt ==> r == Val(0.0)
  {
    Min(Lit(1.0), Div(Max(Lit(0.0), Sub(tmax, Lit(tmelt))), Max(Lit(0.1), Sub(tmax, tmin))))
  }

  /** The melt-time fraction is a fraction: never negative, never above 1. */
  lemma MeltFractionInUnit(tmin: real, tmax: real, tmelt: real)
    ensures var r := MeltTimeFraction(Val(tmin), Val(tmax), tmelt); 0.0 <= r.value <= 1.0
  {
    var num := if 0.0 >= tmax - tmelt then 0.0 else tmax - tmelt;
    var den := if 0.1 >= tmax - tmin then 0.1 else tmax - tmin;
    QuotientNonNegative(num, den);
  }

  /** The monthly erodibility of Van Dijk (2001), (m (s - 1) + 1) K_year. */
  function MonthlyErodibility(kAnnual: Cell, kSeasonal: Cell, melt: Cell): (r: Cell)
    ensures r.Val? <==> kAnnual.Val? && kSeasonal.Val? && melt.Val?
    ensures kAnnual.Val? && kSeasonal.Val? && melt == Val(0.0) ==> r == kAnnual
    ensures kAnnual.Val? && kSeasonal.Val? && melt == Val(1.0) ==> r == Val(kSeasonal.value * kAnnual.value)
  {
    Mul(Add(Mul(melt, Sub(kSeasonal, Lit(1.0))), Lit(1.0)), kAnnual)
  }

  /** For a melt fraction in [0, 1] the monthly erodibility lies between K_year and s K_year. */
  lemma MonthlyErodibilityBetween(kAnnual: real, kSeasonal: real, melt: real)
    requires 0.0 <= melt <= 1.0
    ensures Between(MonthlyErodibility(Val(kAnnual), Val(kSeasonal), Val(melt)).value, kAnnual, kSeasonal * kAnnual)
  {
    assert MonthlyErodibility(Val(kAnnual), Val(kSeasonal), Val(melt)) ==
      Val((melt * (kSeasonal - 1.0) + 1.0) * kAnnual);
    Interpolation(melt, kSeasonal, kAnnual);
  }

  /**
   * The organic matter to clay ratio: om / max(0.001, clay) where the clay
   * fraction exceeds 0.001, zero elsewhere.
   */
  function OrganicClayRatio(om: Cell, clay: Cell): (r: Cell)
    ensures r.Val? <==> clay.Val? && (clay.value <= 0.001 || om.Val?)
    ensures clay.Val? && clay.value <= 0.001 ==> r == Val(0.0)
    ensures clay.Val? && clay.value > 0.001 && om.Val? ==> r == Val(om.value / clay.value)
  {
    Select(Less(Lit(0.001), clay), Div(om, Max(Lit(0.001), clay)), Lit(0.0))
  }

  /** The logarithm of the mean particle size estimated from the texture (Yang et al. 2003). */
  function MeanParticleSize(sand: Cell, silt: Cell, clay: Cell): (r: Cell)
    ensures r.Val? <==> sand.Val? && silt.Val? && clay.Val?
    ensures sand.Val? && silt.Val? && clay.Val? && sand.value >= 0.0 && silt.value >= 0.0 && clay.value >= 0.0 ==>
      r.value <= 0.0
  {
    Sub(Sub(Mul(Lit(-3.5), sand), Mul(Lit(2.0), silt)), Mul(Lit(0.5), clay))
  }

  /**
   * The default soil erodibility of Torri et al. with the mean particle size
   * of Yang et al. (2003): 0.0293 (0.65 - Dg + 0.24 Dg^2) exp(E), where E
   * combines the organic matter to clay ratio and the clay fraction.
   */
  function DefaultSoilErodibility(m: Math, sand: Cell, silt: Cell, clay: Cell, om: Cell): (r: Cell)
  {
    var dg := MeanParticleSize(sand, silt, clay);
    var omc := OrganicClayRatio(om, clay);
    Mul(Mul(Lit(0.0293), GrainSizeTerm(dg)), Exp(m, OrganicClayExponent(omc, clay)))
  }

  /**
   * The erodibility is defined exactly where the texture is and the organic
   * matter to clay ratio is; where the clay fraction is at most 0.001 the
   * organic matter content is not needed.
   */
  lemma ErodibilityDefined(m: Math, sand: Cell, silt: Cell, clay: Cell, om: Cell)
    ensures DefaultSoilErodibility(m, sand, silt, clay, om).Val? <==>
      sand.Val? && silt.Val? && clay.Val? && (clay.value <= 0.001 || om.Val?)
  {
    if sand.Val? && silt.Val? && clay.Val? {
      if clay.value <= 0.001 || om.Val? {
        ErodibilityDefinedAt(m, sand.value, silt.value, clay.value, om);
      } else {
        ErodibilityNeedsOrganicMatter(m, sand.value, silt.value, clay.value);
      }
    } else {
      assert MeanParticleSize(sand, silt, clay) == Missing;
    }
  }

  /** With the texture defined, the erodibility is defined once the ratio is. */
  lemma ErodibilityDefinedAt(m: Math, sand: real, silt: real, clay: real, om: Cell)
    requires clay <= 0.001 || om.Val?
    ensures DefaultSoilErodibility(m, Val(sand), Val(silt), Val(clay), om).Val?
  {
    var dg := MeanParticleSize(Val(sand), Val(silt), Val(clay));
    var omc := OrganicClayRatio(om, Val(clay));
    assert dg.Val? && omc.Val?;
  }

  /** Above 0.001 clay a missing organic matter content leaves the erodibility missing. */
  lemma ErodibilityNeedsOrganicMatter(m: Math, sand: real, silt: real, clay: real)
    requires clay > 0.001
    ensures DefaultSoilErodibility(m, Val(sand), Val(silt), Val(clay), Missing) == Missing
  {
    assert OrganicClayRatio(Missing, Val(clay)) == Missing;
  }

  /** 0.65 - Dg + 0.24 Dg^2. */
  function GrainSizeTerm(dg: Cell): (r: Cell)
    ensures r.Val? <==> dg.Val?
  {
    Add(Sub(Lit(0.65), dg), Mul(Lit(0.24), Mul(dg, dg)))
  }

  /** -0.0021 omc - 0.00037 omc^2 - 4.02 clay + 1.72 clay^2. */
  function OrganicClayExponent(omc: Cell, clay: Cell): (r: Cell)
    ensures r.Val? <==> omc.Val? && clay.Val?
  {
    Add(Sub(Sub(Mul(Lit(-0.0021), omc), Mul(Lit(0.00037), Mul(omc, omc))), Mul(Lit(4.02), clay)),
        Mul(Lit(1.72), Mul(clay, clay)))
  }

  /**
   * For non-negative texture fractions the mean particle size is at most 0,
   * its polynomial is at least 0.65, and the default erodibility is positive.
   */
  lemma ErodibilityPositive(m: Math, sand: real, silt: real, clay: real, om: real)
    requires sand >= 0.0 && silt >= 0.0 && clay >= 0.0
    ensures var r := DefaultSoilErodibility(m, Val(sand), Val(silt), Val(clay), Val(om)); r.Val? && r.value > 0.0
  {
    var dg := MeanParticleSize(Val(sand), Val(silt), Val(clay));
    var d := dg.value;
    assert d <= 0.0;
    assert d * d >= 0.0;
    var poly := GrainSizeTerm(dg).value;
    assert poly >= 0.65;
    var e := OrganicClayExponent(OrganicClayRatio(Val(om), Val(clay)), Val(clay)).value;
    var x := m.exp(e);
    assert x > 0.0;
    assert (0.0293 * poly) * x > 0.0;
  }

  /**
   * The seasonality ratio of the erodibility after Hoch (2014): 1.17 for
   * fine soils, 4.50 for coarse soils, 1.44 for the rest. Silt plays no part.
   */
  function SeasonalClass(sand: Cell, clay: Cell): (r: Cell)
    ensures r.Val? <==> sand.Val? && clay.Val?
    ensures r == Val(1.17) <==> sand.Val? && clay.Val? && clay.value > 0.35
    ensures r == Val(4.50) <==> sand.Val? && clay.Val? && clay.value < 0.18 && sand.value > 0.65
    ensures r == Val(1.44) <==> sand.Val? && clay.Val? && clay.value <= 0.35 && (clay.value >= 0.18 || sand.value <= 0.65)
  {
    if sand == Missing || clay == Missing then Missing
    else if clay.value > 0.35 then Lit(1.17)
    else if clay.value < 0.18 && sand.value > 0.65 then Lit(4.50)
    else Lit(1.44)
  }

  /**
   * The seasonality ratio over whole maps, as the source computes it: a map
   * of 1.44 overwritten in three passes, for fine, coarse and medium soils.
   */
  method SeasonalityRatio(sand: Field, silt: Field, clay: Field) returns (s: Field)
    requires |silt| == |sand| && |clay| == |sand|
    ensures |s| == |sand|
    ensures forall i :: 0 <= i < |s| ==> s[i] == SeasonalClass(sand[i], clay[i])
  {
    s := Const(Lit(1.44), |sand|);
    ghost var s0 := s;
    s := Map2((c, prev) => Select(Less(Lit(0.35), c), Lit(1.17), prev), clay, s);
    ghost var s1 := s;
    s := Map3((c, a, prev) => Select(And(Less(c, Lit(0.18)), Less(Lit(0.65), a)), Lit(4.50), prev), clay, sand, s);
    ghost var s2 := s;
    s := Map3((c, a, prev) => Select(And(AtMost(c, Lit(0.35)), AtMost(a, Lit(0.65))), Lit(1.44), prev), clay, sand, s);
    forall i | 0 <= i < |s|
      ensures s[i] == SeasonalClass(sand[i], clay[i])
    {
      SeasonalPasses(sand[i], clay[i], s0[i], s1[i], s2[i], s[i]);
    }
  }

  /** The three passes of the seasonality ratio at one cell. */
  lemma SeasonalPasses(sand: Cell, clay: Cell, s0: Cell, s1: Cell, s2: Cell, s3: Cell)
    requires s0 == Lit(1.44)
    requires s1 == Select(Less(Lit(0.35), clay), Lit(1.17), s0)
    requires s2 == Select(And(Less(clay, Lit(0.18)), Less(Lit(0.65), sand)), Lit(4.50), s1)
    requires s3 == Select(And(AtMost(clay, Lit(0.35)), AtMost(sand, Lit(0.65))), Lit(1.44), s2)
    ensures s3 == SeasonalClass(sand, clay)
  {
  }

  // ---------------------------------------------------------------------
  // Soil loss, roughness, delivery
  // ---------------------------------------------------------------------

  /** RUSLE soil loss per cell: R K LS C P times the cell area in hectares. */
  function SoilLoss(r: Cell, k: Cell, ls: Cell, c: Cell, p: Cell, area: Cell): (loss: Cell)
    ensures loss.Val? <==> r.Val? && k.Val? && ls.Val? && c.Val? && p.Val? && area.Val?
  {
    Div(Mul(Mul(Mul(Mul(Mul(r, k), ls), c), p), area), Lit(10000.0))
  }

  /** No erosivity, no soil loss. */
  lemma SoilLossWithoutErosivity(k: real, ls: real, c: real, p: real, area: real)
    ensures SoilLoss(Val(0.0), Val(k), Val(ls), Val(c), Val(p), Val(area)) == Val(0.0)
  {
    assert 0.0 * k == 0.0;
    assert 0.0 * ls == 0.0;
    assert 0.0 * c == 0.0;
    assert 0.0 * p == 0.0;
    assert 0.0 * area == 0.0;
  }

  /** With non-negative factors the soil loss is non-negative. */
  lemma SoilLossNonNegative(r: real, k: real, ls: real, c: real, p: real, area: real)
    requires r >= 0.0 && k >= 0.0 && ls >= 0.0 && c >= 0.0 && p >= 0.0 && area >= 0.0
    ensures SoilLoss(Val(r), Val(k), Val(ls), Val(c), Val(p), Val(area)).value >= 0.0
  {
    var a := r * k;
    var b := a * ls;
    var d := b * c;
    var e := d * p;
    assert a >= 0.0 && b >= 0.0 && d >= 0.0 && e >= 0.0 && e * area >= 0.0;
  }

  /** Manning's n for surface irregularities: the table looked up at the gradient in percent. */
  function ManningN1(lookup: real -> Cell, g: Cell): (r: Cell)
    ensures r.Val? ==> g.Val?
    ensures g.Val? ==> r == lookup(g.value * 100.0)
  {
    if g.Val? then lookup(g.value * 100.0) else Missing
  }

  /** Manning's n contribution of the vegetation: the NDVI with negative values set to 0. */
  function ManningV3(ndvi: Cell): (r: Cell)
    ensures r.Val? <==> ndvi.Val?
    ensures ndvi.Val? ==> r.value >= 0.0 && r.value >= ndvi.value
    ensures ndvi.Val? && ndvi.value >= 0.0 ==> r == ndvi
  {
    Select(Less(ndvi, Lit(0.0)), Lit(0.0), ndvi)
  }

  /** The cell's Manning's n: n1 + 0.049 + v3 * n4. */
  function Manning(n1: Cell, n4: Cell, ndvi: Cell): (r: Cell)
    ensures r.Val? <==> n1.Val? && n4.Val? && ndvi.Val?
  {
    Add(Add(n1, Lit(0.049)), Mul(ManningV3(ndvi), n4))
  }

  /** With non-negative n1 and n4 the roughness is at least the base value 0.049. */
  lemma ManningAtLeastBase(n1: real, n4: real, ndvi: real)
    requires n1 >= 0.0 && n4 >= 0.0
    ensures Manning(Val(n1), Val(n4), Val(ndvi)).value >= 0.049
  {
    assert ManningV3(Val(ndvi)).value * n4 >= 0.0;
  }

  /** The hydrologic coefficient: Q / rain clamped to [0, 1], 0.0001 where the ratio is missing. */
  function HydroCoeff(q: Cell, rain: Cell): (r: Cell)
    ensures r.Val? && 0.0 <= r.value <= 1.0
    ensures Div(q, rain) == Missing ==> r == Val(0.0001)
    ensures Div(q, rain).Val? && 0.0 <= Div(q, rain).value <= 1.0 ==> r == Div(q, rain)
  {
    Min(Lit(1.0), Max(Lit(0.0), Cover(Div(q, rain), 0.0001)))
  }

  /**
   * The sediment delivery ratio of Van Dijk (2001),
   * 9.53 (H sqrt(100 g) / (n L)) ^ 0.79, clamped to [0, 1].
   */
  function DeliveryRatio(m: Math, h: Cell, g: Cell, n: Cell, l: Cell): (r: Cell)
    ensures r.Val? ==> 0.0 <= r.value <= 1.0
  {
    var tmp0 := Div(Mul(h, Sqrt(m, Mul(g, Lit(100.0)))), Mul(n, l));
    Min(Lit(1.0), Max(Lit(0.0), Mul(Lit(9.53), Pow(m, tmp0, Lit(0.79)))))
  }

  /**
   * The delivery ratio is defined wherever the coefficient and the gradient
   * are non-negative and the roughness and slope length are positive.
   */
  lemma DeliveryRatioDefined(m: Math, h: real, g: real, n: real, l: real)
    requires h >= 0.0 && g >= 0.0 && n > 0.0 && l > 0.0
    ensures DeliveryRatio(m, Val(h), Val(g), Val(n), Val(l)).Val?
  {
    var sq := m.sqrt(g * 100.0);
    assert sq.Val? && sq.value >= 0.0;
    var s := sq.value;
    MulNonNegative(h, s);
    MulPositive(n, l);
    QuotientNonNegative(h * s, n * l);
    var q := (h * s) / (n * l);
    var tmp0 := Div(Mul(Val(h), Sqrt(m, Mul(Val(g), Lit(100.0)))), Mul(Val(n), Val(l)));
    assert tmp0 == Val(q);
    assert m.pow(q, 0.79).Val? by {
      if q > 0.0 {
      } else {
        assert q == 0.0;
      }
    }
  }

  /** The sediment reaching the river: soil loss times delivery ratio. */
  function Erosion(soilLoss: Cell, ratio: Cell): (r: Cell)
    ensures r.Val? <==> soilLoss.Val? && ratio.Val?
  {
    Mul(soilLoss, ratio)
  }

  /** A delivery ratio in [0, 1] delivers between none and all of a non-negative soil loss. */
  lemma ErosionAtMostSoilLoss(soilLoss: real, ratio: real)
    requires soilLoss >= 0.0 && 0.0 <= ratio <= 1.0
    ensures 0.0 <= Erosion(Val(soilLoss), Val(ratio)).value <= soilLoss
  {
    ScaledByUnit(ratio, soilLoss);
  }

  // ---------------------------------------------------------------------
  // Arithmetic facts used above
  // ---------------------------------------------------------------------

  lemma QuotientBelow(a: real, d: real)
    requires a > 0.0 && d > 1.0
    ensures 0.0 < a / d < a
  {
    assert a / d * d == a;
  }

  lemma MulNonNegative(a: real, b: real)
    requires a >= 0.0 && b >= 0.0
    ensures a * b >= 0.0
  {
  }

  lemma MulPositive(a: real, b: real)
    requires a > 0.0 && b > 0.0
    ensures a * b > 0.0
  {
  }

  lemma QuotientNonNegative(a: real, d: real)
    requires a >= 0.0 && d > 0.0
    ensures a / d >= 0.0
  {
  }

  lemma ShareInUnit(a: real, d: real)
    requires 0.0 <= a <= d && d > 0.0
    ensures 0.0 <= a / d <= 1.0
  {
    assert a / d * d == a;
  }

  lemma ScaledByUnit(s: real, y: real)
    requires 0.0 <= s <= 1.0
    ensures Abs(s * y) <= Abs(y) && Between(s * y, 0.0, y)
  {
    if y >= 0.0 {
      assert s * y <= 1.0 * y;
    } else {
      assert s * y >= 1.0 * y;
    }
  }

  lemma ProductBelowOne(e: real, a: real)
    requires 0.0 < e < 1.0 && 0.0 <= a <= 1.0
    ensures 0.0 <= e * a < 1.0
  {
    assert e * a <= e * 1.0;
  }

  lemma ScaleStrictlyBetween(f: real, s: real, lo: real, hi: real)
    requires f > 0.0 && lo < s < hi
    ensures lo * f < f * s < hi * f
  {
    assert f * (s - lo) > 0.0;
    assert f * (hi - s) > 0.0;
  }

  lemma Interpolation(t: real, s: real, k: real)
    requires 0.0 <= t <= 1.0
    ensures Between((t * (s - 1.0) + 1.0) * k, k, s * k)
  {
    var d := s * k - k;
    assert (t * (s - 1.0) + 1.0) * k == k + t * d;
    var u := t * d;
    if d >= 0.0 {
      MulNonNegative(t, d);
      MulNonNegative(1.0 - t, d);
      assert (1.0 - t) * d == d - u;
    } else {
      MulNonNegative(t, -d);
      MulNonNegative(1.0 - t, -d);
      assert t * -d == -u;
      assert (1.0 - t) * -d == u - d;
    }
  }
}
