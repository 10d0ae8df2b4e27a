/**
 * The computations of the production model's driver, as functions of its
 * inputs: the unit conversions applied to the maps it reads, the yearly
 * (static) factors computed once, the nine monthly factors computed every
 * time step, the ordered list of map attributes the extent check walks, and
 * the rule that decides whether a factor map is written.
 */
module ModelPipeline {
  import opened Wrappers
  import opened FieldAlgebra
  import opened Factors
  import opened LandCoverTables
  import opened ClassWeighting
  import opened ExtentCheck

  /** The value the driver writes into missing cells of rainfall, slope and erosivity. */
  const FillValue: real := -999.9

  // ---------------------------------------------------------------------
  // Inputs and their unit conversions
  // ---------------------------------------------------------------------

  /** The maps read once at the start. */
  datatype StaticMaps = StaticMaps(
    slopeLength: Field, ldd: Field, cellArea: Field, slopeGradient: Field, selectedSlope: Field,
    rainAnnual: Field, sand: Field, silt: Field, clay: Field)

  predicate StaticOnClone(s: StaticMaps, n: nat)
  {
    && |s.slopeLength| == n && |s.ldd| == n && |s.cellArea| == n && |s.slopeGradient| == n
    && |s.selectedSlope| == n && |s.rainAnnual| == n && |s.sand| == n && |s.silt| == n && |s.clay| == n
  }

  /** `cover(x, -999.9)` */
  function Filled(c: Cell): (r: Cell)
    ensures r.Val? && (c.Val? ==> r == c) && (c == Missing ==> r == Val(FillValue))
  {
    Cover(c, FillValue)
  }

  /** A percentage turned into a fraction. */
  function Percent(c: Cell): (r: Cell)
    ensures r.Val? <==> c.Val?
    ensures c.Val? ==> r.value * 100.0 == c.value
  {
    Div(c, Lit(100.0))
  }

  /**
   * `load_input_initial`: the selected slope and the annual rain get the fill
   * value in missing cells; sand, silt and clay are read in percent.
   */
  function ConvertStatic(raw: StaticMaps): (r: StaticMaps)
    requires StaticOnClone(raw, |raw.slopeLength|)
    ensures StaticOnClone(r, |raw.slopeLength|)
  {
    raw.(selectedSlope := Map1(Filled, raw.selectedSlope),
         rainAnnual := Map1(Filled, raw.rainAnnual),
         sand := Map1(Percent, raw.sand),
         silt := Map1(Percent, raw.silt),
         clay := Map1(Percent, raw.clay))
  }

  /** The maps read for one month, before conversion. */
  datatype MonthlyMaps = MonthlyMaps(
    ndvi: Field, qSurface: Field, tavg: Field, tmax: Field, tmin: Field, rainMonth: Field, groundCover: Field)

  predicate MonthlyMapsOnClone(x: MonthlyMaps, n: nat)
  {
    && |x.ndvi| == n && |x.qSurface| == n && |x.tavg| == n && |x.tmax| == n && |x.tmin| == n
    && |x.rainMonth| == n && |x.groundCover| == n
  }

  /** One month's inputs in model units. */
  datatype MonthlyInputs = MonthlyInputs(
    ndvi: Field, qSurface: Field, tmax: Field, tmin: Field, rainMonth: Field, groundCover: Field)

  predicate MonthlyInputsOnClone(x: MonthlyInputs, n: nat)
  {
    && |x.ndvi| == n && |x.qSurface| == n && |x.tmax| == n && |x.tmin| == n
    && |x.rainMonth| == n && |x.groundCover| == n
  }

  /**
   * Half the daily range, from extremes stored in tenths of a degree: half
   * the stored difference in degrees, defined where both extremes are.
   */
  function HalfRange(tmax: Cell, tmin: Cell): (r: Cell)
    ensures r.Val? <==> tmax.Val? && tmin.Val?
    ensures r.Val? ==> r.value == (tmax.value - tmin.value) / 20.0
  {
    Div(Mul(Lit(0.5), Sub(tmax, tmin)), Lit(10.0))
  }

  /** The rebuilt maximum: a missing mean or extreme leaves it missing. */
  function MaxTemperature(tavg: Cell, tmax: Cell, tmin: Cell): (r: Cell)
    ensures r.Val? <==> tavg.Val? && tmax.Val? && tmin.Val?
  {
    Add(tavg, HalfRange(tmax, tmin))
  }

  /** The rebuilt minimum: a missing mean or extreme leaves it missing. */
  function MinTemperature(tavg: Cell, tmax: Cell, tmin: Cell): (r: Cell)
    ensures r.Val? <==> tavg.Val? && tmax.Val? && tmin.Val?
  {
    Sub(tavg, HalfRange(tmax, tmin))
  }

  /** `cover(a, b)` with a map as the replacement. */
  function CoverWith(a: Cell, b: Cell): (r: Cell)
    ensures a.Val? ==> r == a
    ensures a == Missing ==> r == b
  {
    if a.Val? then a else b
  }

  /** Runoff in m per month turned into mm per month. */
  function Millimetres(q: Cell): (r: Cell)
    ensures r.Val? <==> q.Val?
    ensures q.Val? ==> r.value == 1000.0 * q.value
  {
    Mul(q, Lit(1000.0))
  }

  /**
   * `load_input_dynamic`: the monthly rain gets the fill value; the extremes
   * are rebuilt around the mean temperature from half their range in tenths
   * of a degree; missing NDVI cells take the gap-fill map; runoff goes to mm.
   */
  function ConvertMonthly(raw: MonthlyMaps, ndviFill: Field): (r: MonthlyInputs)
    requires MonthlyMapsOnClone(raw, |ndviFill|)
    ensures MonthlyInputsOnClone(r, |ndviFill|)
  {
    MonthlyInputs(
      Map2(CoverWith, raw.ndvi, ndviFill),
      Map1(Millimetres, raw.qSurface),
      Map3(MaxTemperature, raw.tavg, raw.tmax, raw.tmin),
      Map3(MinTemperature, raw.tavg, raw.tmax, raw.tmin),
      Map1(Filled, raw.rainMonth),
      raw.groundCover)
  }

  /**
   * The rebuilt extremes differ by the stored range divided by 10, and their
   * midpoint is the mean temperature.
   */
  lemma TemperatureReconstruction(tavg: real, tmax: real, tmin: real)
    ensures MaxTemperature(Val(tavg), Val(tmax), Val(tmin)).Val? && MinTemperature(Val(tavg), Val(tmax), Val(tmin)).Val?
    ensures MaxTemperature(Val(tavg), Val(tmax), Val(tmin)).value - MinTemperature(Val(tavg), Val(tmax), Val(tmin)).value
      == (tmax - tmin) / 10.0
    ensures (MaxTemperature(Val(tavg), Val(tmax), Val(tmin)).value + MinTemperature(Val(tavg), Val(tmax), Val(tmin)).value) / 2.0
      == tavg
  {
    var h := 0.5 * (tmax - tmin) / 10.0;
    assert HalfRange(Val(tmax), Val(tmin)) == Val(h);
  }

  // ---------------------------------------------------------------------
  // Yearly factors (`setup_model`)
  // ---------------------------------------------------------------------

  /** The coefficient tables read from text files. */
  datatype Tables = Tables(manning: Table, pFactor: Table, interception: Table)

  datatype StaticFactors = StaticFactors(
    interception: Field, organicMatter: Field, ls: Field, kYear: Field, kSeasonal: Field,
    rYear: Field, pMonth: Field, manningN1: Field, manningN4: Field)

  predicate FactorsOnClone(f: StaticFactors, n: nat)
  {
    && |f.interception| == n && |f.organicMatter| == n && |f.ls| == n && |f.kYear| == n && |f.kSeasonal| == n
    && |f.rYear| == n && |f.pMonth| == n && |f.manningN1| == n && |f.manningN4| == n
  }

  /** Annual erosivity of the rain that passes the canopy, the fill value where it is missing. */
  function YearErosivity(m: Math, interception: Cell, rain: Cell): (r: Cell)
    ensures r.Val?
  {
    Filled(AnnualErosivity(m, Mul(Sub(Lit(1.0), interception), rain)))
  }

  /**
   * The yearly factors, or the KeyError of the first class a coefficient
   * table lacks: interception first, then the conservation factor, then
   * Manning's n of the vegetation.
   */
  function StaticFactorsOf(m: Math, s: StaticMaps, t: Tables, covers: seq<CoverClass>, n1Table: real -> Cell, n: nat)
    : (r: Result<StaticFactors, string>)
    requires StaticOnClone(s, n) && ClassesOnClone(covers, n)
    ensures r.Success? ==> FactorsOnClone(r.value, n)
  {
    match Interception(covers, t.interception, n)
    case Failure(e) => Failure(e)
    case Success(ic) =>
      var om := Const(Lit(1.0), n);
      var ls := Map2((l, g) => SlopeFactor(m, l, g), s.slopeLength, s.slopeGradient);
      var kYear := Map4((a, b, c, d) => DefaultSoilErodibility(m, a, b, c, d), s.sand, s.silt, s.clay, om);
      var kSeasonal := Map2(SeasonalClass, s.sand, s.clay);
      var rYear := Map2((a, b) => YearErosivity(m, a, b), ic, s.rainAnnual);
      match ClassWeighted(covers, CroplandSlope(t.pFactor, s.selectedSlope), n)
      case Failure(e) => Failure(e)
      case Success(p) =>
        var n1 := Map1(g => ManningN1(n1Table, g), s.slopeGradient);
        match ClassWeighted(covers, FromTable(t.manning), n)
        case Failure(e) => Failure(e)
        case Success(n4) => Success(StaticFactors(ic, om, ls, kYear, kSeasonal, rYear, p, n1, n4))
  }

  /**
   * With the cover classes named by the Manning table, Manning's n of the
   * vegetation never fails, so the yearly factors fail exactly when the
   * interception or the conservation table lacks a class.
   */
  lemma StaticFactorsFailure(m: Math, s: StaticMaps, t: Tables, covers: seq<CoverClass>, n1Table: real -> Cell, n: nat)
    requires StaticOnClone(s, n) && ClassesOnClone(covers, n)
    requires ClassNames(covers) == Names(t.manning)
    ensures StaticFactorsOf(m, s, t, covers, n1Table, n).Failure? <==>
      (exists k :: 0 <= k < |covers| && covers[k].name !in Names(t.interception)) ||
      (exists k :: 0 <= k < |covers| && covers[k].name != Croplands && covers[k].name !in Names(t.pFactor))
  {
    ListedClassesSucceed(covers, t.manning, n);
    ClassWeightedFailure(covers, FromTable(t.interception), n);
    ClassWeightedFailure(covers, CroplandSlope(t.pFactor, s.selectedSlope), n);
  }

  /**
   * The yearly erosivity is defined everywhere: the computed value where it
   * exists, the fill value elsewhere.
   */
  lemma YearErosivityEverywhere(m: Math, s: StaticMaps, t: Tables, covers: seq<CoverClass>, n1Table: real -> Cell, n: nat, i: nat)
    requires StaticOnClone(s, n) && ClassesOnClone(covers, n) && i < n
    requires StaticFactorsOf(m, s, t, covers, n1Table, n).Success?
    ensures var f := StaticFactorsOf(m, s, t, covers, n1Table, n).value;
      var e := AnnualErosivity(m, Mul(Sub(Lit(1.0), f.interception[i]), s.rainAnnual[i]));
      f.rYear[i].Val? && (e.Val? ==> f.rYear[i] == e) && (e == Missing ==> f.rYear[i] == Val(FillValue))
  {
  }

  /** The interception fraction lies in [0, 1] wherever it is defined. */
  lemma StaticInterceptionInUnit(m: Math, s: StaticMaps, t: Tables, covers: seq<CoverClass>, n1Table: real -> Cell, n: nat, i: nat)
    requires StaticOnClone(s, n) && ClassesOnClone(covers, n) && i < n
    requires StaticFactorsOf(m, s, t, covers, n1Table, n).Success?
    ensures var ic := StaticFactorsOf(m, s, t, covers, n1Table, n).value.interception[i];
      ic.Val? ==> 0.0 <= ic.value <= 1.0
  {
  }

  // ---------------------------------------------------------------------
  // Monthly factors (`dynamic`)
  // ---------------------------------------------------------------------

  datatype MonthlyFactors = MonthlyFactors(
    rMonth: Field, melt: Field, kMonth: Field, cMonth: Field, soilLoss: Field,
    manning: Field, hydroCoeff: Field, delRatio: Field, sedTrans: Field)

  predicate MonthlyOnClone(g: MonthlyFactors, n: nat)
  {
    && |g.rMonth| == n && |g.melt| == n && |g.kMonth| == n && |g.cMonth| == n && |g.soilLoss| == n
    && |g.manning| == n && |g.hydroCoeff| == n && |g.delRatio| == n && |g.sedTrans| == n
  }

  /**
   * The cover factor with the driver's fill value, -999.9, filling the
   * cells the formula leaves without data: the value the driver binds to
   * `mv` before every other `cover`.
   */
  function CoverFactor(m: Math, gc: Cell, rMonth: Cell, rYear: Cell): (r: Cell)
    ensures r.Val?
    ensures Div(rMonth, rYear) == Missing ==> r == Val(FillValue)
  {
    VegCoverFactor(m, gc, rMonth, rYear, FillValue)
  }

  /**
   * The names bound at the top level of the factors module: its imports and
   * the output directory (its functions aside). The fill value `mv` is not
   * among them; the driver binds it only as a local of its own methods.
   */
  const FactorsModuleNames: set<string> := {"pcr", "os", "outdname"}

  /** The exception a lookup of an unbound name raises. */
  datatype NameError = NameError(name: string)

  /** Looking a free name up the way a function body does: the module's own names only. */
  function ResolveFill(name: string, names: set<string>, value: real): (r: Result<real, NameError>)
    ensures r.Success? <==> name in names
    ensures r.Success? ==> r.value == value
    ensures r.Failure? ==> r.error == NameError(name)
  {
    if name in names then Success(value) else Failure(NameError(name))
  }

  /**
   * `compute_vegcover_factor2` as written: the first `cover(..., mv)` looks
   * `mv` up among the module's names, and the lookup fails.
   */
  function VegCoverAsWritten(m: Math, gc: Field, rMonth: Field, rYear: Field): Result<Field, NameError>
    requires |gc| == |rMonth| == |rYear|
  {
    match ResolveFill("mv", FactorsModuleNames, FillValue)
    case Failure(e) => Failure(e)
    case Success(fill) => Success(Map3((a, b, c) => VegCoverFactor(m, a, b, c, fill), gc, rMonth, rYear))
  }

  /** Every call of the function as written stops with a NameError, whatever the maps. */
  lemma VegCoverAsWrittenFails(m: Math, gc: Field, rMonth: Field, rYear: Field)
    requires |gc| == |rMonth| == |rYear|
    ensures VegCoverAsWritten(m, gc, rMonth, rYear) == Failure(NameError("mv"))
  {
    assert "mv" !in FactorsModuleNames;
  }

  function MeltFraction(tmin: Cell, tmax: Cell): Cell
  {
    MeltTimeFraction(tmin, tmax, DefaultMeltTemperature)
  }

  /**
   * The nine monthly factors in the driver's order, computed from the
   * month's inputs and the yearly factors alone.
   */
  function MonthlyFactorsOf(m: Math, s: StaticMaps, f: StaticFactors, x: MonthlyInputs, n: nat): (r: MonthlyFactors)
    requires StaticOnClone(s, n) && FactorsOnClone(f, n) && MonthlyInputsOnClone(x, n)
    ensures MonthlyOnClone(r, n)
  {
    var rMonth := Map3(PartitionErosivity, x.rainMonth, s.rainAnnual, f.rYear);
    var melt := Map2(MeltFraction, x.tmin, x.tmax);
    var kMonth := Map3(MonthlyErodibility, f.kYear, f.kSeasonal, melt);
    var cMonth := Map3((a, b, c) => CoverFactor(m, a, b, c), x.groundCover, rMonth, f.rYear);
    var soilLoss := Map6(SoilLoss, rMonth, kMonth, f.ls, cMonth, f.pMonth, s.cellArea);
    var manning := Map3(Manning, f.manningN1, f.manningN4, x.ndvi);
    var hydroCoeff := Map2(HydroCoeff, x.qSurface, x.rainMonth);
    var delRatio := Map4((a, b, c, d) => DeliveryRatio(m, a, b, c, d), hydroCoeff, s.slopeGradient, manning, s.slopeLength);
    var sedTrans := Map2(Erosion, soilLoss, delRatio);
    MonthlyFactors(rMonth, melt, kMonth, cMonth, soilLoss, manning, hydroCoeff, delRatio, sedTrans)
  }

  /**
   * Wherever the soil loss is defined and non-negative and the delivery
   * ratio is defined, the sediment delivered lies between 0 and the soil loss.
   */
  lemma SedimentAtMostSoilLoss(m: Math, s: StaticMaps, f: StaticFactors, x: MonthlyInputs, n: nat, i: nat)
    requires StaticOnClone(s, n) && FactorsOnClone(f, n) && MonthlyInputsOnClone(x, n) && i < n
    requires var g := MonthlyFactorsOf(m, s, f, x, n);
      g.soilLoss[i].Val? && g.soilLoss[i].value >= 0.0 && g.delRatio[i].Val?
    ensures var g := MonthlyFactorsOf(m, s, f, x, n);
      g.sedTrans[i].Val? && 0.0 <= g.sedTrans[i].value <= g.soilLoss[i].value
  {
    var g := MonthlyFactorsOf(m, s, f, x, n);
    ErosionAtMostSoilLoss(g.soilLoss[i].value, g.delRatio[i].value);
  }

  /** The hydrologic coefficient and the cover factor are defined everywhere, the coefficient in [0, 1]. */
  lemma MonthlyDefinedEverywhere(m: Math, s: StaticMaps, f: StaticFactors, x: MonthlyInputs, n: nat, i: nat)
    requires StaticOnClone(s, n) && FactorsOnClone(f, n) && MonthlyInputsOnClone(x, n) && i < n
    ensures var g := MonthlyFactorsOf(m, s, f, x, n);
      g.hydroCoeff[i].Val? && 0.0 <= g.hydroCoeff[i].value <= 1.0 && g.cMonth[i].Val?
  {
  }

  /**
   * Where there is no annual rain and the yearly erosivity is defined, the
   * monthly erosivity is 0, and so is the soil loss wherever the other
   * factors are defined.
   */
  lemma NoAnnualRainNoSoilLoss(m: Math, s: StaticMaps, f: StaticFactors, x: MonthlyInputs, n: nat, i: nat)
    requires StaticOnClone(s, n) && FactorsOnClone(f, n) && MonthlyInputsOnClone(x, n) && i < n
    requires s.rainAnnual[i].Val? && s.rainAnnual[i].value <= 0.0 && f.rYear[i].Val?
    ensures var g := MonthlyFactorsOf(m, s, f, x, n); g.rMonth[i] == Val(0.0)
    ensures var g := MonthlyFactorsOf(m, s, f, x, n);
      g.kMonth[i].Val? && f.ls[i].Val? && f.pMonth[i].Val? && s.cellArea[i].Val? ==> g.soilLoss[i] == Val(0.0)
  {
    var g := MonthlyFactorsOf(m, s, f, x, n);
    if g.kMonth[i].Val? && f.ls[i].Val? && f.pMonth[i].Val? && s.cellArea[i].Val? {
      SoilLossWithoutErosivity(g.kMonth[i].value, f.ls[i].value, g.cMonth[i].value, f.pMonth[i].value, s.cellArea[i].value);
    }
  }

  // ---------------------------------------------------------------------
  // The attributes the extent check walks
  // ---------------------------------------------------------------------

  /** A map attribute of the model: its name and where it has a value. */
  datatype Attribute = Attribute(name: string, defined: seq<bool>)

  function Defined(f: Field): (r: seq<bool>)
    ensures |r| == |f| && forall i :: 0 <= i < |f| ==> (r[i] <==> f[i].Val?)
  {
    seq(|f|, i requires 0 <= i < |f| => f[i].Val?)
  }

  function MaskDefined(mask: Mask): (r: seq<bool>)
    ensures |r| == |mask| && forall i :: 0 <= i < |mask| ==> (r[i] <==> mask[i].Some?)
  {
    seq(|mask|, i requires 0 <= i < |mask| => mask[i].Some?)
  }

  function Patterns(attrs: seq<Attribute>): (r: seq<seq<bool>>)
    ensures |r| == |attrs| && forall k :: 0 <= k < |attrs| ==> r[k] == attrs[k].defined
  {
    seq(|attrs|, k requires 0 <= k < |attrs| => attrs[k].defined)
  }

  /** The map attributes after `setup_model`, in the alphabetical order the object lists them. */
  function StaticRegistry(mask: Mask, s: StaticMaps, f: StaticFactors): (r: seq<Attribute>)
    ensures |r| == 19
  {
    [ Attribute("CellArea", Defined(s.cellArea)),
      Attribute("K_year", Defined(f.kYear)),
      Attribute("LDD", Defined(s.ldd)),
      Attribute("LS", Defined(f.ls)),
      Attribute("Manning_n1", Defined(f.manningN1)),
      Attribute("Manning_n4", Defined(f.manningN4)),
      Attribute("P_month", Defined(f.pMonth)),
      Attribute("R_year", Defined(f.rYear)),
      Attribute("clone_mask", MaskDefined(mask)),
      Attribute("interception_fraction", Defined(f.interception)),
      Attribute("kfact_seasonal", Defined(f.kSeasonal)),
      Attribute("mass_fraction_clay", Defined(s.clay)),
      Attribute("mass_fraction_sand", Defined(s.sand)),
      Attribute("mass_fraction_silt", Defined(s.silt)),
      Attribute("organic_matter_content", Defined(f.organicMatter)),
      Attribute("rain_annual", Defined(s.rainAnnual)),
      Attribute("selected_slope", Defined(s.selectedSlope)),
      Attribute("slope_gradient", Defined(s.slopeGradient)),
      Attribute("slope_length", Defined(s.slopeLength)) ]
  }

  /** The attributes' patterns lie on the mask's clone. */
  predicate RegistryOnMask(mask: Mask, attrs: seq<Attribute>)
  {
    forall k :: 0 <= k < |attrs| ==> |attrs[k].defined| == |mask|
  }

  /** The extent check after `setup_model` stops the run. */
  predicate StaticCheckAborts(tests: bool, mask: Mask, s: StaticMaps, f: StaticFactors)
    requires StaticOnClone(s, |mask|) && FactorsOnClone(f, |mask|)
  {
    var attrs := StaticRegistry(mask, s, f);
    assert RegistryOnMask(mask, attrs);
    Aborts(tests, mask, Patterns(attrs))
  }

  /** The map attributes after a monthly step, in the alphabetical order the object lists them. */
  function FullRegistry(mask: Mask, s: StaticMaps, f: StaticFactors, x: MonthlyInputs, g: MonthlyFactors)
    : (r: seq<Attribute>)
    ensures |r| == 34
  {
    [ Attribute("C_month", Defined(g.cMonth)),
      Attribute("CellArea", Defined(s.cellArea)),
      Attribute("DelRatio", Defined(g.delRatio)),
      Attribute("HydroCff", Defined(g.hydroCoeff)),
      Attribute("K_month", Defined(g.kMonth)),
      Attribute("K_year", Defined(f.kYear)),
      Attribute("LDD", Defined(s.ldd)),
      Attribute("LS", Defined(f.ls)),
      Attribute("Manning", Defined(g.manning)),
      Attribute("Manning_n1", Defined(f.manningN1)),
      Attribute("Manning_n4", Defined(f.manningN4)),
      Attribute("P_month", Defined(f.pMonth)),
      Attribute("Qsurface", Defined(x.qSurface)),
      Attribute("R_month", Defined(g.rMonth)),
      Attribute("R_year", Defined(f.rYear)),
      Attribute("SedTrans", Defined(g.sedTrans)),
      Attribute("SoilLoss", Defined(g.soilLoss)),
      Attribute("clone_mask", MaskDefined(mask)),
      Attribute("ground_cover_fraction", Defined(x.groundCover)),
      Attribute("interception_fraction", Defined(f.interception)),
      Attribute("kfact_seasonal", Defined(f.kSeasonal)),
      Attribute("mass_fraction_clay", Defined(s.clay)),
      Attribute("mass_fraction_sand", Defined(s.sand)),
      Attribute("mass_fraction_silt", Defined(s.silt)),
      Attribute("melt_time_fraction", Defined(g.melt)),
      Attribute("ndvi", Defined(x.ndvi)),
      Attribute("organic_matter_content", Defined(f.organicMatter)),
      Attribute("rain_annual", Defined(s.rainAnnual)),
      Attribute("rain_month", Defined(x.rainMonth)),
      Attribute("selected_slope", Defined(s.selectedSlope)),
      Attribute("slope_gradient", Defined(s.slopeGradient)),
      Attribute("slope_length", Defined(s.slopeLength)),
      Attribute("tmax", Defined(x.tmax)),
      Attribute("tmin", Defined(x.tmin)) ]
  }

  /** The extent check after a monthly step stops the run. */
  predicate FullCheckAborts(tests: bool, mask: Mask, s: StaticMaps, f: StaticFactors, x: MonthlyInputs, g: MonthlyFactors)
    requires StaticOnClone(s, |mask|) && FactorsOnClone(f, |mask|)
    requires MonthlyInputsOnClone(x, |mask|) && MonthlyOnClone(g, |mask|)
  {
    var attrs := FullRegistry(mask, s, f, x, g);
    assert RegistryOnMask(mask, attrs);
    Aborts(tests, mask, Patterns(attrs))
  }

  /**
   * With testing on, a yearly erodibility cell missing inside the mask
   * stops the run; with testing off nothing does.
   */
  lemma StaticCheckCatchesGap(mask: Mask, s: StaticMaps, f: StaticFactors, i: nat)
    requires StaticOnClone(s, |mask|) && FactorsOnClone(f, |mask|)
    requires i < |mask| && InMask(mask, i) && f.kYear[i] == Missing
    ensures StaticCheckAborts(true, mask, s, f)
    ensures !StaticCheckAborts(false, mask, s, f)
  {
    var defs := Patterns(StaticRegistry(mask, s, f));
    assert defs[1] == Defined(f.kYear);
    assert !defs[1][i];
  }

  /**
   * With testing on, a soil-loss cell missing inside the mask after a
   * monthly step stops the run; with testing off nothing does.
   */
  lemma FullCheckCatchesGap(mask: Mask, s: StaticMaps, f: StaticFactors, x: MonthlyInputs, g: MonthlyFactors, i: nat)
    requires StaticOnClone(s, |mask|) && FactorsOnClone(f, |mask|)
    requires MonthlyInputsOnClone(x, |mask|) && MonthlyOnClone(g, |mask|)
    requires i < |mask| && InMask(mask, i) && g.soilLoss[i] == Missing
    ensures FullCheckAborts(true, mask, s, f, x, g)
    ensures !FullCheckAborts(false, mask, s, f, x, g)
  {
    var defs := Patterns(FullRegistry(mask, s, f, x, g));
    assert defs[16] == Defined(g.soilLoss);
    assert !defs[16][i];
  }

  // ---------------------------------------------------------------------
  // Writing factor maps (`report_yearly_result`, `report_monthly_result`)
  // ---------------------------------------------------------------------

  /** The longest name a map file may carry. */
  const MaxNameLength: nat := 8

  datatype WriteOutcome = NotRequested | NameTooLong | Written

  /** A factor is written when reports are requested and its name fits; a longer name only draws a warning. */
  function WriteOutcomeOf(name: string, requested: bool): (r: WriteOutcome)
    ensures r == Written <==> requested && |name| <= MaxNameLength
    ensures r == NameTooLong <==> requested && |name| > MaxNameLength
  {
    if !requested then NotRequested
    else if |name| > MaxNameLength then NameTooLong
    else Written
  }

  function WriteOutcomes(names: seq<string>, requested: bool): (r: seq<WriteOutcome>)
    ensures |r| == |names| && forall k :: 0 <= k < |names| ==> r[k] == WriteOutcomeOf(names[k], requested)
  {
    seq(|names|, k requires 0 <= k < |names| => WriteOutcomeOf(names[k], requested))
  }

  /** The factors written once a year and every month. */
  const YearlyNames: seq<string> := ["LS", "K_year", "R_year"]
  const MonthlyNames: seq<string> :=
    ["R_month", "K_month", "C_month", "P_month", "SoilLoss", "Manning", "HydroCff", "DelRatio", "SedTrans"]

  /** Every factor the driver reports has a short enough name, so all of them are written. */
  lemma DriverNamesFit()
    ensures forall k :: 0 <= k < |YearlyNames| ==> WriteOutcomeOf(YearlyNames[k], true) == Written
    ensures forall k :: 0 <= k < |MonthlyNames| ==> WriteOutcomeOf(MonthlyNames[k], true) == Written
  {
  }
}
