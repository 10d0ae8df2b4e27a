/**
 * The RUSLE production model as an object: `initial` configures it, loads
 * the static inputs and computes the yearly factors; `dynamic` then runs
 * once per month, overwriting the month's inputs and factors.
 */
module SedimentProduction {
  import opened Wrappers
  import opened FieldAlgebra
  import opened Factors
  import opened LandCoverTables
  import opened ClassWeighting
  import opened LandCoverInput
  import opened ModelClock
  import opened ExtentCheck
  import opened ModelPipeline

  /** Why a run stops. */
  datatype RunError =
    | TableError(file: string, error: LoadError)  // a coefficient table that cannot be read
    | KeyError(name: string)                      // a cover class a coefficient table lacks
    | DateError(message: string)                  // a month the calendar rejects
    | MissingValues(written: seq<WriteOutcome>)   // the extent check found a gap inside the mask, after the reports

  const ManningFile: string := "Landcover_n4.txt"
  const PFactorFile: string := "P_factor.txt"
  const InterceptionFile: string := "part_interception.txt"

  /** The three coefficient tables, or the error of the first that cannot be read. */
  function TablesOf(manningRows: seq<Row>, pRows: seq<Row>, interceptionRows: seq<Row>, toFloat: string -> Option<real>)
    : (r: Result<Tables, RunError>)
    ensures r.Success? ==> DistinctNames(r.value.manning)
  {
    match TableOf(manningRows, toFloat)
    case Failure(e) => Failure(TableError(ManningFile, e))
    case Success(mt) =>
      match TableOf(pRows, toFloat)
      case Failure(e) => Failure(TableError(PFactorFile, e))
      case Success(pt) =>
        match TableOf(interceptionRows, toFloat)
        case Failure(e) => Failure(TableError(InterceptionFile, e))
        case Success(it) => Success(Tables(mt, pt, it))
  }

  /**
   * The factor computations of `setup_model`, in the source's order: the
   * interception fraction, the slope and erodibility factors, the yearly
   * erosivity, the P factor and the two Manning terms.
   */
  method YearlyFactors(m: Math, s: StaticMaps, t: Tables, covers: seq<CoverClass>, n1Table: real -> Cell, n: nat)
    returns (r: Result<StaticFactors, string>)
    requires StaticOnClone(s, n) && ClassesOnClone(covers, n)
    ensures r == StaticFactorsOf(m, s, t, covers, n1Table, n)
  {
    var ic := InterceptionFraction(covers, t.interception, n);
    if ic.Failure? {
      return Failure(ic.error);
    }
    var om := Const(Lit(1.0), n);
    var ls := Map2((l, g) => SlopeFactor(m, l, g), s.slopeLength, s.slopeGradient);
    var kYear := Map4((a, b, c, d) => DefaultSoilErodibility(m, a, b, c, d), s.sand, s.silt, s.clay, om);
    var kSeasonal := SeasonalityRatio(s.sand, s.silt, s.clay);
    assert kSeasonal == Map2(SeasonalClass, s.sand, s.clay);
    var rYear := Map2((a, b) => AnnualErosivity(m, Mul(Sub(Lit(1.0), a), b)), ic.value, s.rainAnnual);
    rYear := Map1(Filled, rYear);
    assert rYear == Map2((a, b) => YearErosivity(m, a, b), ic.value, s.rainAnnual);
    var p := ConservationFactor(covers, t.pFactor, s.selectedSlope, n);
    if p.Failure? {
      return Failure(p.error);
    }
    var n1 := Map1(g => ManningN1(n1Table, g), s.slopeGradient);
    var n4 := ManningN4(covers, t.manning, n);
    if n4.Failure? {
      return Failure(n4.error);
    }
    return Success(StaticFactors(ic.value, om, ls, kYear, kSeasonal, rYear, p.value, n1, n4.value));
  }

  /** The factor computations of `dynamic`, in the source's order. */
  method MonthlyStep(m: Math, s: StaticMaps, f: StaticFactors, x: MonthlyInputs, n: nat) returns (g: MonthlyFactors)
    requires StaticOnClone(s, n) && FactorsOnClone(f, n) && MonthlyInputsOnClone(x, n)
    ensures g == MonthlyFactorsOf(m, s, f, x, n)
  {
    var rMonth := Map3(PartitionErosivity, x.rainMonth, s.rainAnnual, f.rYear);
    var melt := Map2(MeltFraction, x.tmin, x.tmax);
    var kMonth := Map3(MonthlyErodibility, f.kYear, f.kSeasonal, melt);
    var cMonth := Map3((a, b, c) => CoverFactor(m, a, b, c), x.groundCover, rMonth, f.rYear);
    var soilLoss := Map6(SoilLoss, rMonth, kMonth, f.ls, cMonth, f.pMonth, s.cellArea);
    var manning := Map3(Manning, f.manningN1, f.manningN4, x.ndvi);
    var hydroCoeff := Map2(HydroCoeff, x.qSurface, x.rainMonth);
    var delRatio := Map4((a, b, c, e) => DeliveryRatio(m, a, b, c, e), hydroCoeff, s.slopeGradient, manning, s.slopeLength);
    var sedTrans := Map2(Erosion, soilLoss, delRatio);
    return MonthlyFactors(rMonth, melt, kMonth, cMonth, soilLoss, manning, hydroCoeff, delRatio, sedTrans);
  }

  /** The extent check of `setup_model`: whether it stops the run. */
  method StaticExtentCheck(tests: bool, mask: Mask, s: StaticMaps, f: StaticFactors) returns (abort: bool)
    requires StaticOnClone(s, |mask|) && FactorsOnClone(f, |mask|)
    ensures abort == StaticCheckAborts(tests, mask, s, f)
  {
    var attrs := StaticRegistry(mask, s, f);
    assert RegistryOnMask(mask, attrs);
    var rep := CheckExtent(tests, mask, Patterns(attrs));
    abort := rep.Checked? && rep.abort;
  }

  /** The extent check of `dynamic`, over every map attribute: whether it stops the run. */
  method FullExtentCheck(tests: bool, mask: Mask, s: StaticMaps, f: StaticFactors, x: MonthlyInputs, g: MonthlyFactors)
    returns (abort: bool)
    requires StaticOnClone(s, |mask|) && FactorsOnClone(f, |mask|)
    requires MonthlyInputsOnClone(x, |mask|) && MonthlyOnClone(g, |mask|)
    ensures abort == FullCheckAborts(tests, mask, s, f, x, g)
  {
    var attrs := FullRegistry(mask, s, f, x, g);
    assert RegistryOnMask(mask, attrs);
    var rep := CheckExtent(tests, mask, Patterns(attrs));
    abort := rep.Checked? && rep.abort;
  }

  class Rusle {
    /** The transcendental operators of the field library. */
    const math: Math
    /** The clone: one entry per cell, `Some(true)` inside the study area. */
    const cloneMask: Mask
    const startYear: int
    const startMonth: int

    // configuration (`config_model`)
    var tests: bool
    var yearlyReports: bool
    var monthlyReports: bool

    // static inputs (`load_input_initial`)
    var maps: Option<StaticMaps>
    var tables: Option<Tables>
    var covers: seq<CoverClass>
    var n1Table: real -> Cell

    // yearly factors (`setup_model`)
    var statics: Option<StaticFactors>

    // the current month (`dynamic`)
    var currentDate: Option<Date>
    var inputs: Option<MonthlyInputs>
    var monthly: Option<MonthlyFactors>

    /** The number of cells of the clone. */
    function N(): nat
    {
      |cloneMask|
    }

    /** The static inputs are read, on the clone, and the cover classes are the Manning table's classes. */
    predicate Loaded()
      reads this`maps, this`tables, this`covers
    {
      && ValidStart(startYear, startMonth)
      && maps.Some? && StaticOnClone(maps.value, N())
      && tables.Some? && ClassesOnClone(covers, N())
      && ClassNames(covers) == Names(tables.value.manning)
    }

    /** The yearly factors are computed as well. */
    predicate Ready()
      reads this`maps, this`tables, this`covers, this`statics
    {
      Loaded() && statics.Some? && FactorsOnClone(statics.value, N())
    }

    /** `__init__` followed by `config_model`: testing and all reports on, nothing read yet. */
    constructor(math: Math, cloneMask: Mask, startYear: int, startMonth: int)
      requires ValidStart(startYear, startMonth)
      ensures this.math == math && this.cloneMask == cloneMask
      ensures this.startYear == startYear && this.startMonth == startMonth
      ensures tests && yearlyReports && monthlyReports
      ensures maps.None? && tables.None? && statics.None? && currentDate.None? && inputs.None? && monthly.None?
    {
      this.math := math;
      this.cloneMask := cloneMask;
      this.startYear := startYear;
      this.startMonth := startMonth;
      tests := true;
      yearlyReports := true;
      monthlyReports := true;
      maps := None;
      tables := None;
      covers := [];
      n1Table := x => Missing;
      statics := None;
      currentDate := None;
      inputs := None;
      monthly := None;
    }

    /**
     * `load_input_initial`: the static maps in model units, the three
     * coefficient tables, and one normalised cover map per class of the
     * Manning table.
     */
    method LoadInputInitial(raw: StaticMaps, manningRows: seq<Row>, pRows: seq<Row>, interceptionRows: seq<Row>,
                            toFloat: string -> Option<real>, readMap: string -> Field, n1: real -> Cell)
      returns (r: Result<(), RunError>)
      requires ValidStart(startYear, startMonth) && StaticOnClone(raw, N())
      requires forall name :: |readMap(name)| == N()
      modifies this`maps, this`tables, this`covers, this`n1Table
      ensures TablesOf(manningRows, pRows, interceptionRows, toFloat).Failure? ==>
        r == Failure(TablesOf(manningRows, pRows, interceptionRows, toFloat).error) && unchanged(this)
      ensures TablesOf(manningRows, pRows, interceptionRows, toFloat).Success? ==>
        && r == Success(())
        && maps == Some(ConvertStatic(raw))
        && tables == Some(TablesOf(manningRows, pRows, interceptionRows, toFloat).value)
        && covers == Normalise(RawCovers(Names(tables.value.manning), readMap), N())
        && n1Table == n1
        && Loaded()
    {
      var mt := LoadLandCoverData(manningRows, toFloat);
      if mt.Failure? {
        return Failure(TableError(ManningFile, mt.error));
      }
      var pt := LoadLandCoverData(pRows, toFloat);
      if pt.Failure? {
        return Failure(TableError(PFactorFile, pt.error));
      }
      var it := LoadLandCoverData(interceptionRows, toFloat);
      if it.Failure? {
        return Failure(TableError(InterceptionFile, it.error));
      }
      var mapnames := Names(mt.value);
      var cs := LoadLandCoverMaps(mapnames, readMap, N());
      NormalisedNames(mapnames, readMap, N());
      maps := Some(ConvertStatic(raw));
      tables := Some(Tables(mt.value, pt.value, it.value));
      covers := cs;
      n1Table := n1;
      return Success(());
    }

    /**
     * `setup_model`: the yearly factors in the source's order, a KeyError
     * for a class a table lacks; then the yearly reports and the extent
     * check over the map attributes.
     */
    method SetupModel() returns (r: Result<seq<WriteOutcome>, RunError>)
      requires Loaded()
      modifies this`statics
      ensures Loaded()
      ensures var sf := StaticFactorsOf(math, maps.value, tables.value, covers, n1Table, N());
        sf.Failure? ==> r == Failure(KeyError(sf.error)) && statics == old(statics)
      ensures var sf := StaticFactorsOf(math, maps.value, tables.value, covers, n1Table, N());
        sf.Success? ==>
          && statics == Some(sf.value)
          && Ready()
          && r == if StaticCheckAborts(tests, cloneMask, maps.value, sf.value)
                  then Failure(MissingValues(WriteOutcomes(YearlyNames, yearlyReports)))
                  else Success(WriteOutcomes(YearlyNames, yearlyReports))
    {
      var sf := YearlyFactors(math, maps.value, tables.value, covers, n1Table, N());
      if sf.Failure? {
        return Failure(KeyError(sf.error));
      }
      statics := Some(sf.value);
      var outcomes := WriteOutcomes(YearlyNames, yearlyReports);
      var abort := StaticExtentCheck(tests, cloneMask, maps.value, sf.value);
      if abort {
        return Failure(MissingValues(outcomes));
      }
      return Success(outcomes);
    }

    /** `calc_currentdate` */
    method CalcCurrentDate(step: nat) returns (r: Result<Date, string>)
      requires ValidStart(startYear, startMonth) && step >= 1
      modifies this`currentDate
      ensures r == CurrentDate(startYear, startMonth, step)
      ensures r.Success? ==> currentDate == Some(r.value)
      ensures r.Failure? ==> currentDate == old(currentDate)
    {
      var year := startYear;
      var month := startMonth + step - 1;
      if month > 12 {
        month := month - 12;
        year := year + 1;
      }
      if year > MaxYear {
        return Failure(YearOutOfRange);
      }
      if month > 12 {
        return Failure(MonthOutOfRange);
      }
      currentDate := Some(Date(year, month, 1));
      return Success(Date(year, month, 1));
    }

    /** `load_input_dynamic` */
    method LoadInputDynamic(raw: MonthlyMaps, ndviFill: Field)
      requires MonthlyMapsOnClone(raw, N()) && |ndviFill| == N()
      modifies this`inputs
      ensures inputs == Some(ConvertMonthly(raw, ndviFill))
    {
      inputs := Some(ConvertMonthly(raw, ndviFill));
    }

    /**
     * `dynamic` for time step `step` (from 1): the date, the month's inputs,
     * then the nine monthly factors in order, the monthly reports and the
     * extent check over all map attributes. Nothing of an earlier month is
     * used.
     */
    method Dynamic(step: nat, raw: MonthlyMaps, ndviFill: Field) returns (r: Result<seq<WriteOutcome>, RunError>)
      requires Ready() && step >= 1 && MonthlyMapsOnClone(raw, N()) && |ndviFill| == N()
      modifies this`currentDate, this`inputs, this`monthly
      ensures Ready()
      ensures var d := CurrentDate(startYear, startMonth, step);
        d.Failure? ==> (r == Failure(DateError(d.error)) && currentDate == old(currentDate) &&
          inputs == old(inputs) && monthly == old(monthly))
      ensures var d := CurrentDate(startYear, startMonth, step);
        d.Success? ==>
          && currentDate == Some(d.value)
          && inputs == Some(ConvertMonthly(raw, ndviFill))
          && monthly == Some(MonthlyFactorsOf(math, maps.value, statics.value, inputs.value, N()))
          && r == if FullCheckAborts(tests, cloneMask, maps.value, statics.value, inputs.value, monthly.value)
                  then Failure(MissingValues(WriteOutcomes(MonthlyNames, monthlyReports)))
                  else Success(WriteOutcomes(MonthlyNames, monthlyReports))
    {
      var d := CalcCurrentDate(step);
      if d.Failure? {
        return Failure(DateError(d.error));
      }
      LoadInputDynamic(raw, ndviFill);
      var g := MonthlyStep(math, maps.value, statics.value, inputs.value, N());
      monthly := Some(g);
      var outcomes := WriteOutcomes(MonthlyNames, monthlyReports);
      var abort := FullExtentCheck(tests, cloneMask, maps.value, statics.value, inputs.value, g);
      if abort {
        return Failure(MissingValues(outcomes));
      }
      return Success(outcomes);
    }
  }
}
