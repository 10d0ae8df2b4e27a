/**
 * Reading the land-cover inputs of the production model: the two-column
 * tab-separated coefficient tables and the per-class cover-fraction maps,
 * which are rescaled so that the classes of every covered cell sum to one.
 */
module LandCoverInput {
  import opened Wrappers
  import opened FieldAlgebra
  import opened LandCoverTables

  /** One record delivered by the tab-separated reader: its columns, or a record the reader rejects. */
  datatype Row = Columns(cols: seq<string>) | Malformed

  /** Why reading a table stops, with the 1-based number of the offending record. */
  datatype LoadError =
    | CsvError(line: nat)    // the reader rejects the record; the run exits naming the line
    | IndexError(line: nat)  // a record with fewer than two columns (an empty line has none)
    | ValueError(line: nat)  // a second column that is not a number

  /**
   * What one record does: the entry it stores, or the error it raises. The
   * value `float(row[1])` is evaluated before the key `row[0]`, so a short
   * record fails on its second column.
   */
  function RowEntry(row: Row, line: nat, toFloat: string -> Option<real>): (r: Result<Entry, LoadError>)
    ensures r.Success? <==> row.Columns? && |row.cols| >= 2 && toFloat(row.cols[1]).Some?
    ensures r.Success? ==> r.value == Entry(row.cols[0], toFloat(row.cols[1]).value)
  {
    match row
    case Malformed => Failure(CsvError(line))
    case Columns(cols) =>
      if |cols| < 2 then Failure(IndexError(line))
      else
        match toFloat(cols[1])
        case None => Failure(ValueError(line))
        case Some(v) => Success(Entry(cols[0], v))
  }

  /** The table after storing the records in order; the first bad record stops the reading. */
  function TableOf(rows: seq<Row>, toFloat: string -> Option<real>): (r: Result<Table, LoadError>)
    ensures r.Success? ==> DistinctNames(r.value)
  {
    if |rows| == 0 then Success([])
    else
      match TableOf(rows[..|rows| - 1], toFloat)
      case Failure(e) => Failure(e)
      case Success(t) =>
        match RowEntry(rows[|rows| - 1], |rows|, toFloat)
        case Failure(e) => Failure(e)
        case Success(en) => Success(Put(t, en.name, en.value))
  }

  /**
   * Reference reading of a table: the value of `name` is the one on the last
   * record that names it.
   */
  function LastValue(rows: seq<Row>, name: string, toFloat: string -> Option<real>): Option<real>
  {
    if |rows| == 0 then None
    else
      var e := RowEntry(rows[|rows| - 1], |rows|, toFloat);
      if e.Success? && e.value.name == name then Some(e.value.value)
      else LastValue(rows[..|rows| - 1], name, toFloat)
  }

  /** `load_landcoverdata`: reads the records one by one into a dictionary. */
  method LoadLandCoverData(rows: seq<Row>, toFloat: string -> Option<real>) returns (r: Result<Table, LoadError>)
    ensures r == TableOf(rows, toFloat)
  {
    var data: Table := [];
    var k := 0;
    while k < |rows|
      invariant 0 <= k <= |rows|
      invariant TableOf(rows[..k], toFloat) == Success(data)
    {
      var row := rows[k];
      assert rows[..k + 1][..k] == rows[..k];
      if row.Malformed? {
        FailurePersists(rows, k + 1, toFloat);
        return Failure(CsvError(k + 1));
      }
      if |row.cols| < 2 {
        FailurePersists(rows, k + 1, toFloat);
        return Failure(IndexError(k + 1));
      }
      var v := toFloat(row.cols[1]);
      if v.None? {
        FailurePersists(rows, k + 1, toFloat);
        return Failure(ValueError(k + 1));
      }
      data := Put(data, row.cols[0], v.value);
      k := k + 1;
    }
    assert rows[..k] == rows;
    return Success(data);
  }

  /** Once a prefix of the records fails, the whole reading fails the same way. */
  lemma {:induction false} FailurePersists(rows: seq<Row>, k: nat, toFloat: string -> Option<real>)
    requires k <= |rows| && TableOf(rows[..k], toFloat).Failure?
    ensures TableOf(rows, toFloat) == TableOf(rows[..k], toFloat)
  {
    if k == |rows| {
      assert rows[..k] == rows;
    } else {
      var m := |rows| - 1;
      assert rows[..m][..k] == rows[..k];
      FailurePersists(rows[..m], k, toFloat);
    }
  }

  /** One more record: the reading succeeds when the shorter one does and the record is good. */
  lemma TableOfStep(rows: seq<Row>, toFloat: string -> Option<real>)
    requires |rows| > 0
    ensures TableOf(rows, toFloat).Success? <==>
      TableOf(rows[..|rows| - 1], toFloat).Success? && RowEntry(rows[|rows| - 1], |rows|, toFloat).Success?
  {
    match TableOf(rows[..|rows| - 1], toFloat)
    case Failure(_) =>
    case Success(_) =>
  }

  /** Reading succeeds exactly when every record has two columns and a numeric second column. */
  lemma {:induction false} TableOfSucceeds(rows: seq<Row>, toFloat: string -> Option<real>)
    ensures TableOf(rows, toFloat).Success? <==>
      forall k :: 0 <= k < |rows| ==> RowEntry(rows[k], k + 1, toFloat).Success?
  {
    if |rows| > 0 {
      var m := |rows| - 1;
      var pre := rows[..m];
      TableOfSucceeds(pre, toFloat);
      var last := RowEntry(rows[m], m + 1, toFloat);
      TableOfStep(rows, toFloat);
      if TableOf(rows, toFloat).Success? {
        forall k | 0 <= k < |rows| ensures RowEntry(rows[k], k + 1, toFloat).Success? {
          if k < m {
            assert pre[k] == rows[k];
          }
        }
      } else if TableOf(pre, toFloat).Success? {
        assert !last.Success?;
      } else {
        var k :| 0 <= k < m && !RowEntry(pre[k], k + 1, toFloat).Success?;
        assert pre[k] == rows[k];
      }
    }
  }

  /** A failed reading reports the first bad record. */
  lemma {:induction false} TableOfFailure(rows: seq<Row>, toFloat: string -> Option<real>)
    requires TableOf(rows, toFloat).Failure?
    ensures exists k :: (0 <= k < |rows| && (forall j :: 0 <= j < k ==> RowEntry(rows[j], j + 1, toFloat).Success?) &&
      RowEntry(rows[k], k + 1, toFloat) == Failure(TableOf(rows, toFloat).error))
  {
    var m := |rows| - 1;
    assert forall k :: 0 <= k < m ==> rows[..m][k] == rows[k];
    if TableOf(rows[..m], toFloat).Failure? {
      TableOfFailure(rows[..m], toFloat);
    } else {
      TableOfSucceeds(rows[..m], toFloat);
    }
  }

  /** A later record for the same class overwrites an earlier one. */
  lemma {:induction false} LastRecordWins(rows: seq<Row>, name: string, toFloat: string -> Option<real>)
    requires TableOf(rows, toFloat).Success?
    ensures Lookup(TableOf(rows, toFloat).value, name) == LastValue(rows, name, toFloat)
  {
    if |rows| > 0 {
      LastRecordWins(rows[..|rows| - 1], name, toFloat);
    }
  }

  // ---------------------------------------------------------------------
  // Cover-fraction maps
  // ---------------------------------------------------------------------

  /** Cells whose total cover does not exceed this are left without data. */
  const CoverThreshold: real := 0.000000000001

  /** The classes named, each with the map read for it. */
  function RawCovers(names: seq<string>, readMap: string -> Field): (r: seq<CoverClass>)
    ensures |r| == |names| && forall k :: 0 <= k < |names| ==> r[k] == CoverClass(names[k], readMap(names[k]))
  {
    seq(|names|, k requires 0 <= k < |names| => CoverClass(names[k], readMap(names[k])))
  }

  /** One class's fraction at one cell, given the total over the classes. */
  function NormaliseCell(f: Cell, total: Cell): (r: Cell)
    ensures r.Val? <==> f.Val? && total.Val? && total.value > CoverThreshold
  {
    Where(Less(Lit(CoverThreshold), total), Div(f, Max(Lit(CoverThreshold), total)))
  }

  function Normalise(raw: seq<CoverClass>, n: nat): (r: seq<CoverClass>)
    requires ClassesOnClone(raw, n)
    ensures |r| == |raw| && ClassesOnClone(r, n)
    ensures forall k :: 0 <= k < |raw| ==> r[k].name == raw[k].name
  {
    var total := Total(Fractions(raw), n);
    seq(|raw|, k requires 0 <= k < |raw| => CoverClass(raw[k].name, Map2(NormaliseCell, raw[k].fraction, total)))
  }

  /**
   * `load_landcovermaps`: reads one map per class (the names are the keys
   * of a dictionary, so they are distinct) while summing the total, then
   * divides every class by the total where it exceeds the threshold.
   */
  method LoadLandCoverMaps(names: seq<string>, readMap: string -> Field, n: nat) returns (covers: seq<CoverClass>)
    requires forall j, k :: 0 <= j < k < |names| ==> names[j] != names[k]
    requires forall k :: 0 <= k < |names| ==> |readMap(names[k])| == n
    ensures covers == Normalise(RawCovers(names, readMap), n)
  {
    var raw, total := ReadCoverMaps(names, readMap, n);
    covers := DivideByTotal(raw, total, n);
  }

  /** The first loop of `load_landcovermaps`: each class's map read, and their cell-wise sum. */
  method ReadCoverMaps(names: seq<string>, readMap: string -> Field, n: nat) returns (raw: seq<CoverClass>, total: Field)
    requires forall k :: 0 <= k < |names| ==> |readMap(names[k])| == n
    ensures raw == RawCovers(names, readMap) && ClassesOnClone(raw, n)
    ensures total == Total(Fractions(raw), n)
  {
    ghost var all := RawCovers(names, readMap);
    raw := [];
    total := Const(Lit(0.0), n);
    var k := 0;
    while k < |names|
      invariant 0 <= k <= |names|
      invariant raw == all[..k]
      invariant total == Total(Fractions(raw), n)
    {
      var f := readMap(names[k]);
      assert Fractions(raw + [CoverClass(names[k], f)]) == Fractions(raw) + [f];
      raw := raw + [CoverClass(names[k], f)];
      total := Map2(Add, total, f);
      k := k + 1;
    }
    assert all[..k] == all;
  }

  /** The second loop of `load_landcovermaps`: every class divided by the total, one class at a time. */
  method DivideByTotal(raw: seq<CoverClass>, total: Field, n: nat) returns (covers: seq<CoverClass>)
    requires ClassesOnClone(raw, n) && total == Total(Fractions(raw), n)
    ensures covers == Normalise(raw, n)
  {
    ghost var norm := Normalise(raw, n);
    covers := raw;
    var k := 0;
    while k < |covers|
      invariant 0 <= k <= |covers| == |raw|
      invariant covers[..k] == norm[..k]
      invariant covers[k..] == raw[k..]
    {
      assert covers[k] == raw[k];
      covers := covers[k := CoverClass(covers[k].name, Map2(NormaliseCell, covers[k].fraction, total))];
      assert covers[k] == norm[k];
      assert covers[..k + 1] == norm[..k + 1];
      k := k + 1;
    }
    assert covers[..k] == covers;
  }

  /** Normalising keeps the classes, named as read and in the same order. */
  lemma NormalisedNames(names: seq<string>, readMap: string -> Field, n: nat)
    requires forall k :: 0 <= k < |names| ==> |readMap(names[k])| == n
    ensures ClassNames(Normalise(RawCovers(names, readMap), n)) == names
    ensures ClassesOnClone(Normalise(RawCovers(names, readMap), n), n)
  {
  }

  /**
   * Where the raw total exceeds the threshold, every class holds its raw
   * fraction divided by the total, and the classes sum to one.
   */
  lemma PartitionOfUnity(raw: seq<CoverClass>, n: nat, i: nat)
    requires ClassesOnClone(raw, n) && i < n
    requires Total(Fractions(raw), n)[i].Val? && Total(Fractions(raw), n)[i].value > CoverThreshold
    ensures forall k :: 0 <= k < |raw| ==> (raw[k].fraction[i].Val? &&
      Normalise(raw, n)[k].fraction[i] == Val(raw[k].fraction[i].value / Total(Fractions(raw), n)[i].value))
    ensures Total(Fractions(Normalise(raw, n)), n)[i] == Val(1.0)
  {
    var t := Total(Fractions(raw), n)[i].value;
    NormalisedAt(raw, n, i, t);
    QuotientsSumToOne(Fractions(raw), Fractions(Normalise(raw, n)), n, i, t);
  }

  /** Above the threshold, each class's fraction at the cell is divided by the total t. */
  lemma NormalisedAt(raw: seq<CoverClass>, n: nat, i: nat, t: real)
    requires ClassesOnClone(raw, n) && i < n
    requires Total(Fractions(raw), n)[i] == Val(t) && t > CoverThreshold
    ensures forall k :: 0 <= k < |raw| ==> (raw[k].fraction[i].Val? &&
      Normalise(raw, n)[k].fraction[i] == Val(raw[k].fraction[i].value / t))
  {
    var fs := Fractions(raw);
    TotalDefined(fs, n, i);
    forall k | 0 <= k < |raw|
      ensures raw[k].fraction[i].Val? && Normalise(raw, n)[k].fraction[i] == Val(raw[k].fraction[i].value / t)
    {
      assert fs[k] == raw[k].fraction;
      NormaliseAbove(raw[k].fraction[i].value, t);
    }
  }

  /** Fractions that are each one class divided by their total t sum to one. */
  lemma QuotientsSumToOne(fs: seq<Field>, qs: seq<Field>, n: nat, i: nat, t: real)
    requires OnClone(fs, n) && OnClone(qs, n) && |qs| == |fs| && i < n
    requires Total(fs, n)[i] == Val(t) && t != 0.0
    requires forall k :: 0 <= k < |fs| ==> fs[k][i].Val? && qs[k][i] == Val(fs[k][i].value / t)
    ensures Total(qs, n)[i] == Val(1.0)
  {
    TotalOfQuotients(fs, qs, n, i, t);
    DivSelf(t);
  }

  lemma DivSelf(t: real)
    requires t != 0.0
    ensures t / t == 1.0
  {
  }

  /** Above the threshold a cell is divided by the total itself. */
  lemma NormaliseAbove(f: real, t: real)
    requires t > CoverThreshold
    ensures NormaliseCell(Val(f), Val(t)) == Val(f / t)
  {
    assert Max(Lit(CoverThreshold), Val(t)) == Val(t);
  }

  /** Where the raw total is missing or does not exceed the threshold, every class is missing. */
  lemma NoDataBelowThreshold(raw: seq<CoverClass>, n: nat, i: nat)
    requires ClassesOnClone(raw, n) && i < n
    requires !(Total(Fractions(raw), n)[i].Val? && Total(Fractions(raw), n)[i].value > CoverThreshold)
    ensures forall k :: 0 <= k < |raw| ==> Normalise(raw, n)[k].fraction[i] == Missing
  {
  }
}
