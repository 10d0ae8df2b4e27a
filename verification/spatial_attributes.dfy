/**
 * Reading a raster's attributes out of the text `gdalinfo` prints, and the
 * derivation of the fine (5 arc-minute) grid from the coarse clone's
 * attributes. The text is a parameter: the subprocess is not modelled.
 */
module SpatialAttributes {
  import opened Wrappers
  import opened TextOps

  /** How an attribute's text is converted. */
  datatype Kind = Text | Integer | Float

  /** An attribute: its name, the key that marks its line, which comma-separated piece holds it, its kind. */
  datatype AttrSpec = AttrSpec(attr: string, key: string, entry: nat, kind: Kind)

  datatype AttrValue = Str(s: string) | Int(i: int) | Num(r: real)

  /** Why reading stops. */
  datatype ParseError =
    | NoInformation          // the tool reported an error other than a warning
    | NotProcessed(attr: string)  // the text of a numeric attribute does not convert
    | IndexError(attr: string)    // too few comma-separated pieces, or no token left
    | KeyError(attr: string)      // a resolution whose key never occurs
    | TypeError(attr: string)     // an operator applied to a value of the wrong kind

  type Attributes = map<string, AttrValue>

  const NumberRows := AttrSpec("numberRows", "Size is", 1, Integer)
  const NumberCols := AttrSpec("numberCols", "Size is", 0, Integer)
  const XResolution := AttrSpec("xResolution", "Pixel Size =", 0, Float)
  const YResolution := AttrSpec("yResolution", "Pixel Size =", 1, Float)

  /** The attributes read, in the order they are listed. */
  const Specs: seq<AttrSpec> := [
    AttrSpec("dataFormat", "Driver", 0, Text),
    NumberRows,
    NumberCols,
    XResolution,
    YResolution,
    AttrSpec("xLL", "Lower Left", 0, Float),
    AttrSpec("yLL", "Lower Left", 1, Float),
    AttrSpec("xUR", "Upper Right", 0, Float),
    AttrSpec("yUR", "Upper Right", 1, Float),
    AttrSpec("dataType", "Type=", 0, Text),
    AttrSpec("minValue", "Min=", 0, Float),
    AttrSpec("maxValue", "Max=", 0, Float),
    AttrSpec("noDataValue", "NoData Value=", 0, Float)
  ]

  /** The characters stripped from an extracted value. */
  const Junk: set<char> := {'=', ':', '(', ')', ' ', '\t'}

  /** The attributes stored as absolute values. */
  const Resolutions: set<string> := {"xResolution", "yResolution"}

  /** No other attribute has the k-th's name. */
  predicate Unique(specs: seq<AttrSpec>, k: nat)
    requires k < |specs|
  {
    forall j :: 0 <= j < |specs| && j != k ==> specs[j].attr != specs[k].attr
  }

  /** Output on the error stream stops the reading unless it begins with "warning", in any case. */
  predicate Fatal(err: string)
  {
    err != "" && Lower(SliceTo(err, 7)) != "warning"
  }

  /**
   * Empty error output is not fatal; output that begins with "warning", in
   * any case, is not either; any other output, such as one whose first
   * letter is not a w, is.
   */
  lemma WarningsNotFatal(err: string)
    ensures err == "" ==> !Fatal(err)
    ensures |err| >= 7 && Lower(err[..7]) == "warning" ==> !Fatal(err)
    ensures err != "" && LowerChar(err[0]) != 'w' ==> Fatal(err)
  {
  }

  /** The lines searched: the output split on newlines and cut by `[:maxLength]`. */
  function KeptLines(out: string, maxLength: int): seq<string>
  {
    SliceTo(Split(out, '\n'), maxLength)
  }

  /** The first line that, stripped of white space, contains `key`. */
  function FirstMatch(lines: seq<string>, key: string): (r: Option<nat>)
    ensures r.Some? ==> r.value < |lines| && Contains(Strip(lines[r.value], Whitespace), key)
    ensures forall j :: 0 <= j < |lines| && (r.None? || j < r.value) ==> !Contains(Strip(lines[j], Whitespace), key)
  {
    if |lines| == 0 then None
    else if Contains(Strip(lines[0], Whitespace), key) then Some(0)
    else
      match FirstMatch(lines[1..], key)
      case None => None
      case Some(j) => Some(j + 1)
  }

  /**
   * The value on a line holding the key: the wanted comma-separated piece of
   * the text after the key's first occurrence, stripped; for a number only
   * its first token, converted.
   */
  function ValueOf(entry: string, spec: AttrSpec, toInt: string -> Option<int>, toFloat: string -> Option<real>)
    : (r: Result<AttrValue, ParseError>)
    requires Contains(entry, spec.key)
    ensures r.Success? ==> (r.value.Str? <==> spec.kind == Text) && (r.value.Int? <==> spec.kind == Integer)
    ensures r.Failure? ==> r.error == IndexError(spec.attr) || r.error == NotProcessed(spec.attr)
  {
    var pieces := Split(entry[Find(entry, spec.key) + |spec.key|..], ',');
    if spec.entry >= |pieces| then Failure(IndexError(spec.attr))
    else
      var raw := Strip(pieces[spec.entry], Junk);
      if spec.kind == Text then Success(Str(Strip(raw, Junk)))
      else
        match FirstToken(raw)
        case None => Failure(IndexError(spec.attr))
        case Some(t) =>
          var txt := Strip(t, Junk);
          if spec.kind == Integer then
            match toInt(txt)
            case None => Failure(NotProcessed(spec.attr))
            case Some(i) => Success(Int(i))
          else
            match toFloat(txt)
            case None => Failure(NotProcessed(spec.attr))
            case Some(x) => Success(Num(x))
  }

  /** `abs` of a number; None for text, which `abs` rejects. */
  function Magnitude(v: AttrValue): (r: Option<AttrValue>)
    ensures r.Some? <==> !v.Str?
    ensures r.Some? && r.value.Num? ==> r.value.r >= 0.0
  {
    match v
    case Str(_) => None
    case Int(i) => Some(Int(if i < 0 then -i else i))
    case Num(x) => Some(Num(if x < 0.0 then -x else x))
  }

  /** What the attributes record about `spec` once it has been read. */
  predicate Recorded(a: Attributes, lines: seq<string>, spec: AttrSpec,
                     toInt: string -> Option<int>, toFloat: string -> Option<real>)
  {
    match FirstMatch(lines, spec.key)
    case None => spec.attr !in a && spec.attr !in Resolutions
    case Some(j) =>
      var v := ValueOf(Strip(lines[j], Whitespace), spec, toInt, toFloat);
      && spec.attr in a && v.Success?
      && (if spec.attr in Resolutions then Magnitude(v.value) == Some(a[spec.attr]) else a[spec.attr] == v.value)
  }

  /** The dictionary after the search for one attribute, before the resolutions' `abs`. */
  function Found(attrs: Attributes, lines: seq<string>, spec: AttrSpec,
                 toInt: string -> Option<int>, toFloat: string -> Option<real>): Result<Attributes, ParseError>
  {
    match FirstMatch(lines, spec.key)
    case None => Success(attrs)
    case Some(j) =>
      match ValueOf(Strip(lines[j], Whitespace), spec, toInt, toFloat)
      case Failure(e) => Failure(e)
      case Success(v) => Success(attrs[spec.attr := v])
  }

  /** One attribute read, the resolutions then made absolute. */
  function Step(attrs: Attributes, lines: seq<string>, spec: AttrSpec,
                toInt: string -> Option<int>, toFloat: string -> Option<real>): (r: Result<Attributes, ParseError>)
    ensures spec.attr !in attrs && r.Success? ==> Recorded(r.value, lines, spec, toInt, toFloat)
    ensures r.Success? ==> forall x :: x != spec.attr ==> (x in r.value <==> x in attrs)
    ensures r.Success? ==> forall x :: x in attrs && x != spec.attr ==> r.value[x] == attrs[x]
    ensures spec.attr !in attrs && spec.attr in Resolutions && FirstMatch(lines, spec.key).None? ==>
      r == Failure(KeyError(spec.attr))
    ensures r.Failure? ==> r.error != NoInformation
  {
    match Found(attrs, lines, spec, toInt, toFloat)
    case Failure(e) => Failure(e)
    case Success(a) => Absolute(a, spec.attr)
  }

  /** `abs` applied to a stored resolution; other attributes are left alone. */
  function Absolute(a: Attributes, attr: string): (r: Result<Attributes, ParseError>)
    ensures attr !in Resolutions ==> r == Success(a)
    ensures attr in Resolutions ==> (r.Failure? <==> attr !in a || a[attr].Str?)
    ensures r.Failure? ==> r.error == if attr in a then TypeError(attr) else KeyError(attr)
    ensures r.Success? ==> r.value.Keys == a.Keys && forall x :: x in a && x != attr ==> r.value[x] == a[x]
    ensures r.Success? && attr in Resolutions ==> Magnitude(a[attr]) == Some(r.value[attr])
  {
    if attr !in Resolutions then Success(a)
    else if attr !in a then Failure(KeyError(attr))
    else
      match Magnitude(a[attr])
      case None => Failure(TypeError(attr))
      case Some(v) => Success(a[attr := v])
  }

  /** The dictionary after reading `specs` in order; the first error stops the reading. */
  function ParsedWith(lines: seq<string>, specs: seq<AttrSpec>,
                      toInt: string -> Option<int>, toFloat: string -> Option<real>): (r: Result<Attributes, ParseError>)
    ensures r.Success? ==> forall x :: x in r.value ==> exists k :: 0 <= k < |specs| && specs[k].attr == x
    ensures r.Failure? ==> r.error != NoInformation
  {
    if |specs| == 0 then Success(map[])
    else
      var m := |specs| - 1;
      match ParsedWith(lines, specs[..m], toInt, toFloat)
      case Failure(e) => Failure(e)
      case Success(a) =>
        var r := Step(a, lines, specs[m], toInt, toFloat);
        assert r.Success? ==> forall x :: x in r.value ==> x == specs[m].attr || x in a;
        assert forall x :: x in a ==> exists k :: 0 <= k < |specs| && specs[k].attr == x by {
          forall x | x in a ensures exists k :: 0 <= k < |specs| && specs[k].attr == x {
            var k :| 0 <= k < m && specs[..m][k].attr == x;
            assert specs[k].attr == x;
          }
        }
        r
  }

  /** `read_spatialattributes_from_map`, given the tool's standard output and error text. */
  function ReadAttributes(out: string, err: string, maxLength: int,
                          toInt: string -> Option<int>, toFloat: string -> Option<real>): (r: Result<Attributes, ParseError>)
    ensures r == Failure(NoInformation) <==> Fatal(err)
  {
    if Fatal(err) then Failure(NoInformation)
    else ParsedWith(KeptLines(out, maxLength), Specs, toInt, toFloat)
  }

  /** Once a prefix of the attributes fails, the whole reading fails the same way. */
  lemma {:induction false} FailurePersists(lines: seq<string>, specs: seq<AttrSpec>, k: nat,
                                           toInt: string -> Option<int>, toFloat: string -> Option<real>)
    requires k <= |specs|
    requires ParsedWith(lines, specs[..k], toInt, toFloat).Failure?
    ensures ParsedWith(lines, specs, toInt, toFloat) == ParsedWith(lines, specs[..k], toInt, toFloat)
  {
    if k == |specs| {
      assert specs[..k] == specs;
    } else {
      var m := |specs| - 1;
      assert specs[..m][..k] == specs[..k];
      FailurePersists(lines, specs[..m], k, toInt, toFloat);
    }
  }

  /**
   * A successful reading records an attribute whose name no other attribute
   * has: present exactly when some kept line holds its key (always, for a
   * resolution), with the value taken from the first such line, made
   * absolute for the resolutions.
   */
  lemma {:induction false} RecordedAt(lines: seq<string>, specs: seq<AttrSpec>, k: nat,
                                      toInt: string -> Option<int>, toFloat: string -> Option<real>)
    requires k < |specs| && Unique(specs, k)
    requires ParsedWith(lines, specs, toInt, toFloat).Success?
    ensures Recorded(ParsedWith(lines, specs, toInt, toFloat).value, lines, specs[k], toInt, toFloat)
  {
    var m := |specs| - 1;
    var a := ParsedWith(lines, specs[..m], toInt, toFloat).value;
    if k < m {
      assert specs[..m][k] == specs[k];
      RecordedAt(lines, specs[..m], k, toInt, toFloat);
    } else {
      assert specs[k].attr !in a;
    }
  }

  /**
   * The kind of a recorded value is the attribute's kind, and a resolution
   * is always present and never negative.
   */
  lemma KindRecorded(lines: seq<string>, specs: seq<AttrSpec>, k: nat,
                     toInt: string -> Option<int>, toFloat: string -> Option<real>)
    requires k < |specs| && Unique(specs, k)
    requires ParsedWith(lines, specs, toInt, toFloat).Success?
    ensures var a := ParsedWith(lines, specs, toInt, toFloat).value; var s := specs[k];
      && (s.attr in a ==> (a[s.attr].Str? <==> s.kind == Text) && (a[s.attr].Int? <==> s.kind == Integer))
      && (s.attr in Resolutions ==> s.attr in a && (a[s.attr].Num? ==> a[s.attr].r >= 0.0))
  {
    RecordedAt(lines, specs, k, toInt, toFloat);
  }

  /** The grid size and the resolutions sit at positions 1 to 4, each under a name of its own. */
  lemma SpecsUnique()
    ensures Specs[1] == NumberRows && Specs[2] == NumberCols && Specs[3] == XResolution && Specs[4] == YResolution
    ensures Unique(Specs, 1) && Unique(Specs, 2) && Unique(Specs, 3) && Unique(Specs, 4)
  {
  }

  /**
   * After a successful reading both resolutions are present as non-negative
   * numbers, and the grid size, when present, is a pair of integers.
   */
  lemma ReadKinds(out: string, err: string, maxLength: int,
                  toInt: string -> Option<int>, toFloat: string -> Option<real>)
    requires ReadAttributes(out, err, maxLength, toInt, toFloat).Success?
    ensures var a := ReadAttributes(out, err, maxLength, toInt, toFloat).value;
      && "xResolution" in a && a["xResolution"].Num? && a["xResolution"].r >= 0.0
      && "yResolution" in a && a["yResolution"].Num? && a["yResolution"].r >= 0.0
      && ("numberCols" in a ==> a["numberCols"].Int?)
      && ("numberRows" in a ==> a["numberRows"].Int?)
  {
    var lines := KeptLines(out, maxLength);
    assert ReadAttributes(out, err, maxLength, toInt, toFloat) == ParsedWith(lines, Specs, toInt, toFloat);
    SpecsUnique();
    ResolutionsRead(lines, Specs, toInt, toFloat);
    GridSizeRead(lines, Specs, toInt, toFloat);
  }

  /** Both resolutions are recorded as non-negative numbers. */
  lemma ResolutionsRead(lines: seq<string>, specs: seq<AttrSpec>,
                        toInt: string -> Option<int>, toFloat: string -> Option<real>)
    requires |specs| > 4 && specs[3] == XResolution && specs[4] == YResolution
    requires Unique(specs, 3) && Unique(specs, 4)
    requires ParsedWith(lines, specs, toInt, toFloat).Success?
    ensures var a := ParsedWith(lines, specs, toInt, toFloat).value;
      && "xResolution" in a && a["xResolution"].Num? && a["xResolution"].r >= 0.0
      && "yResolution" in a && a["yResolution"].Num? && a["yResolution"].r >= 0.0
  {
    KindRecorded(lines, specs, 3, toInt, toFloat);
    KindRecorded(lines, specs, 4, toInt, toFloat);
  }

  /** The grid size, when recorded, is a pair of integers. */
  lemma GridSizeRead(lines: seq<string>, specs: seq<AttrSpec>,
                     toInt: string -> Option<int>, toFloat: string -> Option<real>)
    requires |specs| > 2 && specs[1] == NumberRows && specs[2] == NumberCols
    requires Unique(specs, 1) && Unique(specs, 2)
    requires ParsedWith(lines, specs, toInt, toFloat).Success?
    ensures var a := ParsedWith(lines, specs, toInt, toFloat).value;
      && ("numberCols" in a ==> a["numberCols"].Int?)
      && ("numberRows" in a ==> a["numberRows"].Int?)
  {
    KindRecorded(lines, specs, 1, toInt, toFloat);
    KindRecorded(lines, specs, 2, toInt, toFloat);
  }

  /** Joining all pieces but the last, then the separator and the last piece, gives the whole join. */
  lemma {:induction false} JoinLast(pieces: seq<string>, sep: char)
    requires |pieces| >= 2
    ensures Join(pieces, sep) == Join(pieces[..|pieces| - 1], sep) + [sep] + pieces[|pieces| - 1]
  {
    if |pieces| > 2 {
      JoinLast(pieces[1..], sep);
      assert pieces[1..][..|pieces| - 2] == pieces[..|pieces| - 1][1..];
    }
  }

  /**
   * With the default `maxLength` of -1 the last piece of the output is
   * dropped: for output ending in a newline that piece is empty and no
   * line is lost.
   */
  lemma DefaultCut(out: string)
    requires |out| > 0 && out[|out| - 1] == '\n'
    ensures Join(KeptLines(out, -1), '\n') + "\n" == out
  {
    var pieces := Split(out, '\n');
    JoinSplit(out, '\n');
    SplitPieces(out, '\n');
    JoinLast(pieces, '\n');
    var m := |pieces| - 1;
    assert pieces[m] == [];
    assert KeptLines(out, -1) == pieces[..m];
  }

  /**
   * The reading as the source writes it: a fresh copy of the kept lines for
   * each attribute, lines popped from the front until one holds the key.
   */
  method ReadSpatialAttributes(out: string, err: string, maxLength: int,
                               toInt: string -> Option<int>, toFloat: string -> Option<real>)
    returns (r: Result<Attributes, ParseError>)
    ensures r == ReadAttributes(out, err, maxLength, toInt, toFloat)
  {
    if err != "" && Lower(SliceTo(err, 7)) != "warning" {
      return Failure(NoInformation);
    }
    r := ReadEach(out, maxLength, Specs, toInt, toFloat);
  }

  /** The loop over the attributes, each read in turn into one dictionary. */
  method ReadEach(out: string, maxLength: int, specs: seq<AttrSpec>,
                  toInt: string -> Option<int>, toFloat: string -> Option<real>)
    returns (r: Result<Attributes, ParseError>)
    ensures r == ParsedWith(KeptLines(out, maxLength), specs, toInt, toFloat)
  {
    ghost var lines := KeptLines(out, maxLength);
    var attrs: Attributes := map[];
    for k := 0 to |specs|
      invariant ParsedWith(lines, specs[..k], toInt, toFloat) == Success(attrs)
    {
      var spec := specs[k];
      assert specs[..k + 1][..k] == specs[..k];
      var next := ScanLines(attrs, out, maxLength, spec, toInt, toFloat);
      if next.Success? && spec.attr in Resolutions {
        var a := next.value;
        if spec.attr !in a {
          next := Failure(KeyError(spec.attr));
        } else {
          var v := Magnitude(a[spec.attr]);
          next := if v.None? then Failure(TypeError(spec.attr)) else Success(a[spec.attr := v.value]);
        }
      }
      assert next == Step(attrs, lines, spec, toInt, toFloat);
      if next.Failure? {
        FailurePersists(lines, specs, k + 1, toInt, toFloat);
        return Failure(next.error);
      }
      attrs := next.value;
    }
    assert specs[..|specs|] == specs;
    return Success(attrs);
  }

  /** The search for one attribute: lines are popped until one holds the key, whose value is then stored. */
  method ScanLines(attrs: Attributes, out: string, maxLength: int, spec: AttrSpec,
                   toInt: string -> Option<int>, toFloat: string -> Option<real>)
    returns (r: Result<Attributes, ParseError>)
    ensures r == Found(attrs, KeptLines(out, maxLength), spec, toInt, toFloat)
  {
    var matched := false;
    r := Success(attrs);
    var rawList := KeptLines(out, maxLength);
    ghost var lines := rawList;
    ghost var j := 0;
    while !matched && |rawList| > 0
      invariant 0 <= j <= |lines| && rawList == lines[j..]
      invariant !matched ==> forall i :: 0 <= i < j ==> !Contains(Strip(lines[i], Whitespace), spec.key)
      invariant matched ==> 0 < j && FirstMatch(lines, spec.key) == Some(j - 1)
      invariant r == if matched then Found(attrs, lines, spec, toInt, toFloat) else Success(attrs)
    {
      var entry := Strip(rawList[0], Whitespace);
      assert entry == Strip(lines[j], Whitespace);
      rawList := rawList[1..];
      j := j + 1;
      if Contains(entry, spec.key) {
        matched := true;
        assert FirstMatch(lines, spec.key) == Some(j - 1);
        var v := ExtractValue(entry, spec, toInt, toFloat);
        if v.Failure? {
          return Failure(v.error);
        }
        r := Success(attrs[spec.attr := v.value]);
      }
    }
    if !matched {
      assert FirstMatch(lines, spec.key).None?;
    }
  }

  /** The value on the line found: the wanted piece after the key, stripped, its first token for a number, converted. */
  method ExtractValue(entry: string, spec: AttrSpec, toInt: string -> Option<int>, toFloat: string -> Option<real>)
    returns (r: Result<AttrValue, ParseError>)
    requires Contains(entry, spec.key)
    ensures r == ValueOf(entry, spec, toInt, toFloat)
  {
    var posCnt := Find(entry, spec.key);
    posCnt := posCnt + |spec.key|;
    var pieces := Split(entry[posCnt..], ',');
    if spec.entry >= |pieces| {
      return Failure(IndexError(spec.attr));
    }
    var rawStr := Strip(pieces[spec.entry], Junk);
    if spec.kind != Text {
      var token := FirstToken(rawStr);
      if token.None? {
        return Failure(IndexError(spec.attr));
      }
      rawStr := token.value;
    }
    rawStr := Strip(rawStr, Junk);
    if spec.kind == Integer {
      var v := toInt(rawStr);
      if v.None? {
        return Failure(NotProcessed(spec.attr));
      }
      return Success(Int(v.value));
    } else if spec.kind == Float {
      var v := toFloat(rawStr);
      if v.None? {
        return Failure(NotProcessed(spec.attr));
      }
      return Success(Num(v.value));
    }
    return Success(Str(rawStr));
  }

  // ---------------------------------------------------------------------
  // The fine grid
  // ---------------------------------------------------------------------

  /** The factor between the coarse (30 arc-minute) and the fine (5 arc-minute) grid. */
  const Refinement: int := 6

  /** `v * 6`: numbers are multiplied, text repeated. */
  function Times(v: AttrValue, n: nat): (r: AttrValue)
    ensures r.Str? <==> v.Str?
    ensures r.Int? <==> v.Int?
  {
    match v
    case Str(s) => Str(Repeat(s, n))
    case Int(i) => Int(i * n)
    case Num(x) => Num(x * n as real)
  }

  function Repeat(s: string, n: nat): string
  {
    if n == 0 then "" else s + Repeat(s, n - 1)
  }

  /** `v / 6.0`: a number divided as a float; text is rejected. */
  function Over(v: AttrValue, n: nat): (r: Option<AttrValue>)
    requires n > 0
    ensures r.None? <==> v.Str?
    ensures r.Some? ==> r.value.Num? && r.value.r * n as real == if v.Int? then v.i as real else v.r
  {
    match v
    case Str(_) => None
    case Int(i) => Some(Num(i as real / n as real))
    case Num(x) => Some(Num(x / n as real))
  }

  /** Dividing a multiplied number by the same factor gives the number back, as a float. */
  lemma OverUndoesTimes(v: AttrValue, n: nat)
    requires n > 0 && !v.Str?
    ensures Over(Times(v, n), n) == Some(Num(if v.Int? then v.i as real else v.r))
  {
    if v.Int? {
      IntRoundTrip(v.i, n);
    } else {
      NumRoundTrip(v.r, n);
    }
  }

  lemma IntRoundTrip(i: int, n: nat)
    requires n > 0
    ensures Over(Times(Int(i), n), n) == Some(Num(i as real))
  {
    CastProduct(i, n);
    ScaleBack(i as real, n);
  }

  lemma NumRoundTrip(x: real, n: nat)
    requires n > 0
    ensures Over(Times(Num(x), n), n) == Some(Num(x))
  {
    var y := x * n as real;
    assert Times(Num(x), n) == Num(y);
    ScaleBack(x, n);
    assert y / n as real == x;
  }

  lemma CastProduct(i: int, n: nat)
    ensures (i * n) as real == i as real * n as real
  {
  }

  lemma ScaleBack(x: real, n: nat)
    requires n > 0
    ensures (x * n as real) / n as real == x
  {
  }

  /** The fine grid's attributes: a copy of the coarse ones with the four grid entries replaced. */
  function FineGrid(cas: Attributes): (r: Result<Attributes, ParseError>)
    ensures r.Success? ==> r.value.Keys == cas.Keys
    ensures r.Success? ==> forall x :: (x in cas && x !in {"numberCols", "numberRows", "xResolution", "yResolution"}
      ==> r.value[x] == cas[x])
  {
    if "numberCols" !in cas then Failure(KeyError("numberCols"))
    else if "numberRows" !in cas then Failure(KeyError("numberRows"))
    else if "xResolution" !in cas then Failure(KeyError("xResolution"))
    else if Over(cas["xResolution"], Refinement).None? then Failure(TypeError("xResolution"))
    else if "yResolution" !in cas then Failure(KeyError("yResolution"))
    else if Over(cas["yResolution"], Refinement).None? then Failure(TypeError("yResolution"))
    else
      Success(cas["numberCols" := Times(cas["numberCols"], Refinement)]
                 ["numberRows" := Times(cas["numberRows"], Refinement)]
                 ["xResolution" := Over(cas["xResolution"], Refinement).value]
                 ["yResolution" := Over(cas["yResolution"], Refinement).value])
  }

  /** `fas = copy(cas)` followed by the four assignments, in order. */
  method RefineGrid(cas: Attributes) returns (r: Result<Attributes, ParseError>)
    ensures r == FineGrid(cas)
  {
    var fas := cas;
    if "numberCols" !in cas {
      return Failure(KeyError("numberCols"));
    }
    fas := fas["numberCols" := Times(cas["numberCols"], Refinement)];
    if "numberRows" !in cas {
      return Failure(KeyError("numberRows"));
    }
    fas := fas["numberRows" := Times(cas["numberRows"], Refinement)];
    if "xResolution" !in cas {
      return Failure(KeyError("xResolution"));
    }
    var x := Over(cas["xResolution"], Refinement);
    if x.None? {
      return Failure(TypeError("xResolution"));
    }
    fas := fas["xResolution" := x.value];
    if "yResolution" !in cas {
      return Failure(KeyError("yResolution"));
    }
    var y := Over(cas["yResolution"], Refinement);
    if y.None? {
      return Failure(TypeError("yResolution"));
    }
    fas := fas["yResolution" := y.value];
    return Success(fas);
  }

  /**
   * The fine grid has six times the columns and rows at a sixth of the
   * resolution, so it covers the same extent on both axes.
   */
  lemma FineGridExtent(cas: Attributes)
    requires "numberCols" in cas && cas["numberCols"].Int? && "numberRows" in cas && cas["numberRows"].Int?
    requires "xResolution" in cas && cas["xResolution"].Num? && "yResolution" in cas && cas["yResolution"].Num?
    ensures FineGrid(cas).Success?
    ensures var fas := FineGrid(cas).value;
      && fas["numberCols"] == Int(cas["numberCols"].i * Refinement)
      && fas["numberRows"] == Int(cas["numberRows"].i * Refinement)
      && fas["xResolution"] == Num(cas["xResolution"].r / Refinement as real)
      && fas["yResolution"] == Num(cas["yResolution"].r / Refinement as real)
      && fas["numberCols"].i as real * fas["xResolution"].r == cas["numberCols"].i as real * cas["xResolution"].r
      && fas["numberRows"].i as real * fas["yResolution"].r == cas["numberRows"].i as real * cas["yResolution"].r
  {
    var c, x := cas["numberCols"].i, cas["xResolution"].r;
    var rows, y := cas["numberRows"].i, cas["yResolution"].r;
    assert (c * 6) as real * (x / 6.0) == c as real * x;
    assert (rows * 6) as real * (y / 6.0) == rows as real * y;
  }

  /** Attributes read from the tool's output that include the grid size always give a fine grid. */
  lemma FineGridOfReadAttributes(out: string, err: string, maxLength: int,
                                 toInt: string -> Option<int>, toFloat: string -> Option<real>)
    requires ReadAttributes(out, err, maxLength, toInt, toFloat).Success?
    requires var a := ReadAttributes(out, err, maxLength, toInt, toFloat).value; "numberCols" in a && "numberRows" in a
    ensures FineGrid(ReadAttributes(out, err, maxLength, toInt, toFloat).value).Success?
  {
    ReadKinds(out, err, maxLength, toInt, toFloat);
    FineGridExtent(ReadAttributes(out, err, maxLength, toInt, toFloat).value);
  }
}
