/** The configuration helpers of the current package's reshuffle command:
    `str2bool`, the metadata lookup `read_metadata` with its coercion of
    `valid_range` and `_FillValue`, and the parameter, grid and attribute
    choices `reshuffle` makes before it hands over to the image-to-time-
    series converter. `float()` is a parameter (`toFloat`, `None` for a
    `ValueError`); the metadata directory is a map from file name to the
    parsed file. */
module ReshuffleCurrent {
  import opened Common
  import opened Text
  import opened Dicts
  import Ini
  import Dates
  import ImageModel
  import CciImage

  /** `str2bool`. */
  function Str2Bool(s: string): bool
  {
    s in ["True", "true", "t", "T", "1"]
  }

  /** `str(b)` for a Python bool. */
  function BoolText(b: bool): string
  {
    if b then "True" else "False"
  }

  /** `str2bool` reads back Python's own spelling of a bool, and of the
      integers exactly `1` counts as true. Common spellings such as `yes`
      or `false` count as false. */
  lemma Str2BoolReadsBack(b: bool, n: int)
    ensures Str2Bool(BoolText(b)) == b
    ensures Str2Bool(Signed(n)) <==> n == 1
    ensures !Str2Bool("yes") && !Str2Bool("false") && !Str2Bool("")
  {
    var s := Signed(n);
    if s == "1" {
      ParseIntSigned(n);
      ParseIntSigned(1);
      assert Signed(1) == "1";
    }
    if s in ["True", "true", "t", "T"] {
      assert s[0] == '-' || IsDigit(s[0]);
    }
  }

  /** The grids `reshuffle` can choose from. */
  datatype GridChoice = LandGrid | CellGrid

  /** `CCILandGrid()` when `land_points` holds, `CCICellGrid()` otherwise. */
  function ChooseGrid(landPoints: bool): (g: GridChoice)
    ensures g == LandGrid <==> landPoints
  {
    if landPoints then LandGrid else CellGrid
  }

  const NonParameters: seq<string> := ["lat", "lon", "time"]

  /** The parameters when none are given: the file's variables without
      the coordinates, in file order. */
  function DefaultParameters(fileVars: seq<string>): (ps: seq<string>)
    ensures forall p :: p in ps <==> p in fileVars && p !in NonParameters
  {
    WithoutMembers(fileVars, NonParameters);
    Without(fileVars, NonParameters)
  }

  lemma {:induction false} WithoutSameMembers(xs: seq<string>, e1: seq<string>, e2: seq<string>)
    requires forall x :: x in e1 <==> x in e2
    ensures Without(xs, e1) == Without(xs, e2)
  {
    if xs != [] {
      WithoutSameMembers(xs[1..], e1, e2);
    }
  }

  /** The default parameter list is the reader's own default selection
      for a file with those variables, order included. */
  lemma DefaultParametersAsReader<V, A>(f: ImageModel.File<V, A>)
    ensures DefaultParameters(CciImage.Names(f)) == CciImage.ParamNames(None, f)
  {
    WithoutSameMembers(CciImage.Names(f), NonParameters, CciImage.Coordinates);
  }

  /** A metadata value after coercion: the text as read, a list of numbers,
      an integer or a number. */
  datatype MetaValue<F> = Text(text: string) | Floats(values: seq<F>) | IntValue(n: int) | FloatValue(x: F)

  /** What `read_metadata` and `reshuffle` raise: the version in the file
      name is no integer, the metadata file is missing, a section is
      missing, or a number does not parse. */
  datatype MetaError =
    | NotAnInteger(text: string)
    | MissingMetafile(name: string)
    | Section(error: Ini.ConfigError)
    | NotANumber(text: string)

  /** `RawConfigParser` does not interpolate. */
  function Raw(value: string, lookup: map<string, string>): string
  {
    value
  }

  /** `'esa_cci_sm_v0{}_{}.ini'.format(version, sensortype.upper())`. */
  function Metafile(version: int, sensortype: string): string
  {
    "esa_cci_sm_v0" + Signed(version) + "_" + Upper(sensortype) + ".ini"
  }

  /** `','` if the text holds a comma, else `' '`. */
  function Delimiter(s: string): char
  {
    if ',' in s then ',' else ' '
  }

  /** `[float(j) for j in pieces]`: the first piece that does not parse
      raises. */
  function FloatsOf<F>(pieces: seq<string>, toFloat: string -> Option<F>): (r: Result<seq<F>, MetaError>)
    ensures r.Success? <==> forall i :: 0 <= i < |pieces| ==> toFloat(pieces[i]).Some?
    ensures r.Success? ==> (|r.value| == |pieces| &&
      forall i :: 0 <= i < |pieces| ==> r.value[i] == toFloat(pieces[i]).value)
    ensures r.Failure? ==>
      exists i :: 0 <= i < |pieces| && toFloat(pieces[i]).None? &&
        (forall j :: 0 <= j < i ==> toFloat(pieces[j]).Some?) && r.error == NotANumber(pieces[i])
  {
    if pieces == [] then Success([])
    else match toFloat(pieces[0])
      case None => Failure(NotANumber(pieces[0]))
      case Some(x) =>
        match FloatsOf(pieces[1..], toFloat)
        case Failure(e) =>
          var i :| 0 <= i < |pieces[1..]| && toFloat(pieces[1..][i]).None? &&
            (forall j :: 0 <= j < i ==> toFloat(pieces[1..][j]).Some?) && e == NotANumber(pieces[1..][i]);
          assert forall j :: 0 <= j < i + 1 ==> toFloat(pieces[j]).Some? by {
            forall j | 0 <= j < i + 1 ensures toFloat(pieces[j]).Some? {
              if j > 0 { assert pieces[j] == pieces[1..][j - 1]; }
            }
          }
          Failure(e)
        case Success(xs) => Success([x] + xs)
  }

  /** The `valid_range` coercion: split on the delimiter, every piece a
      number. */
  function CoerceValidRange<F>(s: string, toFloat: string -> Option<F>): Result<seq<F>, MetaError>
  {
    FloatsOf(Split(s, Delimiter(s)), toFloat)
  }

  /** A range written with commas, or with single spaces and no commas,
      comes back as the numbers of its pieces. */
  lemma ValidRangeReadsBack<F>(pieces: seq<string>, sep: char, toFloat: string -> Option<F>)
    requires sep == ',' || sep == ' '
    requires |pieces| >= 2
    requires forall i :: 0 <= i < |pieces| ==> ',' !in pieces[i] && ' ' !in pieces[i] && toFloat(pieces[i]).Some?
    ensures var r := CoerceValidRange(Join(pieces, sep), toFloat);
      r.Success? && |r.value| == |pieces| &&
      forall i :: 0 <= i < |pieces| ==> r.value[i] == toFloat(pieces[i]).value
  {
    var s := Join(pieces, sep);
    assert s == pieces[0] + [sep] + Join(pieces[1..], sep);
    assert s[|pieces[0]|] == sep;
    assert Delimiter(s) == sep by {
      if sep == ' ' {
        JoinSplit(pieces, ' ');
        assert ',' !in s by {
          SplitJoin(s, ' ');
          JoinWithout(pieces, ' ', ',');
        }
      }
    }
    JoinSplit(pieces, sep);
  }

  lemma {:induction false} JoinWithout(pieces: seq<string>, sep: char, c: char)
    requires c != sep
    requires forall i :: 0 <= i < |pieces| ==> c !in pieces[i]
    ensures c !in Join(pieces, sep)
  {
    if |pieces| > 1 {
      JoinWithout(pieces[1..], sep, c);
    }
  }

  /** The `_FillValue` coercion: `int()` first, `float()` when that
      fails; when both fail the `ValueError` propagates. */
  function CoerceFillValue<F>(s: string, toFloat: string -> Option<F>): Result<MetaValue<F>, MetaError>
  {
    match ParseInt(s)
    case Some(n) => Success(IntValue(n))
    case None =>
      match toFloat(s)
      case Some(x) => Success(FloatValue(x))
      case None => Failure(NotANumber(s))
  }

  /** An integer written by `str` stays an integer; a value with a decimal
      point is read by `float()`. */
  lemma FillValueKinds<F>(n: int, s: string, toFloat: string -> Option<F>)
    ensures CoerceFillValue(Signed(n), toFloat) == Success(IntValue(n))
    ensures '.' in s ==> (CoerceFillValue(s, toFloat) ==
      if toFloat(s).Some? then Success(FloatValue(toFloat(s).value)) else Failure(NotANumber(s)))
  {
    ParseIntSigned(n);
    if '.' in s {
      ParseIntRejectsPoint(s);
    }
  }

  /** The fill value of the metadata files. */
  lemma TestedFillValue<F>(toFloat: string -> Option<F>)
    ensures CoerceFillValue("-9999", toFloat) == Success(IntValue(-9999))
  {
    TestedNegative();
  }

  function WithFill<F>(m: Dict<MetaValue<F>>, items: Dict<string>, toFloat: string -> Option<F>): Result<Dict<MetaValue<F>>, MetaError>
    requires Dicts.Valid(m)
  {
    if "_FillValue" in items.values then
      match CoerceFillValue(items.values["_FillValue"], toFloat)
      case Failure(e) => Failure(e)
      case Success(v) => Success(Put(m, "_FillValue", v))
    else Success(m)
  }

  /** One variable's attributes: the texts of its section, with
      `valid_range` and `_FillValue` coerced where present. */
  function Coerced<F>(items: Dict<string>, toFloat: string -> Option<F>): Result<Dict<MetaValue<F>>, MetaError>
    requires Dicts.Valid(items)
  {
    var texts := MapValues(items, (s: string) => Text(s));
    if "valid_range" in items.values then
      match CoerceValidRange(items.values["valid_range"], toFloat)
      case Failure(e) => Failure(e)
      case Success(xs) => WithFill(Put(texts, "valid_range", Floats(xs)), items, toFloat)
    else WithFill(texts, items, toFloat)
  }

  /** The coerced attributes keep the section's keys and order; only the
      two numeric attributes change their kind, and every other attribute
      is the text as read. A failure is a failing coercion. */
  lemma CoercedSpec<F>(items: Dict<string>, toFloat: string -> Option<F>)
    requires Dicts.Valid(items)
    ensures var r := Coerced(items, toFloat);
      r.Failure? <==>
        ("valid_range" in items.values && CoerceValidRange(items.values["valid_range"], toFloat).Failure?) ||
        ("_FillValue" in items.values && CoerceFillValue(items.values["_FillValue"], toFloat).Failure?)
    ensures var r := Coerced(items, toFloat);
      r.Success? ==> r.value.keys == items.keys && r.value.values.Keys == items.values.Keys
    ensures var r := Coerced(items, toFloat);
      r.Success? ==> forall k :: k in items.values ==>
        r.value.values[k] ==
          if k == "valid_range" then Floats(CoerceValidRange(items.values[k], toFloat).value)
          else if k == "_FillValue" then CoerceFillValue(items.values[k], toFloat).value
          else Text(items.values[k])
  {
  }

  /** `config.items(var.upper())`, coerced. */
  function VarMeta<F>(c: Ini.Contents, name: string, toFloat: string -> Option<F>): Result<Dict<MetaValue<F>>, MetaError>
    requires Ini.WellFormed(c)
  {
    match Ini.Items(c, Upper(name), Raw)
    case Failure(e) => Failure(Section(e))
    case Success(items) => Coerced(items, toFloat)
  }

  /** The `var_meta` dictionary after the loop over `names`: one entry per
      name, where it first occurs; the first failing name raises. What the
      loop promises is stated by `Dicts.PutAllOutcome` and
      `Dicts.PutAllContents`. */
  function VarMetas<F>(c: Ini.Contents, names: seq<string>, toFloat: string -> Option<F>): Result<Dict<Dict<MetaValue<F>>>, MetaError>
    requires Ini.WellFormed(c)
  {
    PutAll(names, (name: string) => VarMeta(c, name, toFloat))
  }

  /** What `read_metadata` returns: the `GLOBAL` options and the
      variables' attributes. */
  function Metadata<F>(sensortype: string, version: int, varnames: seq<string>,
                       files: map<string, Ini.Contents>, toFloat: string -> Option<F>): (r: Result<(Dict<string>, Dict<Dict<MetaValue<F>>>), MetaError>)
    requires forall f :: f in files ==> Ini.WellFormed(files[f])
    ensures Metafile(version, sensortype) !in files ==> r == Failure(MissingMetafile(Metafile(version, sensortype)))
    ensures r.Success? ==> (Metafile(version, sensortype) in files &&
      var c := files[Metafile(version, sensortype)];
      Ini.Items(c, "GLOBAL", Raw) == Success(r.value.0) && VarMetas(c, varnames, toFloat) == Success(r.value.1))
  {
    var name := Metafile(version, sensortype);
    if name !in files then Failure(MissingMetafile(name))
    else
      var c := files[name];
      match Ini.Items(c, "GLOBAL", Raw)
      case Failure(e) => Failure(Section(e))
      case Success(g) =>
        match VarMetas(c, varnames, toFloat)
        case Failure(e) => Failure(e)
        case Success(m) => Success((g, m))
  }

  /** `read_metadata(sensortype, version, varnames)`. */
  method ReadMetadata<F>(sensortype: string, version: int, varnames: seq<string>,
                         files: map<string, Ini.Contents>, toFloat: string -> Option<F>)
    returns (r: Result<(Dict<string>, Dict<Dict<MetaValue<F>>>), MetaError>)
    requires forall f :: f in files ==> Ini.WellFormed(files[f])
    ensures r == Metadata(sensortype, version, varnames, files, toFloat)
  {
    var name := Metafile(version, sensortype);
    if name !in files {
      return Failure(MissingMetafile(name));
    }
    var c := files[name];
    var globalMeta := Ini.Items(c, "GLOBAL", Raw);
    if globalMeta.Failure? {
      return Failure(Section(globalMeta.error));
    }
    var varMeta := CollectVarMetas(c, varnames, toFloat);
    if varMeta.Failure? {
      return Failure(varMeta.error);
    }
    return Success((globalMeta.value, varMeta.value));
  }

  /** The loop of `read_metadata` over the variable names: each name's
      section, coerced, stored under the name; the first missing section
      ends the loop. */
  method CollectVarMetas<F>(c: Ini.Contents, varnames: seq<string>, toFloat: string -> Option<F>)
    returns (r: Result<Dict<Dict<MetaValue<F>>>, MetaError>)
    requires Ini.WellFormed(c)
    ensures r == VarMetas(c, varnames, toFloat)
  {
    var varMeta: Dict<Dict<MetaValue<F>>> := Empty();
    var i := 0;
    while i < |varnames|
      invariant 0 <= i <= |varnames|
      invariant VarMetas(c, varnames[..i], toFloat) == Success(varMeta)
    {
      var m := VarMeta(c, varnames[i], toFloat);
      assert varnames[..i + 1][..i] == varnames[..i];
      if m.Failure? {
        PutAllPrefixFailure(varnames, i + 1, (name: string) => VarMeta(c, name, toFloat));
        return Failure(m.error);
      }
      varMeta := Put(varMeta, varnames[i], m.value);
      i := i + 1;
    }
    assert varnames[..i] == varnames;
    return Success(varMeta);
  }

  /** The file name for a version-4 passive product, the sensor type as
      the product file names spell it. */
  lemma TestedMetafile()
    ensures Metafile(4, "PASSIVE") == "esa_cci_sm_v04_PASSIVE.ini"
  {
    PassiveIsUpper();
    FourSigned();
    MetafileSpelled();
  }

  lemma MetafileSpelled()
    ensures "esa_cci_sm_v0" + "4" + "_" + "PASSIVE" + ".ini" == "esa_cci_sm_v04_PASSIVE.ini"
  {
  }

  lemma FourSigned()
    ensures Signed(4) == "4"
  {
    assert DigitChar(4) == '4';
  }

  lemma PassiveIsUpper()
    ensures Upper("PASSIVE") == "PASSIVE"
  {
    var p := "PASSIVE";
    assert !IsLower(p[0]) && !IsLower(p[1]) && !IsLower(p[2]) && !IsLower(p[3]);
    assert !IsLower(p[4]) && !IsLower(p[5]) && !IsLower(p[6]);
    UpperIdempotent(p);
  }

  /** The fields `parse_filename` takes from the first file's name. */
  datatype FileArgs = FileArgs(sensorType: string, version: string, subVersion: string)

  /** Everything `reshuffle` passes to the converter, besides the dataset
      and the paths. */
  datatype Img2TsConfig<F> = Img2TsConfig(
    parameters: seq<string>,
    grid: GridChoice,
    startdate: Dates.DateTime,
    enddate: Dates.DateTime,
    imgbuffer: nat,
    cellsizeLat: real,
    cellsizeLon: real,
    zlib: bool,
    unlimChunksize: nat,
    globalAttr: Dict<string>,
    tsAttributes: Option<Dict<Dict<MetaValue<F>>>>)

  /** The global attributes when metadata is ignored. */
  function ProductOnly(): (d: Dict<string>)
    ensures d.keys == ["product"] && d.values == map["product" := "ESA CCI SM"]
  {
    Put(Empty(), "product", "ESA CCI SM")
  }

  /** `reshuffle`: choose the grid and the parameters, then either the
      bare product attribute or the metadata with the time coverage added. */
  method Reshuffle<F>(fileArgs: FileArgs, fileVars: seq<string>,
                      startdate: Dates.DateTime, enddate: Dates.DateTime,
                      parameters: Option<seq<string>>, landPoints: bool, ignoreMeta: bool, imgbuffer: nat,
                      files: map<string, Ini.Contents>, toFloat: string -> Option<F>)
    returns (r: Result<Img2TsConfig<F>, MetaError>)
    requires Dates.Valid(startdate) && Dates.Valid(enddate)
    requires forall f :: f in files ==> Ini.WellFormed(files[f])
    ensures r.Success? ==>
      r.value.parameters == (if parameters.None? then DefaultParameters(fileVars) else parameters.value) &&
      r.value.grid == ChooseGrid(landPoints) &&
      r.value.startdate == startdate && r.value.enddate == enddate && r.value.imgbuffer == imgbuffer &&
      r.value.cellsizeLat == 5.0 && r.value.cellsizeLon == 5.0 && r.value.zlib && r.value.unlimChunksize == 1000
    ensures ignoreMeta ==> r.Success? && r.value.globalAttr == ProductOnly() && r.value.tsAttributes == None
    ensures !ignoreMeta && ParseInt(fileArgs.version).None? ==> r == Failure(NotAnInteger(fileArgs.version))
    ensures !ignoreMeta && ParseInt(fileArgs.version).Some? ==>
      var m := Metadata(fileArgs.sensorType, ParseInt(fileArgs.version).value,
                        if parameters.None? then DefaultParameters(fileVars) else parameters.value, files, toFloat);
      (r.Success? <==> m.Success?) &&
      (r.Failure? ==> r.error == m.error) &&
      (r.Success? ==>
        r.value.globalAttr == Put(Put(m.value.0, "time_coverage_start", Dates.Str(startdate)),
                                  "time_coverage_end", Dates.Str(enddate)) &&
        r.value.tsAttributes == Some(m.value.1))
  {
    var grid := ChooseGrid(landPoints);
    var params := if parameters.None? then DefaultParameters(fileVars) else parameters.value;
    var globalAttr: Dict<string>;
    var tsAttributes: Option<Dict<Dict<MetaValue<F>>>>;
    if !ignoreMeta {
      var version := ParseInt(fileArgs.version);
      if version.None? {
        return Failure(NotAnInteger(fileArgs.version));
      }
      var meta := ReadMetadata(fileArgs.sensorType, version.value, params, files, toFloat);
      if meta.Failure? {
        return Failure(meta.error);
      }
      globalAttr := meta.value.0;
      globalAttr := Put(globalAttr, "time_coverage_start", Dates.Str(startdate));
      globalAttr := Put(globalAttr, "time_coverage_end", Dates.Str(enddate));
      tsAttributes := Some(meta.value.1);
    } else {
      globalAttr := ProductOnly();
      tsAttributes := None;
    }
    r := Success(Img2TsConfig(params, grid, startdate, enddate, imgbuffer, 5.0, 5.0, true, 1000,
                              globalAttr, tsAttributes));
  }

  /** With metadata, the global attributes keep the file's options in
      order and end with the time coverage, as the dates' `str` forms. */
  lemma TimeCoverage(global: Dict<string>, startdate: Dates.DateTime, enddate: Dates.DateTime)
    requires Dicts.Valid(global) && Dates.Valid(startdate) && Dates.Valid(enddate)
    requires "time_coverage_start" !in global.values && "time_coverage_end" !in global.values
    ensures var g := Put(Put(global, "time_coverage_start", Dates.Str(startdate)), "time_coverage_end", Dates.Str(enddate));
      g.keys == global.keys + ["time_coverage_start", "time_coverage_end"] &&
      g.values["time_coverage_start"] == Dates.Str(startdate) &&
      g.values["time_coverage_end"] == Dates.Str(enddate) &&
      forall k :: k in global.values ==> g.values[k] == global.values[k]
  {
  }
}
