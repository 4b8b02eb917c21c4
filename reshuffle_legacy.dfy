/** The configuration helpers of the older package's reshuffle command
    (`esa_cci_sm/reshuffle.py`): the product-specific names written into
    the metadata configuration by `prod_spec_names`, `read_metadata`, and
    the choices `reshuffle` makes before the conversion. The metadata files
    are read by an interpolating `ConfigParser`, whose interpolation is the
    parameter `expand`; every attribute stays text. */
module ReshuffleLegacy {
  import opened Common
  import opened Text
  import opened Dicts
  import Ini
  import Dates
  import ImageModel
  import LegacyImage
  import Grid
  import ReshuffleCurrent

  /** The sensor types the lookup tables know, upper-cased. */
  const KnownSensors: seq<string> := ["ACTIVE", "PASSIVE", "COMBINED"]

  /** `sensor_abbr`: the product code in the file names. */
  function SensorAbbr(t: string): (r: Option<string>)
    ensures r.Some? <==> t in KnownSensors
    ensures r == Some("SSMS") <==> t == "ACTIVE"
  {
    if t == "ACTIVE" then Some("SSMS")
    else if t == "PASSIVE" || t == "COMBINED" then Some("SSMV")
    else None
  }

  /** `sm_units_dict`. */
  function Units(t: string): (r: Option<string>)
    ensures r.Some? <==> t in KnownSensors
  {
    if t == "ACTIVE" then Some("percentage (%)")
    else if t == "PASSIVE" || t == "COMBINED" then Some("m3 m-3")
    else None
  }

  /** `sm_full_name_dict`. */
  function FullName(t: string): (r: Option<string>)
    ensures r.Some? <==> t in KnownSensors
  {
    if t == "ACTIVE" then Some("Percent of Saturation Soil Moisture")
    else if t == "PASSIVE" || t == "COMBINED" then Some("Volumetric Soil Moisture")
    else None
  }

  /** `sm_uncertainty_full_name_dict`. */
  function UncertaintyFullName(t: string): (r: Option<string>)
    ensures r.Some? <==> t in KnownSensors
  {
    if t == "ACTIVE" then Some("Percent of Saturation Soil Moisture Uncertainty")
    else if t == "PASSIVE" || t == "COMBINED" then Some("Volumetric Soil Moisture Uncertainty")
    else None
  }

  /** The four tables agree: they know the same sensor types; the active
      product is the percent-of-saturation one, in percent, and the other
      two are volumetric, in m3 m-3; every uncertainty is named after its
      variable. */
  lemma TablesAgree(t: string)
    ensures SensorAbbr(t).Some? <==> Units(t).Some?
    ensures SensorAbbr(t).Some? <==> FullName(t).Some?
    ensures SensorAbbr(t).Some? <==> UncertaintyFullName(t).Some?
    ensures SensorAbbr(t) == Some("SSMV") <==> Units(t) == Some("m3 m-3")
    ensures SensorAbbr(t) == Some("SSMS") <==> Units(t) == Some("percentage (%)")
    ensures FullName(t).Some? ==> UncertaintyFullName(t).value == FullName(t).value + " Uncertainty"
  {
    assert "SSMV"[3] != "SSMS"[3];
    assert "m3 m-3"[0] != "percentage (%)"[0];
    if t == "ACTIVE" {
      assert UncertaintyFullName(t).value == FullName(t).value + " Uncertainty";
    } else if t == "PASSIVE" || t == "COMBINED" {
      assert UncertaintyFullName(t).value == FullName(t).value + " Uncertainty";
    }
  }

  /** What can go wrong: an unknown sensor type (`KeyError`), a
      configuration error, a missing metadata file, or a version that is
      no integer. */
  datatype LegacyError =
    | UnknownSensor(key: string)
    | Config(error: Ini.ConfigError)
    | MissingMetafile(name: string)
    | NotAnInteger(text: string)

  /** The `vars` the `product` option is interpolated with. */
  function ProductVars(t: string, subversion: string): map<string, string>
    requires t in KnownSensors
  {
    map["sensor_abbr" := SensorAbbr(t).value, "sensortype" := t, "subversion" := subversion]
  }

  /** One `set` of a sequence of them: after an error the rest is skipped
      and the contents stay as the earlier calls left them. */
  function Then(s: (Ini.Contents, Option<Ini.ConfigError>), section: string, option: string, value: string): (r: (Ini.Contents, Option<Ini.ConfigError>))
    requires Ini.WellFormed(s.0)
    ensures Ini.WellFormed(r.0)
  {
    if s.1.Some? then s
    else
      match Ini.SetIn(s.0, section, option, value)
      case Failure(e) => (s.0, Some(e))
      case Success(c) => (c, None)
  }

  /** The contents after `prod_spec_names`, and the error it raised. The
      sensor type is looked up before anything is read, and `get` raises
      before anything is written; the five `set`s run in order, so a
      missing `SM` or `SM_UNCERTAINTY` section leaves the earlier ones
      done. */
  function ProdSpecNamesIn(c: Ini.Contents, sensortype: string, subversion: string,
                           expand: (string, map<string, string>) -> string): (r: (Ini.Contents, Option<LegacyError>))
    requires Ini.WellFormed(c)
    ensures Ini.WellFormed(r.0)
  {
    ProdSpecNamesFor(c, Upper(sensortype), subversion, expand)
  }

  /** `prod_spec_names` once the sensor type is upper-cased. */
  function ProdSpecNamesFor(c: Ini.Contents, t: string, subversion: string,
                            expand: (string, map<string, string>) -> string): (r: (Ini.Contents, Option<LegacyError>))
    requires Ini.WellFormed(c)
    ensures Ini.WellFormed(r.0)
  {
    if t !in KnownSensors then (c, Some(UnknownSensor(t)))
    else
      match Ini.Get(c, "GLOBAL", "product", ProductVars(t, subversion), expand)
      case Failure(e) => (c, Some(Config(e)))
      case Success(product) =>
        var s := Sets(c, t, product);
        (s.0, if s.1.Some? then Some(Config(s.1.value)) else None)
  }

  /** The five `set`s of `prod_spec_names`, in order. */
  function Sets(c: Ini.Contents, t: string, product: string): (r: (Ini.Contents, Option<Ini.ConfigError>))
    requires Ini.WellFormed(c) && t in KnownSensors
    ensures Ini.WellFormed(r.0)
  {
    Then(Then(Then(Then(Then((c, None),
      "GLOBAL", "product", product),
      "SM", "full_name", FullName(t).value),
      "SM", "units", Units(t).value),
      "SM_UNCERTAINTY", "full_name", UncertaintyFullName(t).value),
      "SM_UNCERTAINTY", "units", Units(t).value)
  }

  /** One `set` in a named section: it skips after an earlier error, fails
      on a missing section, and otherwise changes that section alone. */
  lemma ThenStep(s: (Ini.Contents, Option<Ini.ConfigError>), section: string, option: string, value: string)
    requires Ini.WellFormed(s.0) && section != "" && section != Ini.DefaultSection
    ensures var r := Then(s, section, option, value);
      r.0.defaults == s.0.defaults && r.0.sections.Keys == s.0.sections.Keys &&
      (s.1.Some? ==> r == s) &&
      (s.1.None? && section !in s.0.sections ==> r == (s.0, Some(Ini.NoSectionError(section)))) &&
      (s.1.None? && section in s.0.sections ==>
        r.1.None? && r.0.sections[section].values == s.0.sections[section].values[option := value])
  {
  }

  /** One `set` leaves every other section as it was. */
  lemma ThenOther(s: (Ini.Contents, Option<Ini.ConfigError>), section: string, option: string, value: string, x: string)
    requires Ini.WellFormed(s.0) && x in s.0.sections && x != section
    ensures x in Then(s, section, option, value).0.sections
    ensures Then(s, section, option, value).0.sections[x] == s.0.sections[x]
  {
  }

  /** The five `set`s leave `[DEFAULT]` and the sections they do not name
      alone. */
  lemma SetsFrame(c: Ini.Contents, t: string, product: string)
    requires Ini.WellFormed(c) && t in KnownSensors && "GLOBAL" in c.sections
    ensures var r := Sets(c, t, product);
      r.0.defaults == c.defaults && r.0.sections.Keys == c.sections.Keys &&
      (forall x :: x in c.sections && x !in {"GLOBAL", "SM", "SM_UNCERTAINTY"} ==> r.0.sections[x] == c.sections[x])
  {
    var s0: (Ini.Contents, Option<Ini.ConfigError>) := (c, None);
    var s1 := Then(s0, "GLOBAL", "product", product);
    ThenStep(s0, "GLOBAL", "product", product);
    var s2 := Then(s1, "SM", "full_name", FullName(t).value);
    ThenStep(s1, "SM", "full_name", FullName(t).value);
    var s3 := Then(s2, "SM", "units", Units(t).value);
    ThenStep(s2, "SM", "units", Units(t).value);
    var s4 := Then(s3, "SM_UNCERTAINTY", "full_name", UncertaintyFullName(t).value);
    ThenStep(s3, "SM_UNCERTAINTY", "full_name", UncertaintyFullName(t).value);
    var s5 := Then(s4, "SM_UNCERTAINTY", "units", Units(t).value);
    ThenStep(s4, "SM_UNCERTAINTY", "units", Units(t).value);
    assert Sets(c, t, product) == s5;
    forall x | x in c.sections && x !in {"GLOBAL", "SM", "SM_UNCERTAINTY"}
      ensures s5.0.sections[x] == c.sections[x]
    {
      ThenOther(s0, "GLOBAL", "product", product, x);
      ThenOther(s1, "SM", "full_name", FullName(t).value, x);
      ThenOther(s2, "SM", "units", Units(t).value, x);
      ThenOther(s3, "SM_UNCERTAINTY", "full_name", UncertaintyFullName(t).value, x);
      ThenOther(s4, "SM_UNCERTAINTY", "units", Units(t).value, x);
    }
  }

  /** What the five `set`s write, and where they stop. */
  lemma SetsEffect(c: Ini.Contents, t: string, product: string)
    requires Ini.WellFormed(c) && t in KnownSensors && "GLOBAL" in c.sections
    ensures var r := Sets(c, t, product);
      "GLOBAL" in r.0.sections && r.0.sections["GLOBAL"].values == c.sections["GLOBAL"].values["product" := product] &&
      ("SM" !in c.sections ==> r.1 == Some(Ini.NoSectionError("SM"))) &&
      ("SM" in c.sections ==>
        ("SM" in r.0.sections &&
         r.0.sections["SM"].values == c.sections["SM"].values["full_name" := FullName(t).value]["units" := Units(t).value])) &&
      ("SM" in c.sections && "SM_UNCERTAINTY" !in c.sections ==> r.1 == Some(Ini.NoSectionError("SM_UNCERTAINTY"))) &&
      ("SM" in c.sections && "SM_UNCERTAINTY" in c.sections ==>
        (r.1.None? && "SM_UNCERTAINTY" in r.0.sections &&
         r.0.sections["SM_UNCERTAINTY"].values ==
           c.sections["SM_UNCERTAINTY"].values["full_name" := UncertaintyFullName(t).value]["units" := Units(t).value]))
  {
    var s0: (Ini.Contents, Option<Ini.ConfigError>) := (c, None);
    var s1 := Then(s0, "GLOBAL", "product", product);
    ThenStep(s0, "GLOBAL", "product", product);
    var s2 := Then(s1, "SM", "full_name", FullName(t).value);
    ThenStep(s1, "SM", "full_name", FullName(t).value);
    ThenOther(s1, "SM", "full_name", FullName(t).value, "GLOBAL");
    var s3 := Then(s2, "SM", "units", Units(t).value);
    ThenStep(s2, "SM", "units", Units(t).value);
    ThenOther(s2, "SM", "units", Units(t).value, "GLOBAL");
    var s4 := Then(s3, "SM_UNCERTAINTY", "full_name", UncertaintyFullName(t).value);
    ThenStep(s3, "SM_UNCERTAINTY", "full_name", UncertaintyFullName(t).value);
    ThenOther(s3, "SM_UNCERTAINTY", "full_name", UncertaintyFullName(t).value, "GLOBAL");
    var s5 := Then(s4, "SM_UNCERTAINTY", "units", Units(t).value);
    ThenStep(s4, "SM_UNCERTAINTY", "units", Units(t).value);
    ThenOther(s4, "SM_UNCERTAINTY", "units", Units(t).value, "GLOBAL");
    assert Sets(c, t, product) == s5;
    if "SM" in c.sections {
      ThenOther(s3, "SM_UNCERTAINTY", "full_name", UncertaintyFullName(t).value, "SM");
      ThenOther(s4, "SM_UNCERTAINTY", "units", Units(t).value, "SM");
    }
  }

  /** What the five `set`s do to contents with a `GLOBAL` section: the
      first missing variable section stops them, `[DEFAULT]` and the
      other sections are left alone. */
  lemma SetsOutcome(c: Ini.Contents, t: string, product: string)
    requires Ini.WellFormed(c) && t in KnownSensors && "GLOBAL" in c.sections
    ensures var r := Sets(c, t, product);
      r.0.defaults == c.defaults && r.0.sections.Keys == c.sections.Keys &&
      (forall x :: x in c.sections && x !in {"GLOBAL", "SM", "SM_UNCERTAINTY"} ==> r.0.sections[x] == c.sections[x]) &&
      r.0.sections["GLOBAL"].values == c.sections["GLOBAL"].values["product" := product] &&
      ("SM" !in c.sections ==> r.1 == Some(Ini.NoSectionError("SM"))) &&
      ("SM" in c.sections ==>
        r.0.sections["SM"].values == c.sections["SM"].values["full_name" := FullName(t).value]["units" := Units(t).value]) &&
      ("SM" in c.sections && "SM_UNCERTAINTY" !in c.sections ==> r.1 == Some(Ini.NoSectionError("SM_UNCERTAINTY"))) &&
      ("SM" in c.sections && "SM_UNCERTAINTY" in c.sections ==>
        (r.1.None? &&
         r.0.sections["SM_UNCERTAINTY"].values ==
           c.sections["SM_UNCERTAINTY"].values["full_name" := UncertaintyFullName(t).value]["units" := Units(t).value]))
  {
    SetsFrame(c, t, product);
    SetsEffect(c, t, product);
  }

  /** `prod_spec_names(sensortype, subversion, config)`: updates `config`
      in place. */
  method ProdSpecNames(sensortype: string, subversion: string, config: Ini.ConfigParser,
                       expand: (string, map<string, string>) -> string)
    returns (err: Option<LegacyError>)
    modifies config
    requires Ini.WellFormed(config.contents)
    ensures (config.contents, err) == ProdSpecNamesIn(old(config.contents), sensortype, subversion, expand)
  {
    var t := Upper(sensortype);
    if t !in KnownSensors {
      return Some(UnknownSensor(t));
    }
    var product := Ini.Get(config.contents, "GLOBAL", "product", ProductVars(t, subversion), expand);
    if product.Failure? {
      return Some(Config(product.error));
    }
    // The first set writes the section just read, and each further
    // option goes to a section the set before it found or reports missing.
    var e := config.Set("GLOBAL", "product", product.value);
    e := config.Set("SM", "full_name", FullName(t).value);
    if e.Some? {
      return Some(Config(e.value));
    }
    e := config.Set("SM", "units", Units(t).value);
    e := config.Set("SM_UNCERTAINTY", "full_name", UncertaintyFullName(t).value);
    if e.Some? {
      return Some(Config(e.value));
    }
    e := config.Set("SM_UNCERTAINTY", "units", Units(t).value);
    return None;
  }

  /** The sensor type is matched whatever its case. */
  lemma ProdSpecNamesIgnoresCase(c: Ini.Contents, sensortype: string, subversion: string,
                                 expand: (string, map<string, string>) -> string)
    requires Ini.WellFormed(c)
    ensures ProdSpecNamesIn(c, sensortype, subversion, expand) == ProdSpecNamesIn(c, Upper(sensortype), subversion, expand)
  {
    UpperIdempotent(sensortype);
  }

  /** Which error `prod_spec_names` raises, and what it has changed by
      then: an unknown sensor type or a `product` that cannot be read
      change nothing; a missing `SM` section comes after `product` was
      written, a missing `SM_UNCERTAINTY` section after `SM` was. */
  lemma ProdSpecNamesErrors(c: Ini.Contents, sensortype: string, subversion: string,
                            expand: (string, map<string, string>) -> string)
    requires Ini.WellFormed(c)
    ensures var r := ProdSpecNamesIn(c, sensortype, subversion, expand);
      Upper(sensortype) !in KnownSensors ==> r == (c, Some(UnknownSensor(Upper(sensortype))))
    ensures var r := ProdSpecNamesIn(c, sensortype, subversion, expand);
      Upper(sensortype) in KnownSensors && "GLOBAL" !in c.sections ==>
        r == (c, Some(Config(Ini.NoSectionError("GLOBAL"))))
    ensures var r := ProdSpecNamesIn(c, sensortype, subversion, expand);
      var t := Upper(sensortype);
      t in KnownSensors && "GLOBAL" in c.sections && "product" !in Ini.Chain(c, "GLOBAL", ProductVars(t, subversion)) ==>
        r == (c, Some(Config(Ini.NoOptionError("product", "GLOBAL"))))
    ensures var r := ProdSpecNamesIn(c, sensortype, subversion, expand);
      var t := Upper(sensortype);
      t in KnownSensors && "GLOBAL" in c.sections && "product" in Ini.Chain(c, "GLOBAL", ProductVars(t, subversion)) ==>
        r.0.defaults == c.defaults && r.0.sections.Keys == c.sections.Keys &&
        r.0.sections["GLOBAL"].values ==
          c.sections["GLOBAL"].values["product" := expand(Ini.Chain(c, "GLOBAL", ProductVars(t, subversion))["product"],
                                                          Ini.Chain(c, "GLOBAL", ProductVars(t, subversion)))] &&
        ("SM" !in c.sections ==> r.1 == Some(Config(Ini.NoSectionError("SM")))) &&
        ("SM" in c.sections && "SM_UNCERTAINTY" !in c.sections ==>
          (r.1 == Some(Config(Ini.NoSectionError("SM_UNCERTAINTY"))) &&
           r.0.sections["SM"].values == c.sections["SM"].values["full_name" := FullName(t).value]["units" := Units(t).value]))
  {
    var t := Upper(sensortype);
    if t in KnownSensors && "GLOBAL" in c.sections {
      var vars := Ini.Chain(c, "GLOBAL", ProductVars(t, subversion));
      if "product" in vars {
        var product := expand(vars["product"], vars);
        assert Ini.Get(c, "GLOBAL", "product", ProductVars(t, subversion), expand) == Success(product);
        SetsOutcome(c, t, product);
      }
    }
  }

  /** A successful `prod_spec_names` needs a known sensor type, a `GLOBAL`
      section with a `product` and both variable sections; it then leaves
      `[DEFAULT]` and every other section as they were, and only changes
      the five options it sets. */
  lemma ProdSpecNamesSuccess(c: Ini.Contents, sensortype: string, subversion: string,
                             expand: (string, map<string, string>) -> string)
    requires Ini.WellFormed(c)
    ensures var r := ProdSpecNamesIn(c, sensortype, subversion, expand);
      var t := Upper(sensortype);
      r.1.None? <==>
        t in KnownSensors && "GLOBAL" in c.sections && "SM" in c.sections && "SM_UNCERTAINTY" in c.sections &&
        "product" in Ini.Chain(c, "GLOBAL", ProductVars(t, subversion))
    ensures var r := ProdSpecNamesIn(c, sensortype, subversion, expand);
      var t := Upper(sensortype);
      r.1.None? ==>
        var vars := Ini.Chain(c, "GLOBAL", ProductVars(t, subversion));
        r.0.defaults == c.defaults && r.0.sections.Keys == c.sections.Keys &&
        (forall s :: s in c.sections && s !in {"GLOBAL", "SM", "SM_UNCERTAINTY"} ==> r.0.sections[s] == c.sections[s]) &&
        r.0.sections["GLOBAL"].values == c.sections["GLOBAL"].values["product" := expand(vars["product"], vars)] &&
        r.0.sections["SM"].values ==
          c.sections["SM"].values["full_name" := FullName(t).value]["units" := Units(t).value] &&
        r.0.sections["SM_UNCERTAINTY"].values ==
          c.sections["SM_UNCERTAINTY"].values["full_name" := UncertaintyFullName(t).value]["units" := Units(t).value]
  {
    var t := Upper(sensortype);
    if t in KnownSensors && "GLOBAL" in c.sections {
      var vars := Ini.Chain(c, "GLOBAL", ProductVars(t, subversion));
      if "product" in vars {
        var product := expand(vars["product"], vars);
        assert Ini.Get(c, "GLOBAL", "product", ProductVars(t, subversion), expand) == Success(product);
        SetsOutcome(c, t, product);
      }
    }
  }

  /** `'esa_cci_sm_v0%i.ini' % version`: one file per version, for every
      sensor type. */
  function Metafile(version: int): (name: string)
    ensures |name| == 17 + |Signed(version)|
    ensures name[..13] == "esa_cci_sm_v0" && name[|name| - 4..] == ".ini"
  {
    "esa_cci_sm_v0" + Signed(version) + ".ini"
  }

  /** Different versions have different metadata files. */
  lemma MetafileInjective(v: int, w: int)
    requires Metafile(v) == Metafile(w)
    ensures v == w
  {
    var n := |Signed(v)|;
    assert |Signed(w)| == n;
    assert Signed(v) == Metafile(v)[13..13 + n];
    assert Signed(w) == Metafile(w)[13..13 + n];
    ParseIntSigned(v);
    ParseIntSigned(w);
  }

  /** `config.items(var.upper())`. */
  function VarMeta(c: Ini.Contents, name: string, expand: (string, map<string, string>) -> string): Result<Dict<string>, Ini.ConfigError>
    requires Ini.WellFormed(c)
  {
    Ini.Items(c, Upper(name), expand)
  }

  /** `var_meta` after the loop: `items(var.upper())` per name, in order
      of first occurrence; the first missing section raises. */
  function VarMetas(c: Ini.Contents, names: seq<string>, expand: (string, map<string, string>) -> string): Result<Dict<Dict<string>>, Ini.ConfigError>
    requires Ini.WellFormed(c)
  {
    PutAll(names, (name: string) => VarMeta(c, name, expand))
  }

  /** The loop fails exactly when a name's upper-cased section is missing,
      and then with the error of the first such name. */
  lemma VarMetasFailure(c: Ini.Contents, names: seq<string>, expand: (string, map<string, string>) -> string)
    requires Ini.WellFormed(c)
    ensures VarMetas(c, names, expand).Failure? <==>
      exists i :: 0 <= i < |names| && Upper(names[i]) != Ini.DefaultSection && Upper(names[i]) !in c.sections
    ensures VarMetas(c, names, expand).Failure? ==>
      exists i :: 0 <= i < |names| && Upper(names[i]) != Ini.DefaultSection && Upper(names[i]) !in c.sections &&
        VarMetas(c, names, expand).error == Ini.NoSectionError(Upper(names[i])) &&
        forall j :: 0 <= j < i ==> Upper(names[j]) == Ini.DefaultSection || Upper(names[j]) in c.sections
  {
    PutAllOutcome(names, (name: string) => VarMeta(c, name, expand));
  }

  /** What `read_metadata` returns: the file for the version, updated by
      `prod_spec_names`, then its `GLOBAL` items and each variable's. */
  function Metadata(sensortype: string, version: int, varnames: seq<string>, subversion: string,
                    files: map<string, Ini.Contents>, expand: (string, map<string, string>) -> string)
    : (r: Result<(Dict<string>, Dict<Dict<string>>), LegacyError>)
    requires forall f :: f in files ==> Ini.WellFormed(files[f])
    ensures Metafile(version) !in files ==> r == Failure(MissingMetafile(Metafile(version)))
    ensures r.Success? ==> (Metafile(version) in files &&
      var p := ProdSpecNamesIn(files[Metafile(version)], sensortype, subversion, expand);
      p.1.None? && Ini.Items(p.0, "GLOBAL", expand) == Success(r.value.0) &&
      VarMetas(p.0, varnames, expand) == Success(r.value.1))
  {
    var name := Metafile(version);
    if name !in files then Failure(MissingMetafile(name))
    else
      var p := ProdSpecNamesIn(files[name], sensortype, subversion, expand);
      if p.1.Some? then Failure(p.1.value)
      else
        match Ini.Items(p.0, "GLOBAL", expand)
        case Failure(e) => Failure(Config(e))
        case Success(g) =>
          match VarMetas(p.0, varnames, expand)
          case Failure(e) => Failure(Config(e))
          case Success(m) => Success((g, m))
  }

  /** `read_metadata(sensortype, version, varnames, subversion)`. */
  method ReadMetadata(sensortype: string, version: int, varnames: seq<string>, subversion: string,
                      files: map<string, Ini.Contents>, expand: (string, map<string, string>) -> string)
    returns (r: Result<(Dict<string>, Dict<Dict<string>>), LegacyError>)
    requires forall f :: f in files ==> Ini.WellFormed(files[f])
    ensures r == Metadata(sensortype, version, varnames, subversion, files, expand)
  {
    var name := Metafile(version);
    if name !in files {
      return Failure(MissingMetafile(name));
    }
    var config := new Ini.ConfigParser(files[name]);
    var err := ProdSpecNames(sensortype, subversion, config, expand);
    if err.Some? {
      return Failure(err.value);
    }
    var c := config.contents;
    var globalMeta := Ini.Items(c, "GLOBAL", expand);
    if globalMeta.Failure? {
      return Failure(Config(globalMeta.error));
    }
    var varMeta := CollectVarMetas(c, varnames, expand);
    if varMeta.Failure? {
      return Failure(Config(varMeta.error));
    }
    return Success((globalMeta.value, varMeta.value));
  }

  /** The loop of `read_metadata` over the variable names: each name's
      upper-cased section, stored under the name; the first missing
      section ends the loop. */
  method CollectVarMetas(c: Ini.Contents, varnames: seq<string>, expand: (string, map<string, string>) -> string)
    returns (r: Result<Dict<Dict<string>>, Ini.ConfigError>)
    requires Ini.WellFormed(c)
    ensures r == VarMetas(c, varnames, expand)
  {
    var varMeta: Dict<Dict<string>> := Empty();
    var i := 0;
    while i < |varnames|
      invariant 0 <= i <= |varnames|
      invariant VarMetas(c, varnames[..i], expand) == Success(varMeta)
    {
      var m := Ini.Items(c, Upper(varnames[i]), expand);
      assert varnames[..i + 1][..i] == varnames[..i];
      if m.Failure? {
        PutAllPrefixFailure(varnames, i + 1, (name: string) => VarMeta(c, name, expand));
        return Failure(m.error);
      }
      varMeta := Put(varMeta, varnames[i], m.value);
      i := i + 1;
    }
    assert varnames[..i] == varnames;
    return Success(varMeta);
  }

  /** Reading the metadata of a variable whose section is `SM` gives the
      full name and units of the sensor type, interpolated like every
      other option. */
  lemma MetadataNamesSensor(sensortype: string, version: int, varnames: seq<string>, subversion: string,
                            files: map<string, Ini.Contents>, expand: (string, map<string, string>) -> string, k: string)
    requires forall f :: f in files ==> Ini.WellFormed(files[f])
    requires Metadata(sensortype, version, varnames, subversion, files, expand).Success?
    requires k in varnames && Upper(k) == "SM"
    ensures Upper(sensortype) in KnownSensors
    ensures "SM" in ProdSpecNamesIn(files[Metafile(version)], sensortype, subversion, expand).0.sections
    ensures var attrs := Metadata(sensortype, version, varnames, subversion, files, expand).value.1;
      var p := ProdSpecNamesIn(files[Metafile(version)], sensortype, subversion, expand).0;
      k in attrs.values && "units" in attrs.values[k].values && "full_name" in attrs.values[k].values &&
      attrs.values[k].values["units"] == expand(Units(Upper(sensortype)).value, Ini.Merged(p, "SM").values) &&
      attrs.values[k].values["full_name"] == expand(FullName(Upper(sensortype)).value, Ini.Merged(p, "SM").values)
  {
    var c := files[Metafile(version)];
    var t := Upper(sensortype);
    ProdSpecNamesSuccess(c, sensortype, subversion, expand);
    var p := ProdSpecNamesIn(c, sensortype, subversion, expand).0;
    var attrs := Metadata(sensortype, version, varnames, subversion, files, expand).value.1;
    assert VarMetas(p, varnames, expand) == Success(attrs);
    PutAllContents(varnames, (name: string) => VarMeta(p, name, expand));
    assert k in attrs.values;
    var own := p.sections["SM"].values;
    assert own == c.sections["SM"].values["full_name" := FullName(t).value]["units" := Units(t).value];
    ItemsOwnOption(p, "SM", "units", attrs.values[k], expand);
    ItemsOwnOption(p, "SM", "full_name", attrs.values[k], expand);
  }

  /** An option a section sets itself is listed by `items` with its own
      value, interpolated. */
  lemma ItemsOwnOption(p: Ini.Contents, section: string, option: string, d: Dict<string>,
                       expand: (string, map<string, string>) -> string)
    requires Ini.WellFormed(p) && section in p.sections && option in p.sections[section].values
    requires Ini.Items(p, section, expand) == Success(d)
    ensures option in d.values &&
      d.values[option] == expand(p.sections[section].values[option], Ini.Merged(p, section).values)
  {
    var merged := Ini.Merged(p, section);
    Ini.MergedSpec(p, section);
    assert merged.values[option] == p.sections[section].values[option];
    assert option in SetOf(merged.keys);
  }

  /** Everything the older `reshuffle` passes to the converter, besides
      the dataset and the paths; the grid is given by its coordinates. */
  datatype LegacyConfig = LegacyConfig(
    parameters: seq<string>,
    gridLon: ImageModel.Array<int>,
    gridLat: ImageModel.Array<int>,
    startdate: Dates.DateTime,
    enddate: Dates.DateTime,
    imgbuffer: nat,
    cellsizeLat: real,
    cellsizeLon: real,
    zlib: bool,
    unlimChunksize: nat,
    globalAttr: Dict<string>,
    tsAttributes: Option<Dict<Dict<string>>>)

  /** `reshuffle`: the grid is built from the coordinates of the image
      read at the start date; then either the bare product attribute or
      the metadata, without a time coverage. */
  method Reshuffle<T, A>(fileArgs: ReshuffleCurrent.FileArgs, fileVars: seq<string>,
                         startdate: Dates.DateTime, enddate: Dates.DateTime,
                         parameters: Option<seq<string>>, ignoreMeta: bool, imgbuffer: nat,
                         startImage: ImageModel.Image<T, A>,
                         files: map<string, Ini.Contents>, expand: (string, map<string, string>) -> string)
    returns (r: Result<LegacyConfig, LegacyError>)
    requires forall f :: f in files ==> Ini.WellFormed(files[f])
    ensures r.Success? ==>
      r.value.parameters == (if parameters.None? then ReshuffleCurrent.DefaultParameters(fileVars) else parameters.value) &&
      r.value.gridLon == startImage.lon && r.value.gridLat == startImage.lat &&
      r.value.startdate == startdate && r.value.enddate == enddate && r.value.imgbuffer == imgbuffer &&
      r.value.cellsizeLat == 5.0 && r.value.cellsizeLon == 5.0 && r.value.zlib && r.value.unlimChunksize == 1000
    ensures ignoreMeta ==> r.Success? && r.value.globalAttr == ReshuffleCurrent.ProductOnly() && r.value.tsAttributes == None
    ensures !ignoreMeta && ParseInt(fileArgs.version).None? ==> r == Failure(NotAnInteger(fileArgs.version))
    ensures !ignoreMeta && ParseInt(fileArgs.version).Some? ==>
      var m := Metadata(fileArgs.sensorType, ParseInt(fileArgs.version).value,
                        if parameters.None? then ReshuffleCurrent.DefaultParameters(fileVars) else parameters.value,
                        fileArgs.subVersion, files, expand);
      (r.Success? <==> m.Success?) &&
      (r.Failure? ==> r.error == m.error) &&
      (r.Success? ==> r.value.globalAttr == m.value.0 && r.value.tsAttributes == Some(m.value.1))
  {
    var params := if parameters.None? then ReshuffleCurrent.DefaultParameters(fileVars) else parameters.value;
    var globalAttr: Dict<string>;
    var tsAttributes: Option<Dict<Dict<string>>>;
    if !ignoreMeta {
      var version := ParseInt(fileArgs.version);
      if version.None? {
        return Failure(NotAnInteger(fileArgs.version));
      }
      var meta := ReadMetadata(fileArgs.sensorType, version.value, params, fileArgs.subVersion, files, expand);
      if meta.Failure? {
        return Failure(meta.error);
      }
      globalAttr := meta.value.0;
      tsAttributes := Some(meta.value.1);
    } else {
      globalAttr := ReshuffleCurrent.ProductOnly();
      tsAttributes := None;
    }
    r := Success(LegacyConfig(params, startImage.lon, startImage.lat, startdate, enddate, imgbuffer,
                              5.0, 5.0, true, 1000, globalAttr, tsAttributes));
  }

  /** The grid the older `reshuffle` builds from a 1-D image of the older
      reader is the package's global grid: point `g` at the longitude of
      column `g mod 1440` and the latitude of row `g div 1440`, counted
      from the south. */
  lemma ReshuffleGridIsGlobal<V, A>(reader: LegacyImage.Reader, f: ImageModel.File<V, A>, timestamp: Option<int>,
                                    img: ImageModel.Image<LegacyImage.MaskedArray<V>, A>, g: int)
    requires reader.grid == Grid.CCI025Cellgrid() && reader.array1D
    requires LegacyImage.GridShaped(reader.grid)
    requires LegacyImage.AllExtractable(LegacyImage.FirstLayerFlipped, reader, f)
    requires LegacyImage.IsImageOf(LegacyImage.FirstLayerFlipped, reader, f, timestamp, img)
    requires 0 <= g < Grid.NPoints
    ensures img.lon.Array1? && img.lat.Array1?
    ensures |img.lon.items| == |img.lat.items| == Grid.NPoints
    ensures img.lon.items[g] == Grid.Lon8(Grid.Col(g)) && img.lat.items[g] == Grid.Lat8(Grid.Row(g))
  {
    Grid.CellGridLayout();
  }
}
