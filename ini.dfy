/** The parts of Python's `configparser` the metadata code relies on: the
    contents of a parsed `.ini` file, `items`, `get` and `set`. Reading
    and parsing the file is not modelled: a parser starts from given
    contents. Option names are used as given (the current package sets
    `optionxform = str`; the older package only uses lower-case names).
    Interpolation, which only `ConfigParser` performs, is a parameter:
    `expand(value, lookup)` is the value as `get`/`items` return it. */
module Ini {
  import opened Common
  import opened Dicts

  const DefaultSection: string := "DEFAULT"

  datatype ConfigError = NoSectionError(section: string) | NoOptionError(option: string, section: string)

  /** The `[DEFAULT]` options and the other sections, each in file order. */
  datatype Contents = Contents(defaults: Dict<string>, sections: map<string, Dict<string>>)

  /** A section header names at least one character, and `[DEFAULT]`
      fills the defaults rather than a section. */
  predicate WellFormed(c: Contents)
  {
    Dicts.Valid(c.defaults) && "" !in c.sections && DefaultSection !in c.sections &&
    forall s :: s in c.sections ==> Dicts.Valid(c.sections[s])
  }

  /** The raw option values visible in a section: `[DEFAULT]` first, then
      the section's own options, the section winning. */
  function Merged(c: Contents, section: string): (d: Dict<string>)
    requires WellFormed(c)
    requires section == DefaultSection || section in c.sections
    ensures Dicts.Valid(d)
  {
    if section in c.sections then Update(c.defaults, c.sections[section]) else c.defaults
  }

  /** `items(section)`: every visible option with its interpolated value.
      A section that does not exist, other than `DEFAULT`, is a
      `NoSectionError`. */
  function Items(c: Contents, section: string, expand: (string, map<string, string>) -> string): (r: Result<Dict<string>, ConfigError>)
    requires WellFormed(c)
    ensures r.Failure? <==> section != DefaultSection && section !in c.sections
    ensures r.Failure? ==> r.error == NoSectionError(section)
    ensures r.Success? ==> Dicts.Valid(r.value)
    ensures r.Success? ==> r.value.keys == Merged(c, section).keys
    ensures r.Success? ==> forall k :: k in r.value.values ==>
      r.value.values[k] == expand(Merged(c, section).values[k], Merged(c, section).values)
  {
    if section != DefaultSection && section !in c.sections then Failure(NoSectionError(section))
    else
      var d := Merged(c, section);
      Success(MapValues(d, (v: string) => expand(v, d.values)))
  }

  /** The order and the raw values `items` is built from. */
  lemma MergedSpec(c: Contents, section: string)
    requires WellFormed(c) && section in c.sections
    ensures Merged(c, section).keys == c.defaults.keys + Without(c.sections[section].keys, c.defaults.keys)
    ensures Merged(c, section).values == c.defaults.values + c.sections[section].values
  {
    UpdateSpec(c.defaults, c.sections[section]);
  }

  /** The lookup of `get`: the given `vars` first, then the section, then
      `[DEFAULT]`. */
  function Chain(c: Contents, section: string, vars: map<string, string>): (m: map<string, string>)
    requires WellFormed(c)
  {
    var own := if section in c.sections then c.sections[section].values else map[];
    c.defaults.values + own + vars
  }

  /** `get(section, option, raw=0, vars)`, Python 2's signature. */
  function Get(c: Contents, section: string, option: string, vars: map<string, string>,
               expand: (string, map<string, string>) -> string): (r: Result<string, ConfigError>)
    requires WellFormed(c)
    ensures section != DefaultSection && section !in c.sections ==> r == Failure(NoSectionError(section))
    ensures (section == DefaultSection || section in c.sections) ==>
      (r.Success? <==> option in Chain(c, section, vars)) &&
      (r.Failure? ==> r.error == NoOptionError(option, section))
    ensures r.Success? ==> r.value == expand(Chain(c, section, vars)[option], Chain(c, section, vars))
  {
    if section != DefaultSection && section !in c.sections then Failure(NoSectionError(section))
    else
      var d := Chain(c, section, vars);
      if option in d then Success(expand(d[option], d)) else Failure(NoOptionError(option, section))
  }

  /** Without `vars`, `get` returns what `items` lists for the option. */
  lemma GetAgreesWithItems(c: Contents, section: string, option: string, expand: (string, map<string, string>) -> string)
    requires WellFormed(c) && (section == DefaultSection || section in c.sections)
    ensures Get(c, section, option, map[], expand).Success? <==> option in Items(c, section, expand).value.values
    ensures option in Items(c, section, expand).value.values ==>
      Get(c, section, option, map[], expand).value == Items(c, section, expand).value.values[option]
  {
    if section in c.sections {
      MergedSpec(c, section);
    }
    assert Chain(c, section, map[]) == Merged(c, section).values;
  }

  /** `set(section, option, value)`: an empty section name or `DEFAULT`
      writes `[DEFAULT]`; another section must exist. */
  function SetIn(c: Contents, section: string, option: string, value: string): (r: Result<Contents, ConfigError>)
    requires WellFormed(c)
    ensures r.Success? ==> WellFormed(r.value)
    ensures r.Failure? <==> section != "" && section != DefaultSection && section !in c.sections
    ensures r.Failure? ==> r.error == NoSectionError(section)
    ensures r.Success? && (section == "" || section == DefaultSection) ==>
      r.value == c.(defaults := Put(c.defaults, option, value))
    ensures r.Success? && section != "" && section != DefaultSection ==>
      r.value == c.(sections := c.sections[section := Put(c.sections[section], option, value)])
  {
    if section == "" || section == DefaultSection then
      Success(c.(defaults := Put(c.defaults, option, value)))
    else if section in c.sections then
      Success(c.(sections := c.sections[section := Put(c.sections[section], option, value)]))
    else Failure(NoSectionError(section))
  }

  /** After a `set`, `get` of that option in that section (without
      `vars`) sees the new value, and the other sections keep theirs. */
  lemma SetThenGet(c: Contents, section: string, option: string, value: string,
                   expand: (string, map<string, string>) -> string)
    requires WellFormed(c) && section in c.sections
    ensures SetIn(c, section, option, value).Success?
    ensures var c' := SetIn(c, section, option, value).value;
      Get(c', section, option, map[], expand) == Success(expand(value, Chain(c', section, map[])))
    ensures var c' := SetIn(c, section, option, value).value;
      forall s :: s in c.sections && s != section ==> Items(c', s, expand) == Items(c, s, expand)
  {
    SetThenChain(c, section, option, value);
    forall s | s in c.sections && s != section
      ensures Items(SetIn(c, section, option, value).value, s, expand) == Items(c, s, expand)
    {
      SetKeepsOther(c, section, option, value, s, expand);
    }
  }

  lemma SetThenChain(c: Contents, section: string, option: string, value: string)
    requires WellFormed(c) && section in c.sections
    ensures SetIn(c, section, option, value).Success?
    ensures var d := Chain(SetIn(c, section, option, value).value, section, map[]);
      option in d && d[option] == value
  {
    var c' := SetIn(c, section, option, value).value;
    assert c'.sections[section].values[option] == value;
    var d := Chain(c', section, map[]);
    assert d == c'.defaults.values + c'.sections[section].values;
  }

  lemma SetKeepsOther(c: Contents, section: string, option: string, value: string, s: string,
                      expand: (string, map<string, string>) -> string)
    requires WellFormed(c) && section in c.sections && s in c.sections && s != section
    ensures SetIn(c, section, option, value).Success?
    ensures Items(SetIn(c, section, option, value).value, s, expand) == Items(c, s, expand)
  {
    var c' := SetIn(c, section, option, value).value;
    assert c'.defaults == c.defaults && c'.sections[s] == c.sections[s];
    assert Merged(c', s) == Merged(c, s);
  }

  /** A `configparser` object: its contents change in place under `set`. */
  class ConfigParser {
    var contents: Contents

    /** A parser holding what `read` loaded from a file. */
    constructor(c: Contents)
      ensures contents == c
    {
      contents := c;
    }

    method Set(section: string, option: string, value: string) returns (err: Option<ConfigError>)
      modifies this
      requires WellFormed(contents)
      ensures WellFormed(contents)
      ensures SetIn(old(contents), section, option, value).Success? ==>
        err == None && contents == SetIn(old(contents), section, option, value).value
      ensures SetIn(old(contents), section, option, value).Failure? ==>
        err == Some(SetIn(old(contents), section, option, value).error) && contents == old(contents)
    {
      if section == "" || section == DefaultSection {
        contents := contents.(defaults := Put(contents.defaults, option, value));
        err := None;
      } else if section in contents.sections {
        var updated := Put(contents.sections[section], option, value);
        contents := contents.(sections := contents.sections[section := updated]);
        err := None;
      } else {
        err := Some(NoSectionError(section));
      }
    }
  }
}
