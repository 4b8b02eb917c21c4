/** What an image reader sees of an opened NetCDF file and what it hands
    back. Values are abstract (`V`), attribute values too (`A`); a stored
    value is either present or masked out. */
module ImageModel {
  import opened Common

  /** One entry of a numpy masked array. */
  datatype Reading<V> = Masked | Present(value: V)

  /** A variable of a file: its attributes and its data, a stack of
      `rows` by `cols` rasters along the leading (time) axis. `floating`
      says whether the element type can hold NaN; `defaultFill` is the
      fill value of the masked array netCDF returns for it, taken from the
      variable's `_FillValue` attribute. */
  datatype Variable<V, A> = Variable(
    attrs: map<string, A>,
    layers: seq<seq<seq<Reading<V>>>>,
    rows: nat,
    cols: nat,
    floating: bool,
    defaultFill: V)

  /** An opened file: its variables in stored order. */
  datatype File<V, A> = File(vars: seq<(string, Variable<V, A>)>)

  /** NetCDF arrays are rectangular: every layer has the declared shape. */
  predicate WellShaped<V, A>(v: Variable<V, A>)
  {
    forall t :: 0 <= t < |v.layers| ==> |v.layers[t]| == v.rows && Rectangular(v.layers[t], v.cols)
  }

  /** Variable names of a file are distinct (they are dictionary keys) and
      every variable is well shaped. */
  predicate ValidFile<V, A>(f: File<V, A>)
  {
    (forall i, j :: 0 <= i < j < |f.vars| ==> f.vars[i].0 != f.vars[j].0) &&
    (forall i :: 0 <= i < |f.vars| ==> WellShaped(f.vars[i].1))
  }

  /** Names of the variables at positions below `n` that are in `wanted`. */
  function NamesWhere<V, A>(f: File<V, A>, n: nat, wanted: set<string>): set<string>
    requires n <= |f.vars|
  {
    set j | 0 <= j < n && f.vars[j].0 in wanted :: f.vars[j].0
  }

  /** An output array: flat (one entry per active point) or 2-D. */
  datatype Array<T> = Array1(items: seq<T>) | Array2(rows: seq<seq<T>>)

  /** `pygeobase.object_base.Image`: coordinates, data and metadata per
      parameter name, and the timestamp it was read for. Coordinates are in
      eighth-degrees; `D` is what a reader stores per parameter. */
  datatype Image<D, A> = Image(
    lon: Array<int>,
    lat: Array<int>,
    data: map<string, D>,
    metadata: map<string, map<string, A>>,
    timestamp: Option<int>)

  /** Exceptions a read can raise: the file cannot be opened, a selected
      variable has no first layer or too few points for the grid, or a
      reshape does not fit. */
  datatype ReadError = IOError(filename: string) | IndexError(parameter: string) | ValueError

  /** The attributes kept by the older readers. */
  function KeepNameAndUnits<A>(attrs: map<string, A>): (r: map<string, A>)
    ensures r.Keys == attrs.Keys * {"long_name", "units"}
    ensures forall k :: k in r ==> r[k] == attrs[k]
  {
    map k | k in attrs && k in {"long_name", "units"} :: attrs[k]
  }
}
