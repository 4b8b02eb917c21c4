/** `CCI_SM_025Img` of the current package: reads one image file into
    arrays addressed by the points of a (possibly land-only) grid, with
    masked values filled with NaN. */
module CciImage {
  import opened Common
  import opened ImageModel

  /** The `parameter` argument: one name, a list of names, or None. */
  datatype ParameterArg = OneName(name: string) | NameList(names: seq<string>) | NoParameter

  /** The grid the reader addresses points with: active point ids in their
      storage order, their coordinates (eighth-degrees) and the 2-D shape. */
  datatype SubGrid = SubGrid(activegpis: seq<int>, activearrlon: seq<int>, activearrlat: seq<int>, shape: (nat, nat))

  /** This reader's missing-value convention: NaN where the element type
      has one. */
  datatype Datum<V> = NaN | Num(value: V)

  datatype Reader = Reader(filename: string, parameters: Option<seq<string>>, grid: SubGrid, array1D: bool)

  /** Names that are never read unless asked for explicitly. */
  const Coordinates: seq<string> := ["time", "lat", "lon"]

  /** `__init__`: a single name becomes a one-element list, a list or None
      is kept; without a subgrid the reader uses the package's cell grid,
      which is passed in here. */
  function NewReader(filename: string, parameter: ParameterArg, subgrid: Option<SubGrid>,
                     defaultGrid: SubGrid, array1D: bool): (r: Reader)
    ensures r.filename == filename && r.array1D == array1D
    ensures parameter.OneName? ==> r.parameters == Some([parameter.name])
    ensures parameter.NameList? ==> r.parameters == Some(parameter.names)
    ensures parameter.NoParameter? <==> r.parameters.None?
    ensures r.grid == if subgrid.Some? then subgrid.value else defaultGrid
  {
    var parameters := match parameter
      case OneName(name) => Some([name])
      case NameList(names) => Some(names)
      case NoParameter => None;
    Reader(filename, parameters, if subgrid.None? then defaultGrid else subgrid.value, array1D)
  }

  /** The file's variable names in stored order. */
  function Names<V, A>(f: File<V, A>): (r: seq<string>)
    ensures |r| == |f.vars| && forall i :: 0 <= i < |f.vars| ==> r[i] == f.vars[i].0
  {
    seq(|f.vars|, (i: int) requires 0 <= i < |f.vars| => f.vars[i].0)
  }

  /** `param_names`: the requested names, or every variable of the file
      except the coordinates. */
  function ParamNames<V, A>(parameters: Option<seq<string>>, f: File<V, A>): seq<string>
  {
    if parameters.None? then Without(Names(f), Coordinates) else parameters.value
  }

  /** Without a parameter list, exactly the non-coordinate variables are
      read. */
  lemma DefaultSelection<V, A>(f: File<V, A>, j: int)
    requires 0 <= j < |f.vars|
    ensures f.vars[j].0 in ParamNames(None, f) <==> f.vars[j].0 !in Coordinates
  {
    WithoutMembers(Names(f), Coordinates);
    assert Names(f)[j] == f.vars[j].0;
  }

  /** numpy's `filled`: a masked entry becomes NaN when the element type is
      floating; for other types that raises TypeError, which is caught, and
      the array's own fill value is used, which netCDF sets from the
      variable's `_FillValue` attribute. */
  function FillEntry<V, A>(v: Variable<V, A>, x: Reading<V>): Datum<V>
  {
    match x
    case Present(y) => Num(y)
    case Masked => if v.floating then NaN else Num(v.defaultFill)
  }

  /** Filling is applied only when some entry is masked
      (`np.ma.is_masked`). */
  function Decode<V, A>(v: Variable<V, A>, flat: seq<Reading<V>>): seq<Datum<V>>
  {
    if exists i :: 0 <= i < |flat| && flat[i].Masked? then
      seq(|flat|, (i: int) requires 0 <= i < |flat| => FillEntry(v, flat[i]))
    else
      seq(|flat|, (i: int) requires 0 <= i < |flat| && flat[i].Present? => Num(flat[i].value))
  }

  /** Masked entries come out as the missing value, unmasked ones
      unchanged, whether or not the masked-test branch is taken. */
  lemma DecodeAt<V, A>(v: Variable<V, A>, flat: seq<Reading<V>>, i: int)
    requires 0 <= i < |flat|
    ensures |Decode(v, flat)| == |flat|
    ensures Decode(v, flat)[i] == FillEntry(v, flat[i])
    ensures flat[i].Present? ==> Decode(v, flat)[i] == Num(flat[i].value)
    ensures flat[i].Masked? ==> Decode(v, flat)[i] == if v.floating then NaN else Num(v.defaultFill)
  {
  }

  /** Layer 0 upside down, flattened: `flipud(param_data[0,:,:]).flatten()`. */
  function Flipped<V, A>(v: Variable<V, A>): seq<Reading<V>>
    requires |v.layers| > 0
  {
    Flatten(Reverse(v.layers[0]))
  }

  /** A variable can be read onto the grid: it has a first layer and every
      active point id indexes into it. */
  predicate Extractable<V, A>(v: Variable<V, A>, grid: SubGrid)
  {
    |v.layers| > 0 && InRange(grid.activegpis, |Flipped(v)|)
  }

  /** The 1-D array stored for a variable: one value per active point. */
  function Extract1D<V, A>(v: Variable<V, A>, grid: SubGrid): seq<Datum<V>>
    requires Extractable(v, grid)
  {
    Gather(Decode(v, Flipped(v)), grid.activegpis)
  }

  /** The 2-D array stored for a variable: reshaped to the grid shape,
      then rows reversed. */
  function Extract2D<V, A>(v: Variable<V, A>, grid: SubGrid): seq<seq<Datum<V>>>
    requires Extractable(v, grid)
    requires |grid.activegpis| == grid.shape.0 * grid.shape.1
  {
    Reverse(Reshape(Extract1D(v, grid), grid.shape.0, grid.shape.1))
  }

  /** Entry k of the 1-D array is layer 0 at row R - 1 - (g div C), column
      g mod C, where g is the k-th active point id, with masked entries
      filled. */
  lemma Extract1DAt<V, A>(v: Variable<V, A>, grid: SubGrid, k: int)
    requires WellShaped(v) && |v.layers| > 0
    requires 0 <= k < |grid.activegpis|
    requires forall m :: 0 <= m < |grid.activegpis| ==> 0 <= grid.activegpis[m] < v.rows * v.cols
    ensures Extractable(v, grid)
    ensures var g := grid.activegpis[k];
      0 <= v.rows - 1 - g / v.cols < v.rows && 0 <= g % v.cols < v.cols &&
      |Extract1D(v, grid)| == |grid.activegpis| &&
      Extract1D(v, grid)[k] == FillEntry(v, v.layers[0][v.rows - 1 - g / v.cols][g % v.cols])
  {
    var layer := v.layers[0];
    var flipped := Reverse(layer);
    ReverseLength(layer);
    assert Rectangular(flipped, v.cols) by {
      forall r | 0 <= r < |flipped|
        ensures |flipped[r]| == v.cols
      {
        ReverseAt(layer, r);
      }
    }
    FlattenLength(flipped, v.cols);
    var g := grid.activegpis[k];
    DivModSplit(g, v.rows, v.cols);
    var row, col := g / v.cols, g % v.cols;
    FlattenAt(flipped, v.cols, row, col);
    ReverseAt(layer, row);
    DecodeAt(v, Flipped(v), g);
  }

  /** 2-D position (r, c) holds the 1-D entry of point r * C + c counted
      from the last row: reshaping followed by the row flip. */
  lemma Extract2DAt<V, A>(v: Variable<V, A>, grid: SubGrid, r: int, c: int)
    requires Extractable(v, grid)
    requires |grid.activegpis| == grid.shape.0 * grid.shape.1
    requires 0 <= r < grid.shape.0 && 0 <= c < grid.shape.1
    ensures |Extract2D(v, grid)| == grid.shape.0 && |Extract2D(v, grid)[r]| == grid.shape.1
    ensures (grid.shape.0 - 1 - r) * grid.shape.1 + c < |Extract1D(v, grid)|
    ensures Extract2D(v, grid)[r][c] == Extract1D(v, grid)[(grid.shape.0 - 1 - r) * grid.shape.1 + c]
  {
    var (rows, cols) := grid.shape;
    var m := Reshape(Extract1D(v, grid), rows, cols);
    ReverseAt(m, r);
    ReshapeAt(Extract1D(v, grid), rows, cols, rows - 1 - r, c);
  }

  /** On a grid of every point in storage order with the variable's own
      shape, the 2-D array is the first layer as stored, with masked
      entries filled: the flip on reading and the flip on output cancel. */
  lemma FullGrid2DAt<V, A>(v: Variable<V, A>, grid: SubGrid, r: int, c: int)
    requires WellShaped(v) && |v.layers| > 0
    requires grid.activegpis == Identity(v.rows * v.cols) && grid.shape == (v.rows, v.cols)
    requires 0 <= r < v.rows && 0 <= c < v.cols
    ensures Extractable(v, grid)
    ensures |Extract2D(v, grid)| == v.rows && |Extract2D(v, grid)[r]| == v.cols
    ensures Extract2D(v, grid)[r][c] == FillEntry(v, v.layers[0][r][c])
  {
    var row := v.rows - 1 - r;
    var g := row * v.cols + c;
    MulBound(row, c, v.rows, v.cols);
    DivModOf(row, c, v.cols);
    Extract1DAt(v, grid, g);
    Extract2DAt(v, grid, r, c);
  }

  /** The selected variables of the file: those named in `param_names`. */
  function Selected<V, A>(reader: Reader, f: File<V, A>): set<string>
  {
    NamesWhere(f, |f.vars|, SetOf(ParamNames(reader.parameters, f)))
  }

  /** Reshaping to the grid shape fits the arrays that are reshaped. */
  predicate ShapeFits<V, A>(reader: Reader, f: File<V, A>)
  {
    var n := reader.grid.shape.0 * reader.grid.shape.1;
    (Selected(reader, f) == {} || |reader.grid.activegpis| == n) &&
    |reader.grid.activearrlon| == n && |reader.grid.activearrlat| == n
  }

  /** `read` returns an image exactly when every selected variable can be
      extracted and, in 2-D mode, the shapes fit. */
  predicate ReadSucceeds<V, A>(reader: Reader, f: File<V, A>)
  {
    (forall j :: 0 <= j < |f.vars| && f.vars[j].0 in ParamNames(reader.parameters, f) ==>
      Extractable(f.vars[j].1, reader.grid)) &&
    (reader.array1D || ShapeFits(reader, f))
  }

  /** What a successful `read` returns: the selected variables that occur in
      the file, each with all its attributes and its values on the grid
      (1-D, or reshaped and row-reversed); coordinates from the grid, only
      latitude row-reversed in 2-D. */
  ghost predicate IsImageOf<V, A>(reader: Reader, f: File<V, A>, timestamp: Option<int>, img: Image<Array<Datum<V>>, A>)
    requires ReadSucceeds(reader, f)
  {
    var grid := reader.grid;
    var (rows, cols) := grid.shape;
    img.timestamp == timestamp &&
    img.data.Keys == Selected(reader, f) &&
    img.metadata.Keys == Selected(reader, f) &&
    (forall j :: 0 <= j < |f.vars| && f.vars[j].0 in ParamNames(reader.parameters, f) ==>
      var (name, v) := f.vars[j];
      name in img.data && name in img.metadata &&
      img.metadata[name] == v.attrs &&
      img.data[name] == if reader.array1D then Array1(Extract1D(v, grid))
                        else Array2(Extract2D(v, grid))) &&
    if reader.array1D then
      img.lon == Array1(grid.activearrlon) && img.lat == Array1(grid.activearrlat)
    else
      img.lon == Array2(Reshape(grid.activearrlon, rows, cols)) &&
      img.lat == Array2(Reverse(Reshape(grid.activearrlat, rows, cols)))
  }

  /** All selected variables can be extracted. */
  predicate AllExtractable<V, A>(reader: Reader, f: File<V, A>)
  {
    forall j :: 0 <= j < |f.vars| && f.vars[j].0 in ParamNames(reader.parameters, f) ==>
      Extractable(f.vars[j].1, reader.grid)
  }

  /** The 1-D dictionaries `return_img` and `return_metadata` after the loop
      over the file's variables, with the keys in insertion order. */
  ghost predicate Collected<V, A>(reader: Reader, f: File<V, A>, data: map<string, Array<Datum<V>>>,
                                  metadata: map<string, map<string, A>>, keys: seq<string>)
    requires AllExtractable(reader, f)
  {
    data.Keys == metadata.Keys == SetOf(keys) == Selected(reader, f) &&
    (forall a, b :: 0 <= a < b < |keys| ==> keys[a] != keys[b]) &&
    forall j :: 0 <= j < |f.vars| && f.vars[j].0 in ParamNames(reader.parameters, f) ==>
      data[f.vars[j].0] == Array1(Extract1D(f.vars[j].1, reader.grid)) &&
      metadata[f.vars[j].0] == f.vars[j].1.attrs
  }

  /** The loop of `read` over the file's variables: each selected one is
      flipped, flattened, filled and gathered at the active points, and its
      attributes recorded; the first one that cannot be raises IndexError. */
  method CollectVariables<V, A>(reader: Reader, f: File<V, A>)
    returns (r: Result<(map<string, Array<Datum<V>>>, map<string, map<string, A>>, seq<string>), ReadError>)
    requires ValidFile(f)
    ensures r.Success? <==> AllExtractable(reader, f)
    ensures r.Success? ==> Collected(reader, f, r.value.0, r.value.1, r.value.2)
    ensures r.Failure? ==> r.error.IndexError?
    ensures r.Failure? ==> exists j :: FirstUnreadable(reader, f, j) && f.vars[j].0 == r.error.parameter
  {
    var grid := reader.grid;
    var names := ParamNames(reader.parameters, f);
    var data: map<string, Array<Datum<V>>> := map[];
    var metadata: map<string, map<string, A>> := map[];
    var keys: seq<string> := [];
    var i := 0;
    while i < |f.vars|
      invariant 0 <= i <= |f.vars|
      invariant CollectedUpTo(grid, f, names, i, data, metadata, keys)
    {
      var (name, variable) := f.vars[i];
      if name in names {
        if |variable.layers| == 0 {
          assert !Extractable(f.vars[i].1, grid);
          FirstFailure(reader, f, i, data, metadata, keys);
          return Failure(IndexError(name));
        }
        var flat := Decode(variable, Flatten(Reverse(variable.layers[0])));
        if !InRange(grid.activegpis, |flat|) {
          assert !Extractable(f.vars[i].1, grid);
          FirstFailure(reader, f, i, data, metadata, keys);
          return Failure(IndexError(name));
        }
        FreshName(f, i, SetOf(names));
        CollectAdd(grid, f, names, i, data, metadata, keys);
        data := data[name := Array1(Gather(flat, grid.activegpis))];
        metadata := metadata[name := variable.attrs];
        keys := keys + [name];
      } else {
        CollectSkip(grid, f, names, i, data, metadata, keys);
      }
      i := i + 1;
    }
    CollectedAll(reader, f, data, metadata, keys);
    return Success((data, metadata, keys));
  }

  lemma CollectedAll<V, A>(reader: Reader, f: File<V, A>, data: map<string, Array<Datum<V>>>,
                           metadata: map<string, map<string, A>>, keys: seq<string>)
    requires CollectedUpTo(reader.grid, f, ParamNames(reader.parameters, f), |f.vars|, data, metadata, keys)
    ensures AllExtractable(reader, f)
    ensures Collected(reader, f, data, metadata, keys)
  {
  }

  /** Variable `j` is the first selected one that cannot be extracted. */
  predicate FirstUnreadable<V, A>(reader: Reader, f: File<V, A>, j: int)
  {
    var names := ParamNames(reader.parameters, f);
    0 <= j < |f.vars| && f.vars[j].0 in names && !Extractable(f.vars[j].1, reader.grid) &&
    forall k :: 0 <= k < j && f.vars[k].0 in names ==> Extractable(f.vars[k].1, reader.grid)
  }

  lemma FirstFailure<V, A>(reader: Reader, f: File<V, A>, i: nat, data: map<string, Array<Datum<V>>>,
                           metadata: map<string, map<string, A>>, keys: seq<string>)
    requires i < |f.vars|
    requires CollectedUpTo(reader.grid, f, ParamNames(reader.parameters, f), i, data, metadata, keys)
    requires f.vars[i].0 in ParamNames(reader.parameters, f) && !Extractable(f.vars[i].1, reader.grid)
    ensures FirstUnreadable(reader, f, i)
  {
    forall k | 0 <= k < i && f.vars[k].0 in ParamNames(reader.parameters, f)
      ensures Extractable(f.vars[k].1, reader.grid)
    {
      assert EntryRead(reader.grid, f, k, data, metadata);
    }
  }

  /** The loop invariant of `CollectVariables`: the dictionaries and the
      key list hold the selected variables among the first `i`, every one
      of which could be extracted. */
  ghost predicate CollectedUpTo<V, A>(grid: SubGrid, f: File<V, A>, names: seq<string>, i: nat,
                                      data: map<string, Array<Datum<V>>>, metadata: map<string, map<string, A>>,
                                      keys: seq<string>)
    requires i <= |f.vars|
  {
    data.Keys == metadata.Keys == SetOf(keys) == NamesWhere(f, i, SetOf(names)) &&
    (forall a, b :: 0 <= a < b < |keys| ==> keys[a] != keys[b]) &&
    forall j :: 0 <= j < i && f.vars[j].0 in names ==> EntryRead(grid, f, j, data, metadata)
  }

  /** Variable `j` could be extracted and its entries are in the
      dictionaries. */
  ghost predicate EntryRead<V, A>(grid: SubGrid, f: File<V, A>, j: nat,
                                  data: map<string, Array<Datum<V>>>, metadata: map<string, map<string, A>>)
    requires j < |f.vars|
  {
    var (name, v) := f.vars[j];
    name in data && name in metadata && Extractable(v, grid) &&
    data[name] == Array1(Extract1D(v, grid)) && metadata[name] == v.attrs
  }

  lemma CollectSkip<V, A>(grid: SubGrid, f: File<V, A>, names: seq<string>, i: nat,
                          data: map<string, Array<Datum<V>>>, metadata: map<string, map<string, A>>,
                          keys: seq<string>)
    requires i < |f.vars| && f.vars[i].0 !in names
    requires CollectedUpTo(grid, f, names, i, data, metadata, keys)
    ensures CollectedUpTo(grid, f, names, i + 1, data, metadata, keys)
  {
    NamesWhereStep(f, i, SetOf(names));
  }

  lemma CollectAdd<V, A>(grid: SubGrid, f: File<V, A>, names: seq<string>, i: nat,
                         data: map<string, Array<Datum<V>>>, metadata: map<string, map<string, A>>,
                         keys: seq<string>)
    requires i < |f.vars| && f.vars[i].0 in names && f.vars[i].0 !in NamesWhere(f, i, SetOf(names))
    requires Extractable(f.vars[i].1, grid)
    requires CollectedUpTo(grid, f, names, i, data, metadata, keys)
    ensures f.vars[i].0 !in data
    ensures CollectedUpTo(grid, f, names, i + 1,
      data[f.vars[i].0 := Array1(Extract1D(f.vars[i].1, grid))],
      metadata[f.vars[i].0 := f.vars[i].1.attrs], keys + [f.vars[i].0])
  {
    var name := f.vars[i].0;
    var data' := data[name := Array1(Extract1D(f.vars[i].1, grid))];
    var metadata' := metadata[name := f.vars[i].1.attrs];
    NamesWhereStep(f, i, SetOf(names));
    KeysAppended(data, metadata, keys, name, data'[name], metadata'[name]);
    forall j | 0 <= j < i + 1 && f.vars[j].0 in names
      ensures EntryRead(grid, f, j, data', metadata')
    {
      if j < i {
        InNamesWhere(f, j, i, SetOf(names));
        EntryKept(grid, f, j, data, metadata, name, data'[name], metadata'[name]);
      }
    }
  }

  /** Adding the entries of another name keeps an entry read. */
  lemma EntryKept<V, A>(grid: SubGrid, f: File<V, A>, j: nat,
                        data: map<string, Array<Datum<V>>>, metadata: map<string, map<string, A>>,
                        name: string, x: Array<Datum<V>>, m: map<string, A>)
    requires j < |f.vars| && f.vars[j].0 != name
    requires EntryRead(grid, f, j, data, metadata)
    ensures EntryRead(grid, f, j, data[name := x], metadata[name := m])
  {
  }

  /** Appending a new name to the key list keeps it in step with the
      dictionaries and free of repeats. */
  lemma KeysAppended<X, Y>(data: map<string, X>, metadata: map<string, Y>, keys: seq<string>,
                           name: string, x: X, m: Y)
    requires data.Keys == metadata.Keys == SetOf(keys) && name !in data
    requires forall a, b :: 0 <= a < b < |keys| ==> keys[a] != keys[b]
    ensures data[name := x].Keys == metadata[name := m].Keys == SetOf(keys + [name]) == SetOf(keys) + {name}
    ensures forall a, b :: 0 <= a < b < |keys + [name]| ==> (keys + [name])[a] != (keys + [name])[b]
  {
  }

  lemma NamesWhereStep<V, A>(f: File<V, A>, i: nat, wanted: set<string>)
    requires i < |f.vars|
    ensures NamesWhere(f, i + 1, wanted) ==
      NamesWhere(f, i, wanted) + (if f.vars[i].0 in wanted then {f.vars[i].0} else {})
  {
  }

  lemma InNamesWhere<V, A>(f: File<V, A>, j: nat, i: nat, wanted: set<string>)
    requires j < i <= |f.vars| && f.vars[j].0 in wanted
    ensures f.vars[j].0 in NamesWhere(f, i, wanted)
  {
  }

  /** A file's names are distinct, so the `i`-th is not among the earlier
      ones. */
  lemma FreshName<V, A>(f: File<V, A>, i: nat, wanted: set<string>)
    requires ValidFile(f) && i < |f.vars|
    ensures f.vars[i].0 !in NamesWhere(f, i, wanted)
  {
  }

  /** The 2-D loop of `read`: every entry, in key order, is reshaped to the
      grid shape; a size that does not fit raises ValueError. */
  method ReshapeAll<T>(data: map<string, Array<T>>, keys: seq<string>, rows: nat, cols: nat)
    returns (r: Result<map<string, Array<T>>, ReadError>)
    requires SetOf(keys) == data.Keys
    requires forall a, b :: 0 <= a < b < |keys| ==> keys[a] != keys[b]
    requires forall n :: n in data ==> data[n].Array1?
    ensures r.Success? <==> forall n :: n in data ==> |data[n].items| == rows * cols
    ensures r.Failure? ==> r.error == ValueError
    ensures r.Success? ==> r.value.Keys == data.Keys
    ensures r.Success? ==> forall n :: n in data ==>
      |data[n].items| == rows * cols && r.value[n] == Array2(Reshape(data[n].items, rows, cols))
  {
    var out := data;
    var k := 0;
    while k < |keys|
      invariant 0 <= k <= |keys|
      invariant ReshapedUpTo(data, keys, k, rows, cols, out)
    {
      var key := keys[k];
      ReshapeNext(data, keys, k, rows, cols, out);
      var items := out[key].items;
      if |items| != rows * cols {
        return Failure(ValueError);
      }
      ReshapeStep(data, keys, k, rows, cols, out);
      out := out[key := Array2(Reshape(items, rows, cols))];
      k := k + 1;
    }
    ReshapedAll(data, keys, rows, cols, out);
    return Success(out);
  }

  /** The loop invariant of `ReshapeAll`: the first `k` keys are reshaped,
      the others are as collected. */
  ghost predicate ReshapedUpTo<T>(data: map<string, Array<T>>, keys: seq<string>, k: nat, rows: nat, cols: nat,
                                  out: map<string, Array<T>>)
    requires k <= |keys|
    requires forall n :: n in data ==> data[n].Array1?
  {
    out.Keys == data.Keys &&
    (forall n :: n in data && n !in keys[..k] ==> out[n] == data[n]) &&
    forall n :: n in data && n in keys[..k] ==>
      |data[n].items| == rows * cols && out[n] == Array2(Reshape(data[n].items, rows, cols))
  }

  /** The next key is still as collected. */
  lemma ReshapeNext<T>(data: map<string, Array<T>>, keys: seq<string>, k: nat, rows: nat, cols: nat,
                       out: map<string, Array<T>>)
    requires SetOf(keys) == data.Keys
    requires forall a, b :: 0 <= a < b < |keys| ==> keys[a] != keys[b]
    requires forall n :: n in data ==> data[n].Array1?
    requires k < |keys| && ReshapedUpTo(data, keys, k, rows, cols, out)
    ensures keys[k] in data && keys[k] in out && out[keys[k]] == data[keys[k]]
  {
    assert keys[k] in SetOf(keys);
    assert keys[k] !in keys[..k];
  }

  lemma ReshapeStep<T>(data: map<string, Array<T>>, keys: seq<string>, k: nat, rows: nat, cols: nat,
                       out: map<string, Array<T>>)
    requires SetOf(keys) == data.Keys
    requires forall a, b :: 0 <= a < b < |keys| ==> keys[a] != keys[b]
    requires forall n :: n in data ==> data[n].Array1?
    requires k < |keys| && ReshapedUpTo(data, keys, k, rows, cols, out)
    requires keys[k] in data && |data[keys[k]].items| == rows * cols
    ensures ReshapedUpTo(data, keys, k + 1, rows, cols,
      out[keys[k] := Array2(Reshape(data[keys[k]].items, rows, cols))])
  {
    ReshapeNext(data, keys, k, rows, cols, out);
    TakeNext(keys, k);
  }

  lemma ReshapedAll<T>(data: map<string, Array<T>>, keys: seq<string>, rows: nat, cols: nat,
                       out: map<string, Array<T>>)
    requires SetOf(keys) == data.Keys
    requires forall n :: n in data ==> data[n].Array1?
    requires ReshapedUpTo(data, keys, |keys|, rows, cols, out)
    ensures out.Keys == data.Keys
    ensures forall n :: n in data ==>
      |data[n].items| == rows * cols && out[n] == Array2(Reshape(data[n].items, rows, cols))
  {
    assert keys[..|keys|] == keys;
  }

  /** Entries of the collected dictionary have one value per active
      point. */
  lemma CollectedLengths<V, A>(reader: Reader, f: File<V, A>, data: map<string, Array<Datum<V>>>,
                               metadata: map<string, map<string, A>>, keys: seq<string>)
    requires AllExtractable(reader, f)
    requires Collected(reader, f, data, metadata, keys)
    ensures forall n :: n in data ==> data[n].Array1? && |data[n].items| == |reader.grid.activegpis|
  {
    forall n | n in data
      ensures data[n].Array1? && |data[n].items| == |reader.grid.activegpis|
    {
      var j :| 0 <= j < |f.vars| && f.vars[j].0 in SetOf(ParamNames(reader.parameters, f)) && f.vars[j].0 == n;
    }
  }

  /** In 1-D mode the collected dictionaries are the image. */
  lemma Image1D<V, A>(reader: Reader, f: File<V, A>, data: map<string, Array<Datum<V>>>,
                      metadata: map<string, map<string, A>>, keys: seq<string>, timestamp: Option<int>)
    requires AllExtractable(reader, f) && reader.array1D
    requires Collected(reader, f, data, metadata, keys)
    ensures ReadSucceeds(reader, f)
    ensures IsImageOf(reader, f, timestamp,
      Image(Array1(reader.grid.activearrlon), Array1(reader.grid.activearrlat), data, metadata, timestamp))
  {
  }

  /** `{k: np.flipud(v) for k, v in return_img.items()}`. */
  function FlipAll<T>(m: map<string, Array<T>>): (r: map<string, Array<T>>)
    ensures r.Keys == m.Keys
    ensures forall k :: k in m && m[k].Array2? ==> r[k] == Array2(Reverse(m[k].rows))
  {
    map k | k in m :: if m[k].Array2? then Array2(Reverse(m[k].rows)) else m[k]
  }

  /** Each selected variable's 2-D entry: its reshaped 1-D array, rows
      reversed, is `Extract2D`. */
  lemma Entries2D<V, A>(reader: Reader, f: File<V, A>, data: map<string, Array<Datum<V>>>,
                        metadata: map<string, map<string, A>>, keys: seq<string>,
                        reshaped: map<string, Array<Datum<V>>>, j: int)
    requires AllExtractable(reader, f)
    requires Collected(reader, f, data, metadata, keys)
    requires reshaped.Keys == data.Keys
    requires forall n :: n in data ==> (data[n].Array1? &&
      |data[n].items| == reader.grid.shape.0 * reader.grid.shape.1 &&
      reshaped[n] == Array2(Reshape(data[n].items, reader.grid.shape.0, reader.grid.shape.1)))
    requires 0 <= j < |f.vars| && f.vars[j].0 in ParamNames(reader.parameters, f)
    ensures Extractable(f.vars[j].1, reader.grid)
    ensures |reader.grid.activegpis| == reader.grid.shape.0 * reader.grid.shape.1
    ensures f.vars[j].0 in reshaped && reshaped[f.vars[j].0].Array2?
    ensures Reverse(reshaped[f.vars[j].0].rows) == Extract2D(f.vars[j].1, reader.grid)
  {
    var name := f.vars[j].0;
    assert name in Selected(reader, f);
    assert data[name] == Array1(Extract1D(f.vars[j].1, reader.grid));
  }

  /** In 2-D mode the reshaped, row-reversed dictionary is the image. */
  lemma Image2D<V, A>(reader: Reader, f: File<V, A>, data: map<string, Array<Datum<V>>>,
                      metadata: map<string, map<string, A>>, keys: seq<string>,
                      reshaped: map<string, Array<Datum<V>>>, timestamp: Option<int>)
    requires AllExtractable(reader, f) && !reader.array1D
    requires Collected(reader, f, data, metadata, keys)
    requires var n := reader.grid.shape.0 * reader.grid.shape.1;
      |reader.grid.activearrlon| == n && |reader.grid.activearrlat| == n
    requires reshaped.Keys == data.Keys
    requires forall n :: n in data ==> (data[n].Array1? &&
      |data[n].items| == reader.grid.shape.0 * reader.grid.shape.1 &&
      reshaped[n] == Array2(Reshape(data[n].items, reader.grid.shape.0, reader.grid.shape.1)))
    ensures ReadSucceeds(reader, f)
    ensures IsImageOf(reader, f, timestamp,
      Image(Array2(Reshape(reader.grid.activearrlon, reader.grid.shape.0, reader.grid.shape.1)),
            Array2(Reverse(Reshape(reader.grid.activearrlat, reader.grid.shape.0, reader.grid.shape.1))),
            FlipAll(reshaped), metadata, timestamp))
  {
    var grid := reader.grid;
    Fits2D(reader, f, data, metadata, keys);
    var flipped := FlipAll(reshaped);
    forall j | 0 <= j < |f.vars| && f.vars[j].0 in ParamNames(reader.parameters, f)
      ensures f.vars[j].0 in flipped && f.vars[j].0 in metadata
      ensures metadata[f.vars[j].0] == f.vars[j].1.attrs
      ensures flipped[f.vars[j].0] == Array2(Extract2D(f.vars[j].1, grid))
    {
      Entries2D(reader, f, data, metadata, keys, reshaped, j);
    }
    Image2DIntro(reader, f, flipped, metadata, timestamp);
  }

  /** Reshaping every collected entry succeeded: the shapes fit. */
  lemma Fits2D<V, A>(reader: Reader, f: File<V, A>, data: map<string, Array<Datum<V>>>,
                     metadata: map<string, map<string, A>>, keys: seq<string>)
    requires AllExtractable(reader, f)
    requires Collected(reader, f, data, metadata, keys)
    requires var n := reader.grid.shape.0 * reader.grid.shape.1;
      |reader.grid.activearrlon| == n && |reader.grid.activearrlat| == n
    requires forall n :: n in data ==> |data[n].items| == reader.grid.shape.0 * reader.grid.shape.1
    ensures ShapeFits(reader, f) && ReadSucceeds(reader, f)
  {
    CollectedLengths(reader, f, data, metadata, keys);
    if Selected(reader, f) != {} {
      var n :| n in Selected(reader, f);
      assert n in data;
    }
  }

  /** The definition of the 2-D image, assembled from its parts. */
  lemma Image2DIntro<V, A>(reader: Reader, f: File<V, A>, flipped: map<string, Array<Datum<V>>>,
                           metadata: map<string, map<string, A>>, timestamp: Option<int>)
    requires ReadSucceeds(reader, f) && !reader.array1D
    requires flipped.Keys == metadata.Keys == Selected(reader, f)
    requires forall j :: 0 <= j < |f.vars| && f.vars[j].0 in ParamNames(reader.parameters, f) ==>
      (f.vars[j].0 in flipped && f.vars[j].0 in metadata &&
       metadata[f.vars[j].0] == f.vars[j].1.attrs &&
       flipped[f.vars[j].0] == Array2(Extract2D(f.vars[j].1, reader.grid)))
    ensures IsImageOf(reader, f, timestamp,
      Image(Array2(Reshape(reader.grid.activearrlon, reader.grid.shape.0, reader.grid.shape.1)),
            Array2(Reverse(Reshape(reader.grid.activearrlat, reader.grid.shape.0, reader.grid.shape.1))),
            flipped, metadata, timestamp))
  {
  }

  /** A reshape that does not fit means the shapes do not fit. */
  lemma ReshapeMisfit<V, A>(reader: Reader, f: File<V, A>, data: map<string, Array<Datum<V>>>,
                            metadata: map<string, map<string, A>>, keys: seq<string>)
    requires AllExtractable(reader, f)
    requires Collected(reader, f, data, metadata, keys)
    requires exists n :: n in data && !(data[n].Array1? && |data[n].items| == reader.grid.shape.0 * reader.grid.shape.1)
    ensures !ShapeFits(reader, f)
  {
    CollectedLengths(reader, f, data, metadata, keys);
    var n :| n in data && !(data[n].Array1? && |data[n].items| == reader.grid.shape.0 * reader.grid.shape.1);
    assert n in Selected(reader, f);
  }

  /** `read`: fails with IOError naming the file when it cannot be opened
      (`file` is None), and otherwise builds the image variable by variable
      in the file's order. */
  method Read<V, A>(reader: Reader, file: Option<File<V, A>>, timestamp: Option<int>)
    returns (r: Result<Image<Array<Datum<V>>, A>, ReadError>)
    requires file.Some? ==> ValidFile(file.value)
    ensures file.None? ==> r == Failure(IOError(reader.filename))
    ensures file.Some? ==> (r.Success? <==> ReadSucceeds(reader, file.value))
    ensures file.Some? && r.Success? ==> IsImageOf(reader, file.value, timestamp, r.value)
    ensures file.Some? && r.Failure? && r.error.IndexError? ==>
      exists j :: FirstUnreadable(reader, file.value, j) && file.value.vars[j].0 == r.error.parameter
    ensures file.Some? && r.Failure? ==> r.error.IndexError? || r.error.ValueError?
    ensures file.Some? && !AllExtractable(reader, file.value) ==> r.Failure? && r.error.IndexError?
    ensures file.Some? && r.Failure? && r.error.ValueError? ==>
      !reader.array1D && AllExtractable(reader, file.value) && !ShapeFits(reader, file.value)
  {
    if file.None? {
      return Failure(IOError(reader.filename));
    }
    var f := file.value;
    var grid := reader.grid;
    var collected := CollectVariables(reader, f);
    if collected.Failure? {
      return Failure(collected.error);
    }
    var (data, metadata, keys) := collected.value;
    CollectedLengths(reader, f, data, metadata, keys);

    if reader.array1D {
      Image1D(reader, f, data, metadata, keys, timestamp);
      return Success(Image(Array1(grid.activearrlon), Array1(grid.activearrlat), data, metadata, timestamp));
    }

    var (rows, cols) := grid.shape;
    var reshaped := ReshapeAll(data, keys, rows, cols);
    if reshaped.Failure? {
      ReshapeMisfit(reader, f, data, metadata, keys);
      return Failure(reshaped.error);
    }
    if |grid.activearrlon| != rows * cols || |grid.activearrlat| != rows * cols {
      return Failure(ValueError);
    }
    Image2D(reader, f, data, metadata, keys, reshaped.value, timestamp);
    return Success(Image(Array2(Reshape(grid.activearrlon, rows, cols)),
                         Array2(Reverse(Reshape(grid.activearrlat, rows, cols))),
                         FlipAll(reshaped.value),
                         metadata, timestamp));
  }
}
