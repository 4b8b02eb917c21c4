/** The image readers of the older packages: `CCI_SM_025Img` of
    `esa_cci_sm` (product versions up to 3.3) and `CCI_SM_v042_025Img` of
    `hsaf_cci_042` (version 4.2). Both read onto the global 0.25 degree
    grid, keep only `long_name` and `units` of each variable's attributes,
    and leave masked entries masked (the masked arrays carry fill value
    9999). They differ in how a variable becomes one row of values: the
    first reader takes the first layer upside down, the second flattens the
    whole variable as stored. */
module LegacyImage {
  import opened Common
  import opened ImageModel
  import Grid

  /** The `parameter` argument: anything that is not a list becomes a
      one-element list, so `None` becomes `[None]`. */
  datatype ParameterArg = Single(p: Option<string>) | List(ps: seq<Option<string>>)

  /** How a stored variable is turned into one value per grid point. */
  datatype Layout =
    | FirstLayerFlipped  // `np.flipud(param_data[0,:,:]).flatten()`
    | WholeVariable      // `dataset.variables[parameter][:].flatten()`

  datatype Reader = Reader(filename: string, parameters: seq<Option<string>>, grid: Grid.CellGrid, array1D: bool)

  /** The fill value set on every returned masked array. */
  const FillValue: int := 9999

  /** A numpy masked array: its entries, each present or masked, and its
      fill value. Indexing, reshaping and flipping keep the fill value. */
  datatype MaskedArray<V> = MaskedArray(entries: Array<Reading<V>>, fillValue: int)

  /** The fixed 2-D shape both readers reshape to. */
  const Rows: nat := 720
  const Cols: nat := 1440

  /** `__init__`: the reader works on the package's global grid. */
  function NewReader(filename: string, parameter: ParameterArg, array1D: bool): (r: Reader)
    ensures r.filename == filename && r.array1D == array1D
    ensures parameter.Single? ==> r.parameters == [parameter.p]
    ensures parameter.List? ==> r.parameters == parameter.ps
    ensures r.grid == Grid.CCI025Cellgrid()
  {
    Reader(filename, if parameter.Single? then [parameter.p] else parameter.ps, Grid.CCI025Cellgrid(), array1D)
  }

  /** A grid the fixed 720 x 1440 reshape fits. */
  predicate GridShaped(grid: Grid.CellGrid)
  {
    |grid.gpis| == |grid.lon| == |grid.lat| == Rows * Cols
  }

  /** `parameter in param_names`, where `param_names` is a copy of the
      reader's list. */
  predicate Requested(reader: Reader, name: string)
  {
    Some(name) in reader.parameters
  }

  /** The variable as one flat masked array, before the grid points are
      picked. */
  function Flat<V, A>(layout: Layout, v: Variable<V, A>): seq<Reading<V>>
    requires layout.FirstLayerFlipped? ==> |v.layers| > 0
  {
    match layout
    case FirstLayerFlipped => Flatten(Reverse(v.layers[0]))
    case WholeVariable => Flatten(Flatten(v.layers))
  }

  /** A variable can be read: it has the layer that is indexed and every
      grid point id indexes into its values. */
  predicate Extractable<V, A>(layout: Layout, v: Variable<V, A>, grid: Grid.CellGrid)
  {
    (layout.FirstLayerFlipped? ==> |v.layers| > 0) && InRange(grid.gpis, |Flat(layout, v)|)
  }

  /** `param_data[self.grid.activegpis]`. */
  function Extract1D<V, A>(layout: Layout, v: Variable<V, A>, grid: Grid.CellGrid): (r: seq<Reading<V>>)
    requires Extractable(layout, v, grid)
    ensures |r| == |grid.gpis|
  {
    Gather(Flat(layout, v), grid.gpis)
  }

  /** The 2-D array: reshaped to 720 x 1440, rows reversed again by the
      first reader and left as they are by the second. */
  function Extract2D<V, A>(layout: Layout, v: Variable<V, A>, grid: Grid.CellGrid): seq<seq<Reading<V>>>
    requires Extractable(layout, v, grid) && GridShaped(grid)
  {
    var m := Reshape(Extract1D(layout, v, grid), Rows, Cols);
    if layout.FirstLayerFlipped? then Reverse(m) else m
  }

  /** The requested names among the first `n` variables of a file. */
  function SelectedUpTo<V, A>(reader: Reader, f: File<V, A>, n: nat): set<string>
    requires n <= |f.vars|
  {
    set j | 0 <= j < n && Requested(reader, f.vars[j].0) :: f.vars[j].0
  }

  /** The 2-D longitudes: the grid's, reshaped. */
  function Lon2D(grid: Grid.CellGrid): (m: seq<seq<int>>)
    requires GridShaped(grid)
    ensures |m| == Rows && Rectangular(m, Cols)
  {
    Reshape(grid.lon, Rows, Cols)
  }

  /** The 2-D latitudes: the grid's, reshaped and upside down. */
  function Lat2D(grid: Grid.CellGrid): (m: seq<seq<int>>)
    requires GridShaped(grid)
    ensures |m| == Rows && Rectangular(m, Cols)
  {
    ReverseRectangular(Reshape(grid.lat, Rows, Cols), Cols);
    Reverse(Reshape(grid.lat, Rows, Cols))
  }

  /** The latitudes of a 1-D image: the second reader reverses them. */
  function Lat1D(layout: Layout, grid: Grid.CellGrid): seq<int>
  {
    if layout.WholeVariable? then Reverse(grid.lat) else grid.lat
  }

  /** The names read from a file: the requested ones it holds. */
  function Selected<V, A>(reader: Reader, f: File<V, A>): set<string>
  {
    SelectedUpTo(reader, f, |f.vars|)
  }

  predicate AllExtractable<V, A>(layout: Layout, reader: Reader, f: File<V, A>)
  {
    forall j :: 0 <= j < |f.vars| && Requested(reader, f.vars[j].0) ==> Extractable(layout, f.vars[j].1, reader.grid)
  }

  /** The 1-D dictionaries after the loop over the file's variables. */
  ghost predicate Collected<V, A>(layout: Layout, reader: Reader, f: File<V, A>,
                                  data: map<string, MaskedArray<V>>, metadata: map<string, map<string, A>>)
    requires AllExtractable(layout, reader, f)
  {
    data.Keys == metadata.Keys == Selected(reader, f) &&
    forall j :: 0 <= j < |f.vars| && Requested(reader, f.vars[j].0) ==>
      data[f.vars[j].0] == MaskedArray(Array1(Extract1D(layout, f.vars[j].1, reader.grid)), FillValue) &&
      metadata[f.vars[j].0] == KeepNameAndUnits(f.vars[j].1.attrs)
  }

  /** What a successful read returns: the requested variables of the file
      with name and units and their values on the grid, 1-D or 720 x 1440;
      coordinates from the grid, latitude reversed in 2-D, and in 1-D too
      for the second reader. */
  ghost predicate IsImageOf<V, A>(layout: Layout, reader: Reader, f: File<V, A>, timestamp: Option<int>,
                                  img: Image<MaskedArray<V>, A>)
    requires AllExtractable(layout, reader, f) && GridShaped(reader.grid)
  {
    var grid := reader.grid;
    img.timestamp == timestamp &&
    img.data.Keys == img.metadata.Keys == Selected(reader, f) &&
    (forall j :: 0 <= j < |f.vars| && Requested(reader, f.vars[j].0) ==>
      var (name, v) := f.vars[j];
      img.metadata[name] == KeepNameAndUnits(v.attrs) &&
      img.data[name] ==
        MaskedArray(if reader.array1D then Array1(Extract1D(layout, v, grid)) else Array2(Extract2D(layout, v, grid)),
                    FillValue)) &&
    if reader.array1D then
      img.lon == Array1(grid.lon) && img.lat == Array1(Lat1D(layout, grid))
    else
      img.lon == Array2(Lon2D(grid)) && img.lat == Array2(Lat2D(grid))
  }

  /** The loop of `read` over the file's variables, shared by both readers;
      the first requested variable that cannot be read raises IndexError. */
  method Collect<V, A>(layout: Layout, reader: Reader, f: File<V, A>)
    returns (r: Result<(map<string, MaskedArray<V>>, map<string, map<string, A>>), ReadError>)
    requires ValidFile(f)
    ensures r.Success? <==> AllExtractable(layout, reader, f)
    ensures r.Success? ==> Collected(layout, reader, f, r.value.0, r.value.1)
    ensures r.Success? ==> forall n :: n in r.value.0 ==> r.value.0[n].fillValue == FillValue
    ensures r.Failure? ==> r.error.IndexError?
    ensures r.Failure? ==>
      exists j :: FirstUnreadable(layout, reader, f, j) && f.vars[j].0 == r.error.parameter
  {
    var gpis := reader.grid.gpis;
    var data: map<string, MaskedArray<V>> := map[];
    var metadata: map<string, map<string, A>> := map[];
    var i := 0;
    while i < |f.vars|
      invariant 0 <= i <= |f.vars|
      invariant CollectedUpTo(layout, reader, f, i, data, metadata)
    {
      var (name, variable) := f.vars[i];
      if Requested(reader, name) {
        if layout.FirstLayerFlipped? && |variable.layers| == 0 {
          FirstFailure(layout, reader, f, i, data, metadata);
          return Failure(IndexError(name));
        }
        var flat := Flat(layout, variable);
        assert Extractable(layout, variable, reader.grid) <==> InRange(gpis, |flat|);
        if !InRange(gpis, |flat|) {
          FirstFailure(layout, reader, f, i, data, metadata);
          return Failure(IndexError(name));
        }
        FreshName(reader, f, i);
        CollectAdd(layout, reader, f, i, data, metadata);
        assert Gather(flat, gpis) == Extract1D(layout, f.vars[i].1, reader.grid);
        data := data[name := MaskedArray(Array1(Gather(flat, gpis)), FillValue)];
        metadata := metadata[name := KeepNameAndUnits(variable.attrs)];
      } else {
        CollectSkip(layout, reader, f, i, data, metadata);
      }
      i := i + 1;
    }
    CollectedAll(layout, reader, f, data, metadata);
    return Success((data, metadata));
  }

  /** The loop invariant of `Collect`: the dictionaries hold the requested
      variables among the first `i`, every one of which could be read. */
  ghost predicate CollectedUpTo<V, A>(layout: Layout, reader: Reader, f: File<V, A>, i: nat,
                                      data: map<string, MaskedArray<V>>, metadata: map<string, map<string, A>>)
    requires i <= |f.vars|
  {
    data.Keys == metadata.Keys == SelectedUpTo(reader, f, i) &&
    FillsAre9999(data) &&
    forall j :: 0 <= j < i && Requested(reader, f.vars[j].0) ==> EntryRead(layout, reader, f, j, data, metadata)
  }

  /** Variable `j` is requested and cannot be read, and every requested
      variable stored before it can. */
  predicate FirstUnreadable<V, A>(layout: Layout, reader: Reader, f: File<V, A>, j: int)
  {
    0 <= j < |f.vars| && Requested(reader, f.vars[j].0) && !Extractable(layout, f.vars[j].1, reader.grid) &&
    forall k :: 0 <= k < j && Requested(reader, f.vars[k].0) ==> Extractable(layout, f.vars[k].1, reader.grid)
  }

  lemma FirstFailure<V, A>(layout: Layout, reader: Reader, f: File<V, A>, i: nat,
                           data: map<string, MaskedArray<V>>, metadata: map<string, map<string, A>>)
    requires i < |f.vars| && CollectedUpTo(layout, reader, f, i, data, metadata)
    requires Requested(reader, f.vars[i].0) && !Extractable(layout, f.vars[i].1, reader.grid)
    ensures FirstUnreadable(layout, reader, f, i)
  {
    forall k | 0 <= k < i && Requested(reader, f.vars[k].0)
      ensures Extractable(layout, f.vars[k].1, reader.grid)
    {
      assert EntryRead(layout, reader, f, k, data, metadata);
    }
  }

  /** Variable `j` could be read and its entries are in the dictionaries. */
  ghost predicate EntryRead<V, A>(layout: Layout, reader: Reader, f: File<V, A>, j: nat,
                                  data: map<string, MaskedArray<V>>, metadata: map<string, map<string, A>>)
    requires j < |f.vars|
  {
    var (name, v) := f.vars[j];
    name in data && name in metadata && Extractable(layout, v, reader.grid) &&
    data[name] == MaskedArray(Array1(Extract1D(layout, v, reader.grid)), FillValue) &&
    metadata[name] == KeepNameAndUnits(v.attrs)
  }

  lemma CollectSkip<V, A>(layout: Layout, reader: Reader, f: File<V, A>, i: nat,
                          data: map<string, MaskedArray<V>>, metadata: map<string, map<string, A>>)
    requires i < |f.vars| && !Requested(reader, f.vars[i].0)
    requires CollectedUpTo(layout, reader, f, i, data, metadata)
    ensures CollectedUpTo(layout, reader, f, i + 1, data, metadata)
  {
    SelectedUpToStep(reader, f, i);
  }

  lemma CollectAdd<V, A>(layout: Layout, reader: Reader, f: File<V, A>, i: nat,
                         data: map<string, MaskedArray<V>>, metadata: map<string, map<string, A>>)
    requires i < |f.vars| && Requested(reader, f.vars[i].0) && f.vars[i].0 !in SelectedUpTo(reader, f, i)
    requires Extractable(layout, f.vars[i].1, reader.grid)
    requires CollectedUpTo(layout, reader, f, i, data, metadata)
    ensures f.vars[i].0 !in data
    ensures CollectedUpTo(layout, reader, f, i + 1,
      data[f.vars[i].0 := MaskedArray(Array1(Extract1D(layout, f.vars[i].1, reader.grid)), FillValue)],
      metadata[f.vars[i].0 := KeepNameAndUnits(f.vars[i].1.attrs)])
  {
    var name := f.vars[i].0;
    var data' := data[name := MaskedArray(Array1(Extract1D(layout, f.vars[i].1, reader.grid)), FillValue)];
    var metadata' := metadata[name := KeepNameAndUnits(f.vars[i].1.attrs)];
    SelectedUpToStep(reader, f, i);
    KeysAdded(data, metadata, SelectedUpTo(reader, f, i), name, data'[name], metadata'[name]);
    FillKept(data, name, data'[name]);
    forall j | 0 <= j < i + 1 && Requested(reader, f.vars[j].0)
      ensures EntryRead(layout, reader, f, j, data', metadata')
    {
      if j < i {
        InSelectedUpTo(reader, f, j, i);
        EntryKept(layout, reader, f, j, data, metadata, name, data'[name], metadata'[name]);
      } else {
        EntryAdded(layout, reader, f, i, data, metadata);
      }
    }
  }

  /** Storing variable `i`'s entries makes it read. */
  lemma EntryAdded<V, A>(layout: Layout, reader: Reader, f: File<V, A>, i: nat,
                         data: map<string, MaskedArray<V>>, metadata: map<string, map<string, A>>)
    requires i < |f.vars| && Extractable(layout, f.vars[i].1, reader.grid)
    ensures EntryRead(layout, reader, f, i,
      data[f.vars[i].0 := MaskedArray(Array1(Extract1D(layout, f.vars[i].1, reader.grid)), FillValue)],
      metadata[f.vars[i].0 := KeepNameAndUnits(f.vars[i].1.attrs)])
  {
  }

  /** Every stored array has the readers' fill value. */
  ghost predicate FillsAre9999<V>(data: map<string, MaskedArray<V>>)
  {
    forall n :: n in data ==> data[n].fillValue == FillValue
  }

  /** Storing an array with the readers' fill value keeps every stored
      array's fill value 9999. */
  lemma FillKept<V>(data: map<string, MaskedArray<V>>, name: string, x: MaskedArray<V>)
    requires FillsAre9999(data) && x.fillValue == FillValue
    ensures FillsAre9999(data[name := x])
  {
  }

  /** Adding the entries of another name keeps an entry read. */
  lemma EntryKept<V, A>(layout: Layout, reader: Reader, f: File<V, A>, j: nat,
                        data: map<string, MaskedArray<V>>, metadata: map<string, map<string, A>>,
                        name: string, x: MaskedArray<V>, m: map<string, A>)
    requires j < |f.vars| && f.vars[j].0 != name
    requires EntryRead(layout, reader, f, j, data, metadata)
    ensures EntryRead(layout, reader, f, j, data[name := x], metadata[name := m])
  {
  }

  lemma KeysAdded<X, Y>(data: map<string, X>, metadata: map<string, Y>, names: set<string>,
                       name: string, x: X, m: Y)
    requires data.Keys == metadata.Keys == names
    ensures data[name := x].Keys == metadata[name := m].Keys == names + {name}
  {
  }

  lemma InSelectedUpTo<V, A>(reader: Reader, f: File<V, A>, j: nat, i: nat)
    requires j < i <= |f.vars| && Requested(reader, f.vars[j].0)
    ensures f.vars[j].0 in SelectedUpTo(reader, f, i)
  {
  }

  /** A file's names are distinct, so the `i`-th is not among the earlier
      ones. */
  lemma FreshName<V, A>(reader: Reader, f: File<V, A>, i: nat)
    requires ValidFile(f) && i < |f.vars|
    ensures f.vars[i].0 !in SelectedUpTo(reader, f, i)
  {
  }

  lemma CollectedAll<V, A>(layout: Layout, reader: Reader, f: File<V, A>,
                           data: map<string, MaskedArray<V>>, metadata: map<string, map<string, A>>)
    requires CollectedUpTo(layout, reader, f, |f.vars|, data, metadata)
    ensures AllExtractable(layout, reader, f)
    ensures Collected(layout, reader, f, data, metadata)
  {
  }

  lemma SelectedUpToStep<V, A>(reader: Reader, f: File<V, A>, i: nat)
    requires i < |f.vars|
    ensures SelectedUpTo(reader, f, i + 1) ==
      SelectedUpTo(reader, f, i) + (if Requested(reader, f.vars[i].0) then {f.vars[i].0} else {})
  {
  }

  /** The entries of a collected dictionary are flat, fit 720 x 1440 and
      carry the fill value 9999. */
  predicate FlatFilled<V>(data: map<string, MaskedArray<V>>)
  {
    forall n :: n in data ==>
      data[n].entries.Array1? && |data[n].entries.items| == Rows * Cols && data[n].fillValue == FillValue
  }

  /** The 2-D entries: every collected array reshaped to 720 x 1440, and
      for the first reader turned upside down; the fill value is kept. */
  function Shape2D<V>(layout: Layout, data: map<string, MaskedArray<V>>): (r: map<string, MaskedArray<V>>)
    requires FlatFilled(data)
    ensures r.Keys == data.Keys
    ensures forall n :: n in r ==> r[n].fillValue == FillValue
  {
    map n | n in data ::
      var m := Reshape(data[n].entries.items, Rows, Cols);
      MaskedArray(Array2(if layout.FirstLayerFlipped? then Reverse(m) else m), data[n].fillValue)
  }

  /** `read` of either reader: IOError when the file cannot be opened,
      otherwise the image of the requested variables. The reshape to
      720 x 1440 always fits the grid of 1,036,800 points. */
  method Read<V, A>(layout: Layout, reader: Reader, file: Option<File<V, A>>, timestamp: Option<int>)
    returns (r: Result<Image<MaskedArray<V>, A>, ReadError>)
    requires file.Some? ==> ValidFile(file.value)
    requires GridShaped(reader.grid)
    ensures file.None? ==> r == Failure(IOError(reader.filename))
    ensures file.Some? ==> (r.Success? <==> AllExtractable(layout, reader, file.value))
    ensures file.Some? && r.Success? ==> IsImageOf(layout, reader, file.value, timestamp, r.value)
    ensures r.Success? ==> forall n :: n in r.value.data ==> r.value.data[n].fillValue == FillValue
    ensures file.Some? && r.Failure? ==> r.error.IndexError?
    ensures file.Some? && r.Failure? ==>
      exists j :: FirstUnreadable(layout, reader, file.value, j) && file.value.vars[j].0 == r.error.parameter
  {
    if file.None? {
      return Failure(IOError(reader.filename));
    }
    var f := file.value;
    var grid := reader.grid;
    var collected := Collect(layout, reader, f);
    if collected.Failure? {
      return Failure(collected.error);
    }
    var (data, metadata) := collected.value;
    CollectedLengths(layout, reader, f, data, metadata);
    if reader.array1D {
      return Success(Image(Array1(grid.lon), Array1(Lat1D(layout, grid)), data, metadata, timestamp));
    }
    var img := Image(Array2(Lon2D(grid)), Array2(Lat2D(grid)),
                     Shape2D(layout, data), metadata, timestamp);
    Image2D(layout, reader, f, data, metadata, timestamp);
    return Success(img);
  }

  lemma CollectedLengths<V, A>(layout: Layout, reader: Reader, f: File<V, A>,
                               data: map<string, MaskedArray<V>>, metadata: map<string, map<string, A>>)
    requires AllExtractable(layout, reader, f) && GridShaped(reader.grid)
    requires Collected(layout, reader, f, data, metadata)
    ensures FlatFilled(data)
  {
    forall n | n in data
      ensures data[n].entries.Array1? && |data[n].entries.items| == Rows * Cols && data[n].fillValue == FillValue
    {
      var j :| 0 <= j < |f.vars| && Requested(reader, f.vars[j].0) && f.vars[j].0 == n;
    }
  }

  /** In 2-D mode the reshaped dictionary is the image. */
  lemma Image2D<V, A>(layout: Layout, reader: Reader, f: File<V, A>,
                      data: map<string, MaskedArray<V>>, metadata: map<string, map<string, A>>,
                      timestamp: Option<int>)
    requires AllExtractable(layout, reader, f) && !reader.array1D && GridShaped(reader.grid)
    requires Collected(layout, reader, f, data, metadata)
    ensures FlatFilled(data)
    ensures IsImageOf(layout, reader, f, timestamp,
      Image(Array2(Lon2D(reader.grid)), Array2(Lat2D(reader.grid)),
            Shape2D(layout, data), metadata, timestamp))
  {
    CollectedLengths(layout, reader, f, data, metadata);
  }

  /** The reader's grid: point ids 0 to 1,036,799 in order, and the fixed
      shape fits it. */
  lemma GlobalGrid()
    ensures GridShaped(Grid.CCI025Cellgrid())
    ensures Grid.CCI025Cellgrid().gpis == Identity(Grid.NPoints)
  {
    Grid.CellGridLayout();
  }

  /** `parameter=None` is wrapped into `[None]`: no variable is read. */
  lemma NoneSelectsNothing<V, A>(filename: string, array1D: bool, f: File<V, A>)
    ensures Selected(NewReader(filename, Single(None), array1D), f) == {}
  {
  }

  /** A single name selects exactly that name. */
  lemma SingleNameSelects<V, A>(filename: string, name: string, array1D: bool, f: File<V, A>)
    ensures forall j :: 0 <= j < |f.vars| ==>
      (f.vars[j].0 in Selected(NewReader(filename, Single(Some(name)), array1D), f) <==> f.vars[j].0 == name)
  {
    var reader := NewReader(filename, Single(Some(name)), array1D);
    forall j | 0 <= j < |f.vars|
      ensures f.vars[j].0 in Selected(reader, f) <==> f.vars[j].0 == name
    {
      if f.vars[j].0 in Selected(reader, f) {
        var i :| 0 <= i < |f.vars| && Requested(reader, f.vars[i].0) && f.vars[i].0 == f.vars[j].0;
      }
    }
  }

  /** A stored variable on the global raster: 720 rows of 1440 values,
      northernmost row first. */
  predicate OnGlobalRaster<V, A>(v: Variable<V, A>)
  {
    WellShaped(v) && v.rows == Rows && v.cols == Cols && |v.layers| > 0
  }

  /** The row of the stored first layer that grid point `g` is read from:
      counted from the bottom by the first reader, from the top by the
      second. */
  function StoredRow(layout: Layout, g: int): int
  {
    if layout.FirstLayerFlipped? then Rows - 1 - Grid.Row(g) else Grid.Row(g)
  }

  /** Position `g` of the flat array is the stored value at row
      `StoredRow(layout, g)`, column `g mod 1440`; the flat array has at
      least one value per grid point. */
  lemma FlatAt<V, A>(layout: Layout, v: Variable<V, A>, g: int)
    requires OnGlobalRaster(v) && 0 <= g < Grid.NPoints
    ensures Grid.NPoints <= |Flat(layout, v)|
    ensures 0 <= StoredRow(layout, g) < Rows && 0 <= Grid.Col(g) < Cols
    ensures Flat(layout, v)[g] == v.layers[0][StoredRow(layout, g)][Grid.Col(g)]
  {
    DivModSplit(g, Rows, Cols);
    var layer := v.layers[0];
    match layout
    case FirstLayerFlipped =>
      ReverseLength(layer);
      assert Rectangular(Reverse(layer), Cols) by {
        forall r | 0 <= r < Rows
          ensures |Reverse(layer)[r]| == Cols
        {
          ReverseAt(layer, r);
        }
      }
      FlattenAt(Reverse(layer), Cols, Grid.Row(g), Grid.Col(g));
      ReverseAt(layer, Grid.Row(g));
    case WholeVariable =>
      FlattenAt(layer, Cols, Grid.Row(g), Grid.Col(g));
      FlattenFirst(v.layers, g);
      FlattenFirst(v.layers, Grid.NPoints - 1);
  }

  /** Reversing a latitude column of the global raster sends point `g` to
      the latitude of the mirrored row. */
  lemma ReversedLatAt(lat: seq<int>, g: int)
    requires |lat| == Grid.NPoints && 0 <= g < Grid.NPoints
    requires forall k :: 0 <= k < Grid.NPoints ==> lat[k] == Grid.Lat8(Grid.Row(k))
    ensures |Reverse(lat)| == Grid.NPoints && Reverse(lat)[g] == 719 - 2 * Grid.Row(g)
  {
    ReverseAt(lat, g);
    var h := Grid.NPoints - 1 - g;
    DivModSplit(g, Rows, Cols);
    DivModOf(Rows - 1 - Grid.Row(g), Cols - 1 - Grid.Col(g), Cols);
    assert h == (Rows - 1 - Grid.Row(g)) * Cols + (Cols - 1 - Grid.Col(g));
  }

  /** The latitude a 1-D image reports at `g` is that of stored row
      `StoredRow(layout, g)`, counting the northernmost row first. */
  lemma Lat1DAt(layout: Layout, g: int)
    requires 0 <= g < Grid.NPoints
    ensures |Lat1D(layout, Grid.CCI025Cellgrid())| == Grid.NPoints
    ensures Lat1D(layout, Grid.CCI025Cellgrid())[g] == 719 - 2 * StoredRow(layout, g)
  {
    var lat := Grid.CCI025Cellgrid().lat;
    Grid.CellGridLayout();
    assert forall k :: 0 <= k < Grid.NPoints ==> lat[k] == Grid.Lat8(Grid.Row(k));
    if layout.WholeVariable? {
      ReversedLatAt(lat, g);
    }
  }

  /** Every variable on the global raster can be read, and 1-D entry `g`
      is the stored value at row `StoredRow(layout, g)`, column
      `g mod 1440`, whose latitude (northernmost row first) is the one the
      1-D image reports at `g`. */
  lemma OneDimensionalAt<V, A>(layout: Layout, v: Variable<V, A>, g: int)
    requires OnGlobalRaster(v) && 0 <= g < Grid.NPoints
    ensures Extractable(layout, v, Grid.CCI025Cellgrid())
    ensures 0 <= StoredRow(layout, g) < Rows && 0 <= Grid.Col(g) < Cols
    ensures |Extract1D(layout, v, Grid.CCI025Cellgrid())| == Grid.NPoints
    ensures Extract1D(layout, v, Grid.CCI025Cellgrid())[g] == v.layers[0][StoredRow(layout, g)][Grid.Col(g)]
    ensures |Lat1D(layout, Grid.CCI025Cellgrid())| == Grid.NPoints
    ensures Lat1D(layout, Grid.CCI025Cellgrid())[g] == 719 - 2 * StoredRow(layout, g)
  {
    FlatAt(layout, v, g);
    GlobalExtract1DAt(layout, v, g);
    Lat1DAt(layout, g);
  }

  /** On the reader's grid, 1-D entry `g` is position `g` of the flat
      array. */
  lemma GlobalExtract1DAt<V, A>(layout: Layout, v: Variable<V, A>, g: int)
    requires (layout.FirstLayerFlipped? ==> |v.layers| > 0) && Grid.NPoints <= |Flat(layout, v)|
    requires 0 <= g < Grid.NPoints
    ensures Extractable(layout, v, Grid.CCI025Cellgrid())
    ensures |Extract1D(layout, v, Grid.CCI025Cellgrid())| == Grid.NPoints
    ensures Extract1D(layout, v, Grid.CCI025Cellgrid())[g] == Flat(layout, v)[g]
  {
    GlobalGrid();
    var gpis := Grid.CCI025Cellgrid().gpis;
    assert gpis[g] == g;
  }

  /** Both readers' 2-D arrays show the stored first layer as it is
      stored: position (r, c) holds stored row r, column c. */
  lemma TwoDimensionalAt<V, A>(layout: Layout, v: Variable<V, A>, r: int, c: int)
    requires OnGlobalRaster(v) && 0 <= r < Rows && 0 <= c < Cols
    ensures Extractable(layout, v, Grid.CCI025Cellgrid()) && GridShaped(Grid.CCI025Cellgrid())
    ensures |Extract2D(layout, v, Grid.CCI025Cellgrid())| == Rows
    ensures |Extract2D(layout, v, Grid.CCI025Cellgrid())[r]| == Cols
    ensures Extract2D(layout, v, Grid.CCI025Cellgrid())[r][c] == v.layers[0][r][c]
  {
    var row := if layout.FirstLayerFlipped? then Rows - 1 - r else r;
    var g := Grid.GpiAt(row, c);
    Grid.RowColRoundTrip(0, row, c);
    FlatAt(layout, v, g);
    GlobalExtract1DAt(layout, v, g);
    GlobalGrid();
    var e := Extract1D(layout, v, Grid.CCI025Cellgrid());
    if layout.FirstLayerFlipped? {
      FlippedRasterAt(e, r, c);
    } else {
      RasterAt(e, r, c);
    }
  }

  /** Entry (r, c) of the reshaped global raster is grid point
      `GpiAt(r, c)`. */
  lemma RasterAt<T>(s: seq<T>, r: int, c: int)
    requires |s| == Grid.NPoints && 0 <= r < Rows && 0 <= c < Cols
    ensures |Reshape(s, Rows, Cols)| == Rows && |Reshape(s, Rows, Cols)[r]| == Cols
    ensures Grid.IsGpi(Grid.GpiAt(r, c)) && Reshape(s, Rows, Cols)[r][c] == s[Grid.GpiAt(r, c)]
  {
    ReshapeAt(s, Rows, Cols, r, c);
  }

  /** Entry (r, c) of the reshaped global raster turned upside down is
      grid point `GpiAt(719 - r, c)`. */
  lemma FlippedRasterAt<T>(s: seq<T>, r: int, c: int)
    requires |s| == Grid.NPoints && 0 <= r < Rows && 0 <= c < Cols
    ensures |Reverse(Reshape(s, Rows, Cols))| == Rows && |Reverse(Reshape(s, Rows, Cols))[r]| == Cols
    ensures Grid.IsGpi(Grid.GpiAt(Rows - 1 - r, c))
    ensures Reverse(Reshape(s, Rows, Cols))[r][c] == s[Grid.GpiAt(Rows - 1 - r, c)]
  {
    RasterAt(s, Rows - 1 - r, c);
    ReverseAt(Reshape(s, Rows, Cols), r);
  }

  /** Reshaped longitudes and flipped reshaped latitudes of the global
      raster, for any coordinate columns laid out like the grid's. */
  lemma RasterCoordinatesAt(grid: Grid.CellGrid, r: int, c: int)
    requires GridShaped(grid)
    requires forall k :: 0 <= k < Grid.NPoints ==> grid.lon[k] == Grid.Lon8(Grid.Col(k))
    requires forall k :: 0 <= k < Grid.NPoints ==> grid.lat[k] == Grid.Lat8(Grid.Row(k))
    requires 0 <= r < Rows && 0 <= c < Cols
    ensures Lon2D(grid)[r][c] == Grid.Lon8(c)
    ensures Lat2D(grid)[r][c] == 719 - 2 * r
  {
    var h := Grid.GpiAt(r, c);
    var g := Grid.GpiAt(Rows - 1 - r, c);
    Grid.RowColRoundTrip(0, r, c);
    Grid.RowColRoundTrip(0, Rows - 1 - r, c);
    RasterAt(grid.lon, r, c);
    assert grid.lon[h] == Grid.Lon8(Grid.Col(h));
    FlippedRasterAt(grid.lat, r, c);
    assert grid.lat[g] == Grid.Lat8(Grid.Row(g));
  }

  /** The 2-D coordinates both readers return: longitude of column c and
      latitude of row r counted from the north, so (0, 0) is the
      north-west corner. */
  lemma Coordinates2DAt(r: int, c: int)
    requires 0 <= r < Rows && 0 <= c < Cols
    ensures GridShaped(Grid.CCI025Cellgrid())
    ensures Lon2D(Grid.CCI025Cellgrid())[r][c] == Grid.Lon8(c)
    ensures Lat2D(Grid.CCI025Cellgrid())[r][c] == 719 - 2 * r
  {
    Grid.CellGridLayout();
    RasterCoordinatesAt(Grid.CCI025Cellgrid(), r, c);
  }

  /** The corner values the 2-D image test checks: longitude -179.875 and
      179.875 along the top row, latitude 89.875 at the top and -89.875 at
      the bottom (in eighth-degrees). */
  lemma TestedCoordinates()
    ensures GridShaped(Grid.CCI025Cellgrid())
    ensures Lon2D(Grid.CCI025Cellgrid())[0][0] == -1439
    ensures Lon2D(Grid.CCI025Cellgrid())[0][1439] == 1439
    ensures Lat2D(Grid.CCI025Cellgrid())[0][0] == 719
    ensures Lat2D(Grid.CCI025Cellgrid())[719][0] == -719
  {
    Coordinates2DAt(0, 0);
    Coordinates2DAt(0, 1439);
    Coordinates2DAt(719, 0);
  }

  /** What the 4.2 reader's reversed 1-D latitudes hold at the start of
      rows 85, 86 and 93 counted from the north: 68.625, 68.375 and 66.625
      (in eighth-degrees). */
  lemma NorthernRows1D()
    ensures |Lat1D(WholeVariable, Grid.CCI025Cellgrid())| == Grid.NPoints
    ensures Lat1D(WholeVariable, Grid.CCI025Cellgrid())[122400] == 549
    ensures Lat1D(WholeVariable, Grid.CCI025Cellgrid())[123840] == 547
    ensures Lat1D(WholeVariable, Grid.CCI025Cellgrid())[133920] == 533
  {
    Lat1DAt(WholeVariable, 122400);
    Lat1DAt(WholeVariable, 123840);
    Lat1DAt(WholeVariable, 133920);
  }
}
