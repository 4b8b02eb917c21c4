# ESA CCI soil moisture: grid, image readers and reshuffle configuration

This project models the core of the `esa_cci_sm` package and proves properties of that model. The package reads daily ESA CCI soil moisture images (NetCDF, 0.25 degree global raster). It then prepares their conversion into per-cell time series.

The model covers:

- **The global 0.25 degree cell grid** (`CCI025Cellgrid`, module `Grid`).
  - A meshgrid of 1440 longitudes by 720 latitudes, flattened row-major from the south-west corner.
  - Grid point ids are the flat positions.
  - Points are tiled into 2592 cells of 5 by 5 degrees by pygeogrids' `to_cell_grid(cellsize=5.)`. pygeogrids is not part of this model: the cell numbering is written out (`Grid.TileOf`) and agrees with the cell ids the grid tests pin.
  - Coordinates are integers in eighth-degrees: longitude -179.875 is -1439, so every grid coordinate is exact.
- **The three image readers.**
  - `CCI_SM_025Img` of the current package (module `CciImage`). It takes the first layer of each selected variable upside down, fills masked entries with NaN, and gathers the values at the active points of a (sub)grid. In 2-D mode it reshapes and flips the rows back.
  - The older `CCI_SM_025Img` and the 4.2 reader `CCI_SM_v042_025Img` (module `LegacyImage`). Both read onto the global grid, keep only `long_name` and `units`, and leave masked entries masked. They differ in the layout they read (`Layout`).
  - What a file and an image are (module `ImageModel`).
- **`tstamps_for_daterange`** (module `Timestamps`).
  - The current reader has one image per day.
  - The older readers have eight images per day, three hours apart.
  - Each loop is a method proved equal to a closed-form list whose properties are lemmas.
- **The reshuffle configuration helpers.**
  - The current package (`ReshuffleCurrent`): `str2bool`, the grid choice, the default parameter list, `read_metadata` with its `valid_range` and `_FillValue` coercion, and the attributes `reshuffle` hands to the converter (metadata plus time coverage, or the bare product attribute under `ignore_meta`).
  - The older package (`ReshuffleLegacy`): the product-name tables and the in-place `set`s of `prod_spec_names`, `read_metadata` on an interpolating `ConfigParser`, and its `reshuffle`, whose grid comes from the image read at the start date.
  - Supporting modules: `mkdate` and `str(datetime)` (`Dates`); `str.upper`, `split`/`join` and `int()` on ASCII text (`Text`); insertion-ordered dictionaries (`Dicts`); the parts of `configparser` that are used (`Ini`, whose `ConfigParser` class is updated in place by `set`).

Two behaviours of the code shape the model:

- **Missing values.** The two reader generations treat masked entries differently:
  - the current reader fills masked entries with NaN, or, when the type has no NaN, with the array's own fill value, which netCDF sets from the variable's `_FillValue` attribute;
  - the older readers return masked arrays, keep the masked entries masked and set the fill value to 9999.

  Both are modelled as written (`CciImage.FillEntry`; `LegacyImage.MaskedArray` with `LegacyImage.FillValue`).
- **Decoding.** The readers apply no scale factor or offset of their own, so the model has none.

Inputs the code gets from outside are parameters of the model:

- the opened file (`None` when it cannot be opened);
- the directory of metadata files, as a map from file name to parsed contents;
- `float()`, as `toFloat`;
- `configparser`'s interpolation, as `expand`;
- the variable names `parse_filename` finds;
- the image the older `reshuffle` reads at its start date.

## Model

| member | source | states |
|---|---|---|
| Grid.ArangeAt | esa_cci_sm/grid.py:13-15 | `arange(start, stop, step)` whose stop lies in the n-th step has exactly n entries, entry i being start + i * step |
| Grid.AxesLayout | esa_cci_sm/grid.py:11-15 | the longitude axis has 1440 entries, column c at -179.875 + 0.25 c; the latitude axis has 720 entries, row r at -89.875 + 0.25 r |
| Grid.MeshgridFlattenAt | esa_cci_sm/grid.py:13-17 | both flattened meshgrid arrays have 1,036,800 entries; entry k holds the longitude of column k mod 1440 and the latitude of row k div 1440 |
| Grid.CellGridLayout | esa_cci_sm/grid.py:6-17 | the cell grid has 1,036,800 points; point ids equal positions; point k has the coordinates of its row and column and the cell of its tile |
| Grid.RowColRoundTrip | esa_cci_sm/grid.py:13-17 | a grid point id and its (row, column) determine each other, within 720 rows and 1440 columns |
| Grid.LonLatRoundTrip | esa_cci_sm/grid.py:13-17 | the coordinates of every grid point are a grid node, and looking them up finds that point |
| Grid.LonLatToGpiSound | esa_cci_sm/grid.py:13-17 | a coordinate lookup succeeds exactly on grid nodes, and the point found has those coordinates |
| Grid.GpiToLonLatInjective | esa_cci_sm/grid.py:13-17 | distinct grid points have distinct coordinates |
| Grid.CellFormula | esa_cci_sm/grid.py:17 | with 5 degree cells, the cell of a point is (column div 20) * 36 + (row div 20) |
| Grid.CellContainsPoint | esa_cci_sm/grid.py:17 | each point lies in the 5 by 5 degree box of its cell, and in no other cell's box |
| Grid.CellCount | esa_cci_sm/grid.py:17 | the grid's points use exactly the cell ids 0 to 2591, so 2592 cells |
| Grid.TestedPoints | tests/test_grid.py:9-31 | the tested points: 602942 at (75.625, 14.625) in cell 1856, found by looking up its coordinates, and 642933 at (-6.625, 21.625) in cell 1246 |
| Grid.TestedPointV042 | tests/test_grid_v2.py:9-12 | point 153426 lies at (16.625, -63.375) in cell 1409 |
| Grid.TestedLookup | tests/test_reshuffle.py:25 | looking up (-179.875, 68.375) finds point 911520 |
| ImageModel.KeepNameAndUnits | esa_cci_sm/interface.py:64-67 | the older readers keep exactly the `long_name` and `units` attributes, with their values |
| CciImage.NewReader | src/esa_cci_sm/interface.py:57-64 | a single name becomes a one-element list, a list or None is kept; the package grid is used unless a subgrid is given |
| CciImage.DefaultSelection | src/esa_cci_sm/interface.py:88-91 | without a parameter list, a variable is read exactly when it is not `time`, `lat` or `lon` |
| CciImage.DecodeAt | src/esa_cci_sm/interface.py:102-106 | filling keeps unmasked values and turns masked ones into NaN, or into the array's own fill value (set by netCDF from `_FillValue`) when the type has no NaN |
| CciImage.Extract1DAt | src/esa_cci_sm/interface.py:100-110 | entry k of a 1-D variable is the first layer at row R-1-(g div C), column g mod C, filled, where g is the k-th active point |
| CciImage.Extract2DAt | src/esa_cci_sm/interface.py:127-134 | 2-D position (r, c) holds the 1-D entry of point (R-1-r) * C + c: the reshape followed by the row flip |
| CciImage.FullGrid2DAt | src/esa_cci_sm/interface.py:100-134 | on a full grid in storage order, the 2-D array is the stored first layer itself, filled: the two flips cancel |
| CciImage.CollectVariables | src/esa_cci_sm/interface.py:93-119 | the loop succeeds exactly when every selected variable has a first layer covering the active points; it then holds each selected variable's gathered values and all its attributes, keys in file order without repeats; otherwise it raises IndexError at the first selected variable, in file order, that cannot be read (the model's IndexError carries that variable's name; Python's message does not) |
| CciImage.ReshapeAll | src/esa_cci_sm/interface.py:127-129 | every entry is reshaped to the grid shape, keys kept; a ValueError exactly when some entry's size differs from rows * cols |
| CciImage.Image1D | src/esa_cci_sm/interface.py:123-125 | in 1-D mode the collected dictionaries with the grid's coordinate arrays are the image |
| CciImage.Image2D | src/esa_cci_sm/interface.py:126-136 | in 2-D mode the reshaped and row-flipped entries, the reshaped longitudes and the flipped reshaped latitudes are the image |
| CciImage.ReshapeMisfit | src/esa_cci_sm/interface.py:127-129 | a reshape that raises means the selected variables do not fit the grid shape |
| CciImage.Read | src/esa_cci_sm/interface.py:66-136 | `read` raises IOError naming the file when it cannot be opened; otherwise it returns an image exactly when every selected variable can be read and, in 2-D, the shapes fit; the image holds the selected variables, their attributes, coordinates and timestamp; an unreadable selected variable always raises IndexError, at the first one (its name being the model's own payload); ValueError arises only in 2-D, when every selected variable can be read and the shapes do not fit; there are no other errors |
| LegacyImage.NewReader | esa_cci_sm/interface.py:35-42 | anything that is not a list becomes a one-element list; the reader works on the global cell grid |
| LegacyImage.NoneSelectsNothing | esa_cci_sm/interface.py:38-61 | `parameter=None` becomes `[None]` and selects no variable at all |
| LegacyImage.SingleNameSelects | esa_cci_sm/interface.py:38-61 | a single name selects exactly the variables of that name |
| LegacyImage.Collect | esa_cci_sm/interface.py:60-85 | the loop succeeds exactly when every requested variable can be read onto the grid; it then holds each requested variable's gathered values, as a masked array with fill value 9999, with its name and units; otherwise it raises IndexError at the first requested variable, in file order, that cannot be read (the model's IndexError carries that variable's name; Python's message does not); the 4.2 reader runs the same loop over the whole flattened variable (`hsaf_cci_042/interface.py:62-85`) |
| LegacyImage.Read | esa_cci_sm/interface.py:44-101 | IOError when the file cannot be opened; otherwise an image exactly when every requested variable can be read, with values as masked arrays of fill value 9999, 1-D or reshaped to 720 x 1440 and flipped, longitudes reshaped, latitudes reshaped and flipped; IndexError at the first unreadable requested variable otherwise (its name being the model's own payload); the 4.2 reader (`hsaf_cci_042/interface.py:44-102`) is the same, with the 1-D latitudes reversed and the 2-D values not flipped |
| LegacyImage.Image2D | esa_cci_sm/interface.py:91-101 | every collected entry fits 720 x 1440, and the reshaped dictionary with the 2-D coordinates is the image |
| LegacyImage.GlobalGrid | esa_cci_sm/interface.py:41 | the readers' grid has point ids 0 to 1,036,799 in order, which the fixed 720 x 1440 reshape fits |
| LegacyImage.FlatAt | esa_cci_sm/interface.py:70-71 | position g of the flat array is the stored first layer at column g mod 1440 and row 719 - (g div 1440); for the 4.2 reader (`hsaf_cci_042/interface.py:71`) the row is g div 1440 |
| LegacyImage.Lat1DAt | hsaf_cci_042/interface.py:88-93 | the 1-D latitude at g is that of stored row `StoredRow(g)`, counting from the north: reversed for the 4.2 reader, as built for the older one |
| LegacyImage.OneDimensionalAt | hsaf_cci_042/interface.py:71-93 | any variable on the global raster can be read; 1-D entry g is the stored value at row `StoredRow(g)`, column g mod 1440, and the 1-D latitude reported at g is that row's latitude |
| LegacyImage.TwoDimensionalAt | esa_cci_sm/interface.py:70-94 | both readers' 2-D arrays show the stored first layer as stored: position (r, c) is stored row r, column c |
| LegacyImage.Coordinates2DAt | esa_cci_sm/interface.py:96-98 | the 2-D longitude at (r, c) is that of column c, and the 2-D latitude is that of row r counted from the north |
| LegacyImage.TestedCoordinates | tests/test_interface.py:79-83 | in 2-D the top row runs from -179.875 to 179.875, latitude 89.875 at the top and -89.875 at the bottom |
| LegacyImage.NorthernRows1D | hsaf_cci_042/interface.py:88-93 | the 4.2 reader's reversed 1-D latitudes at points 1440 * 85, 1440 * 86 and 1440 * 93 are 68.625, 68.375 and 66.625 |
| Timestamps.DailyTimestamps | src/esa_cci_sm/interface.py:195-201 | the daily loop returns the closed-form daily list |
| Timestamps.DailyProperties | src/esa_cci_sm/interface.py:195-201 | the list starts at the start date and steps by one day; later entries are within the range, and one more day would pass the end; a start after the end still yields the start |
| Timestamps.DailyMembership | src/esa_cci_sm/interface.py:195-201 | an instant is listed exactly when it is the start, or lies in the range a whole number of days after it |
| Timestamps.ThreeHourlyTimestamps | esa_cci_sm/interface.py:158-173 | the loop over `diff.days + 1` days appending the eight offsets returns the closed-form three-hourly list (identical in `hsaf_cci_042/interface.py:160-175`) |
| Timestamps.ThreeHourlyProperties | esa_cci_sm/interface.py:158-173 | eight entries per counted day, three hours apart, starting at the start date; none exactly when the end is before the start; the last day is the one containing the end, ending at 21:00 |
| Timestamps.TestedRanges | tests/test_interface.py:37-48 | one day gives the eight images at 0, 3, ..., 21 hours; two consecutive days give two daily images |
| Dates.MkDate | src/esa_cci_sm/reshuffle.py:54-58 | strings of other lengths than 10 and 16 give None; an accepted string is a valid date, midnight for the short form (identical in `esa_cci_sm/reshuffle.py:50-54`) |
| Dates.ParseFormatDate | src/esa_cci_sm/reshuffle.py:55-56 | a date written as `YYYY-MM-DD` parses back to itself at midnight |
| Dates.ParseFormatMinute | src/esa_cci_sm/reshuffle.py:57-58 | a date and time written as `YYYY-MM-DDTHH:MM` parses back to itself |
| Dates.FormatParse | src/esa_cci_sm/reshuffle.py:54-58 | whatever is accepted is the written form of the result, up to a space-padded day and a lower-case `t` |
| Dates.Str | src/esa_cci_sm/reshuffle.py:200-201 | `str(datetime)` is the date, a space, `HH:MM` and `:00` |
| Dates.StrMinute | src/esa_cci_sm/reshuffle.py:200-201 | the time coverage written by `str` reads back through `mkdate`'s long format to the same date |
| Dates.TestedStart | tests/test_reshuffle.py:17 | `2016-06-06T00:00` is 6 June 2016, midnight |
| Dates.TestedDay | src/esa_cci_sm/reshuffle.py:55-56 | `2016-06-07` is 7 June 2016, midnight |
| Dates.TestedLeapDay | src/esa_cci_sm/reshuffle.py:55-56 | `2015-02-29` matches the format but is no date |
| Dates.TestedRejected | src/esa_cci_sm/reshuffle.py:54-58 | month 13 does not match; a 7-character string gives None |
| Text.Upper | src/esa_cci_sm/reshuffle.py:119-120 | upper-casing keeps the length, leaves no lower-case letter and changes only lower-case letters |
| Text.UpperIdempotent | esa_cci_sm/reshuffle.py:121-124 | upper-casing twice is upper-casing once, and an upper-case name is its own upper-cased form |
| Text.SplitJoin | src/esa_cci_sm/reshuffle.py:133-135 | joining the pieces of a split with the separator gives the string back |
| Text.JoinSplit | src/esa_cci_sm/reshuffle.py:133-135 | splitting a join of separator-free pieces gives the pieces back |
| Text.ParseIntSigned | src/esa_cci_sm/reshuffle.py:198 | `int(str(n)) == n` for every integer |
| Text.ParseIntRejectsPoint | src/esa_cci_sm/reshuffle.py:141-144 | a string with a decimal point is never an integer, so `float()` is tried |
| Text.TestedLeadingZero | src/esa_cci_sm/reshuffle.py:198 | the version `04` reads as 4 |
| Text.TestedDoubleUnderscore | src/esa_cci_sm/reshuffle.py:142 | `1__0` is no integer |
| Text.TestedPadding | src/esa_cci_sm/reshuffle.py:142 | white space around an integer is dropped |
| Dicts.UpdateSpec | src/esa_cci_sm/reshuffle.py:127 | `update` appends the new keys in order, and the other dictionary's values win |
| Dicts.DedupProperties | src/esa_cci_sm/reshuffle.py:129-131 | the keys after assigning names in order are distinct, are exactly the names, and are no more than the names |
| Dicts.DedupDistinct | src/esa_cci_sm/reshuffle.py:129-131 | without repeated names, the keys are the names in order |
| Dicts.DedupOrder | src/esa_cci_sm/reshuffle.py:129-131 | the keys come in the order of the names' first occurrences |
| Dicts.PutAllOutcome | src/esa_cci_sm/reshuffle.py:129-146 | a loop assigning each name its value succeeds exactly when every name's value can be computed; otherwise it raises the error of the first name that fails, all earlier ones having succeeded |
| Dicts.PutAllContents | src/esa_cci_sm/reshuffle.py:129-130 | on success the keys are the names, each once, in order of first occurrence, and each key holds its own value (identical in `esa_cci_sm/reshuffle.py:175-176`) |
| Dicts.PutAllPrefixFailure | esa_cci_sm/reshuffle.py:175-177 | once the loop has failed on a prefix of the names, the later names do not change its outcome |
| Ini.Items | src/esa_cci_sm/reshuffle.py:127 | `items` of a missing section other than DEFAULT raises NoSectionError; otherwise every visible option, interpolated against the merged values |
| Ini.MergedSpec | src/esa_cci_sm/reshuffle.py:127 | a section's items are the DEFAULT options followed by the section's new ones, the section's values winning |
| Ini.Get | esa_cci_sm/reshuffle.py:123-126 | `get` with `vars` raises NoSectionError for a missing section and NoOptionError for an option found in none of `vars`, the section and DEFAULT; otherwise it returns the interpolated value, `vars` winning over the section |
| Ini.GetAgreesWithItems | esa_cci_sm/reshuffle.py:123-126 | without `vars`, `get` finds exactly the options `items` lists, with the same values |
| Ini.SetIn | esa_cci_sm/reshuffle.py:128-135 | `set` on an empty name or DEFAULT writes the defaults, on an existing section writes that section, and raises NoSectionError otherwise |
| Ini.SetThenGet | esa_cci_sm/reshuffle.py:128-135 | after a `set`, `get` sees the new value, and the other sections' items are unchanged |
| Ini.ConfigParser.constructor | esa_cci_sm/reshuffle.py:162-169 | the parser holds the contents read from the file |
| Ini.ConfigParser.Set | esa_cci_sm/reshuffle.py:128-135 | the contents change in place as `SetIn` says, and are unchanged on an error |
| ReshuffleCurrent.Str2BoolReadsBack | src/esa_cci_sm/reshuffle.py:48-52 | Python's spellings of a bool read back; of the integers only 1 is true; `yes`, `false` and the empty string are false |
| ReshuffleCurrent.ChooseGrid | src/esa_cci_sm/reshuffle.py:180-183 | the land grid exactly when `land_points` is set |
| ReshuffleCurrent.DefaultParameters | src/esa_cci_sm/reshuffle.py:190-191 | the default parameters are exactly the file's variables other than `lat`, `lon` and `time` |
| ReshuffleCurrent.DefaultParametersAsReader | src/esa_cci_sm/reshuffle.py:190-194 | the default parameter list is the reader's own default selection, order included |
| ReshuffleCurrent.FloatsOf | src/esa_cci_sm/reshuffle.py:134-135 | converting pieces succeeds exactly when every piece is a number and yields their numbers in order; otherwise it raises for the first piece that is not a number, every earlier piece being one |
| ReshuffleCurrent.ValidRangeReadsBack | src/esa_cci_sm/reshuffle.py:132-137 | a range written with commas, or with single spaces and no commas, comes back as the numbers of its pieces |
| ReshuffleCurrent.FillValueKinds | src/esa_cci_sm/reshuffle.py:139-146 | an integer written by `str` stays that integer; a value with a decimal point is read by `float()` or raises |
| ReshuffleCurrent.TestedFillValue | src/esa_cci_sm/reshuffle.py:142 | the fill value `-9999` becomes the integer -9999 |
| ReshuffleCurrent.CoercedSpec | src/esa_cci_sm/reshuffle.py:131-146 | a variable's attributes keep the section's keys and order; `valid_range` becomes numbers, `_FillValue` a number, the rest stays text; a failure is exactly a failing coercion |
| ReshuffleCurrent.CollectVarMetas | src/esa_cci_sm/reshuffle.py:129-146 | the loop over the variable names returns what assigning each name its coerced section in order gives (`PutAll`), stopping at the first name that fails |
| ReshuffleCurrent.Metadata | src/esa_cci_sm/reshuffle.py:116-149 | a missing metadata file raises naming it; success means the GLOBAL items and the variables' coerced items of that file |
| ReshuffleCurrent.ReadMetadata | src/esa_cci_sm/reshuffle.py:96-149 | `read_metadata` returns exactly `Metadata` |
| ReshuffleCurrent.TestedMetafile | src/esa_cci_sm/reshuffle.py:118-120 | version 4, passive, is `esa_cci_sm_v04_PASSIVE.ini` |
| ReshuffleCurrent.Reshuffle | src/esa_cci_sm/reshuffle.py:153-212 | the converter gets the chosen grid, the given or default parameters, the dates, the buffer, 5 degree cells, zlib and chunks of 1000; under `ignore_meta` only the product attribute; otherwise the metadata with the time coverage appended, or the metadata error, or an error for a version that is no integer |
| ReshuffleCurrent.TimeCoverage | src/esa_cci_sm/reshuffle.py:200-201 | the global attributes keep the file's options in order and end with the start and end as written by `str` |
| ReshuffleLegacy.SensorAbbr | esa_cci_sm/reshuffle.py:109 | known exactly for ACTIVE, PASSIVE and COMBINED; `SSMS` exactly for ACTIVE |
| ReshuffleLegacy.Units | esa_cci_sm/reshuffle.py:111 | known exactly for the three sensor types |
| ReshuffleLegacy.FullName | esa_cci_sm/reshuffle.py:113-115 | known exactly for the three sensor types |
| ReshuffleLegacy.UncertaintyFullName | esa_cci_sm/reshuffle.py:117-119 | known exactly for the three sensor types |
| ReshuffleLegacy.TablesAgree | esa_cci_sm/reshuffle.py:109-119 | the four tables know the same sensor types; `SSMV` goes with m3 m-3 and `SSMS` with percent; each uncertainty name is its variable's name plus " Uncertainty" |
| ReshuffleLegacy.SetsFrame | esa_cci_sm/reshuffle.py:128-135 | the five `set`s leave DEFAULT, the set of sections and every section other than GLOBAL, SM and SM_UNCERTAINTY unchanged |
| ReshuffleLegacy.SetsEffect | esa_cci_sm/reshuffle.py:128-135 | GLOBAL gets the new `product`; SM, when present, its full name and units; SM_UNCERTAINTY, when SM and it are present, its full name and units; a missing SM or SM_UNCERTAINTY section is the error |
| ReshuffleLegacy.SetsOutcome | esa_cci_sm/reshuffle.py:128-135 | the five `set`s write `product`, then SM's and SM_UNCERTAINTY's names and units; the first missing section stops them; DEFAULT and other sections are untouched |
| ReshuffleLegacy.ProdSpecNames | esa_cci_sm/reshuffle.py:90-137 | `prod_spec_names` changes the parser in place to `ProdSpecNamesIn` of its old contents and reports the same error |
| ReshuffleLegacy.ProdSpecNamesIgnoresCase | esa_cci_sm/reshuffle.py:121-126 | the sensor type is matched whatever its case |
| ReshuffleLegacy.ProdSpecNamesErrors | esa_cci_sm/reshuffle.py:121-135 | an unknown sensor type, a missing GLOBAL section or a missing `product` change nothing; a missing SM section fails after `product` was written; a missing SM_UNCERTAINTY section fails after SM was written |
| ReshuffleLegacy.ProdSpecNamesSuccess | esa_cci_sm/reshuffle.py:121-137 | success exactly for a known sensor type with GLOBAL, `product`, SM and SM_UNCERTAINTY present; only the five options change, `product` to its interpolation with the sensor's abbreviation, type and subversion |
| ReshuffleLegacy.Metafile | esa_cci_sm/reshuffle.py:163-164 | the file name is `esa_cci_sm_v0`, the version and `.ini`, the same for every sensor type |
| ReshuffleLegacy.MetafileInjective | esa_cci_sm/reshuffle.py:163-164 | different versions have different metadata files |
| ReshuffleLegacy.VarMetasFailure | esa_cci_sm/reshuffle.py:175-177 | the loop fails exactly when some name's upper-cased section is missing, and then with NoSectionError for the first such name |
| ReshuffleLegacy.CollectVarMetas | esa_cci_sm/reshuffle.py:175-177 | the loop over the variable names returns what assigning each name its items in order gives (`PutAll`), stopping at the first missing section |
| ReshuffleLegacy.Metadata | esa_cci_sm/reshuffle.py:162-179 | a missing file raises naming it; success means `prod_spec_names` succeeded and the result is the updated file's GLOBAL items and the variables' items |
| ReshuffleLegacy.ReadMetadata | esa_cci_sm/reshuffle.py:140-179 | `read_metadata`, through a parser updated in place, returns exactly `Metadata` |
| ReshuffleLegacy.MetadataNamesSensor | esa_cci_sm/reshuffle.py:130-177 | the attributes read for a variable whose section is SM carry the sensor type's full name and units |
| ReshuffleLegacy.Reshuffle | esa_cci_sm/reshuffle.py:183-240 | the converter gets the start image's coordinates as grid, the given or default parameters, the dates, the buffer, 5 degree cells, zlib and chunks of 1000; under `ignore_meta` only the product attribute; otherwise exactly the metadata (no time coverage), or its error, or an error for a version that is no integer |
| ReshuffleLegacy.ReshuffleGridIsGlobal | esa_cci_sm/reshuffle.py:216-220 | the grid built from the older reader's 1-D image is the global grid: point g at the longitude of column g mod 1440 and the latitude of row g div 1440 |

## Left out

- Grid.LonLatToGpi: models `find_nearest_gpi` only at grid nodes. The nearest search elsewhere and its distance belong to pygeogrids, which is not part of this model.
- `CCICellGrid` and `CCILandGrid` are not modelled. The current `reshuffle` only chooses between them (`GridChoice`). The current reader takes its grid as a parameter.
- `CCI_SM_025Ds` and the other image stacks beyond `tstamps_for_daterange` are left out: finding files by date, and the time-series classes. Their behaviour lives in pygeobase.
- The converter `Img2Ts` and `calc`, `parse_filename`'s walk over the input directory, the creation of the output directory, `main` and argument parsing are left out. They are I/O or code outside the package. Their inputs and outputs are parameters or results of the model.
- The CLI's `imgbuffer` default is a parameter of `Reshuffle`. It is 200 in the current package and 50 in the older one.
- Reading NetCDF files and `.ini` files is not modelled. A file is given already opened (`ImageModel.File`), a metadata file already parsed (`Ini.Contents`).
- `optionxform` is not modelled: option names are used as given.
- `configparser` interpolation is not modelled; it is the parameter `expand`. `RawConfigParser` is the identity (`ReshuffleCurrent.Raw`).
- `float()` is not modelled; it is the parameter `toFloat`. Floating-point values, NaN and `np.array` are not modelled.
- CciImage.Decode: a NaN-capable type is a flag of the variable rather than a dtype, and NaN is a value of its own.
- Text.Upper: upper-cases ASCII letters only, not Python's full Unicode mapping.
- Text.ParseInt: accepts ASCII digits only (white space is Python's `str.isspace` set). Like Python 3's `int`, it accepts single underscores between digits; Python 2's `int` does not.
- Dates.MkDate: accepts ASCII digits only, where `strptime`'s `\d` also accepts other Unicode decimal digits.
- `mkdate` returning None for other lengths is modelled, but what `reshuffle` then does with None is not: `Reshuffle` requires valid dates.
- ReshuffleLegacy.ProdSpecNamesIn: models the positional `get(section, option, raw, vars)` with Python 2's `ConfigParser` semantics. Under Python 3 that call raises `TypeError`.
- ReshuffleLegacy.Reshuffle: the image the grid is built from is a parameter. Reading it at the start date is left out. `ReshuffleGridIsGlobal` states what that image's coordinates are.
- The readers' "corrupt file" branches are left out, because the lookup they guard was just assigned. The branches are `return_img[parameter]` raising `KeyError` right after the assignment. The older readers' handler would itself fail.
- Warnings and `print` output are left out.
- LegacyImage.NewReader: the older readers' default `parameter='sm'` (`esa_cci_sm/interface.py:35`) is not a default of the model; callers pass the parameter explicitly.
- The interpolation parameter `expand` is a total function, so `configparser`'s interpolation errors (`InterpolationMissingOptionError`, `InterpolationDepthError`) cannot arise in the model.
- CciImage.Extractable: requires non-negative active point ids below the array length. numpy's negative indexing is not modelled; grid point ids are never negative.
- Timestamps: instants are whole minutes on a uniform scale (naive datetimes). `relativedelta(days=1)` and `timedelta(days=1)` are both one day. Seconds are not modelled, because `mkdate` has minute resolution.
