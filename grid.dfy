/** The global 0.25 degree grid built by `CCI025Cellgrid`: a meshgrid of
    1440 longitudes by 720 latitudes, flattened row-major from the south-west
    corner, whose grid point ids are the flat positions, tiled into 5 by 5
    degree cells.

    Coordinates are integers in eighth-degree units, so that every grid
    coordinate (an odd multiple of 0.125 degrees) is exact: longitude
    -179.875 is -1439 and latitude 89.875 is 719. */
module Grid {
  import opened Common

  const NLon: nat := 1440
  const NLat: nat := 720
  const NPoints: nat := 1036800
  /** Points per cell side: 5 degrees at 0.25 degree resolution. */
  const CellPoints: nat := 20
  /** Number of 5 degree latitude bands, the stride of the cell numbering. */
  const CellBands: nat := 36
  const NCells: nat := 2592

  /** numpy's `arange(start, stop, step)` for a positive step. */
  function Arange(start: int, stop: int, step: nat): seq<int>
    requires step > 0
    decreases stop - start
  {
    if stop <= start then [] else [start] + Arange(start + step, stop, step)
  }

  lemma {:induction false} ArangeAt(start: int, stop: int, step: nat, n: nat)
    requires step > 0
    requires start + (n - 1) * step < stop <= start + n * step
    ensures |Arange(start, stop, step)| == n
    ensures forall i :: 0 <= i < n ==> Arange(start, stop, step)[i] == start + i * step
    decreases n
  {
    if n > 0 {
      assert start + step + (n - 2) * step == start + (n - 1) * step;
      assert start + step + (n - 1) * step == start + n * step;
      ArangeAt(start + step, stop, step, n - 1);
      var tail := Arange(start + step, stop, step);
      forall i | 0 < i < n
        ensures Arange(start, stop, step)[i] == start + i * step
      {
        assert Arange(start, stop, step)[i] == tail[i - 1];
        assert start + step + (i - 1) * step == start + i * step;
      }
    }
  }

  /** The longitude axis: arange(-180 + 0.125, 180 + 0.125, 0.25). */
  const Lons: seq<int> := Arange(-1439, 1441, 2)
  /** The latitude axis: arange(-90 + 0.125, 90 + 0.125, 0.25). */
  const Lats: seq<int> := Arange(-719, 721, 2)

  /** numpy's `meshgrid(xs, ys)`: two arrays of |ys| rows and |xs| columns,
      the first repeating `xs` in every row, the second holding `ys[r]`
      throughout row `r`. */
  function Meshgrid(xs: seq<int>, ys: seq<int>): (seq<seq<int>>, seq<seq<int>>)
  {
    (seq(|ys|, (r: int) => xs),
     seq(|ys|, (r: int) requires 0 <= r < |ys| => seq(|xs|, (c: int) => ys[r])))
  }

  /** A grid with its points in storage order: ids, coordinates and cells,
      aligned index for index. */
  datatype CellGrid = CellGrid(gpis: seq<int>, lon: seq<int>, lat: seq<int>, cells: seq<int>)

  /** Row (south to north) and column (west to east) of a flat position. */
  function Row(g: int): int { g / NLon }
  function Col(g: int): int { g % NLon }
  function GpiAt(row: int, col: int): int { row * NLon + col }

  predicate IsGpi(g: int) { 0 <= g < NPoints }

  function Lon8(col: int): int { 2 * col - 1439 }
  function Lat8(row: int): int { 2 * row - 719 }

  /** `gpi2lonlat`. */
  function GpiToLonLat(g: int): (int, int)
  {
    (Lon8(Col(g)), Lat8(Row(g)))
  }

  /** A coordinate is a grid node when it is an odd number of eighth-degrees
      inside the axis ranges. */
  predicate OnGrid(lon8: int, lat8: int)
  {
    -1439 <= lon8 <= 1439 && lon8 % 2 != 0 && -719 <= lat8 <= 719 && lat8 % 2 != 0
  }

  /** Nearest-point lookup restricted to exact hits: the grid point at a
      grid node, and nothing elsewhere. */
  function LonLatToGpi(lon8: int, lat8: int): Option<int>
  {
    if OnGrid(lon8, lat8) then Some(GpiAt((lat8 + 719) / 2, (lon8 + 1439) / 2)) else None
  }

  /** The 5 by 5 degree tile of a coordinate: 36 latitude bands per
      longitude strip, numbered from the south-west corner. This is the
      numbering of pygeogrids' `to_cell_grid`/`lonlat2cell`, which is not
      part of this model; it agrees with the cell ids the grid tests pin. */
  function TileOf(lon8: int, lat8: int): int
  {
    ((lon8 + 1440) / 40) * CellBands + (lat8 + 720) / 40
  }

  /** The box covered by tile `t`, as half-open eighth-degree ranges. */
  predicate InTile(t: int, lon8: int, lat8: int)
  {
    0 <= t < NCells &&
    (t / CellBands) * 40 - 1440 <= lon8 < (t / CellBands) * 40 - 1400 &&
    (t % CellBands) * 40 - 720 <= lat8 < (t % CellBands) * 40 - 680
  }

  /** `gpi2cell`. */
  function Cell(g: int): int
  {
    TileOf(Lon8(Col(g)), Lat8(Row(g)))
  }

  /** `CCI025Cellgrid()`: the meshgrid flattened, ids equal to positions,
      cells from the tiling. */
  function CCI025Cellgrid(): CellGrid
  {
    var (lonMesh, latMesh) := Meshgrid(Lons, Lats);
    var lon := Flatten(lonMesh);
    var lat := Flatten(latMesh);
    CellGrid(Identity(|lon|), lon, lat,
             seq(|lon|, (k: int) requires 0 <= k < |lon| => if k < |lat| then TileOf(lon[k], lat[k]) else 0))
  }

  lemma AxesLayout()
    ensures |Lons| == NLon && forall c :: 0 <= c < NLon ==> Lons[c] == Lon8(c)
    ensures |Lats| == NLat && forall r :: 0 <= r < NLat ==> Lats[r] == Lat8(r)
  {
    ArangeAt(-1439, 1441, 2, NLon);
    ArangeAt(-719, 721, 2, NLat);
  }

  /** The flattened meshgrid holds, at position k, the longitude of column
      k mod 1440 and the latitude of row k div 1440. */
  lemma {:induction false} MeshgridFlattenAt(k: int)
    requires IsGpi(k)
    ensures |Flatten(Meshgrid(Lons, Lats).0)| == NPoints
    ensures |Flatten(Meshgrid(Lons, Lats).1)| == NPoints
    ensures Flatten(Meshgrid(Lons, Lats).0)[k] == Lon8(Col(k))
    ensures Flatten(Meshgrid(Lons, Lats).1)[k] == Lat8(Row(k))
  {
    AxesLayout();
    MeshgridAt(Lons, Lats, k);
  }

  /** The same for any axes of the grid's widths. */
  lemma MeshgridAt(xs: seq<int>, ys: seq<int>, k: int)
    requires |xs| == NLon && |ys| == NLat && IsGpi(k)
    ensures |Flatten(Meshgrid(xs, ys).0)| == NPoints && Flatten(Meshgrid(xs, ys).0)[k] == xs[Col(k)]
    ensures |Flatten(Meshgrid(xs, ys).1)| == NPoints && Flatten(Meshgrid(xs, ys).1)[k] == ys[Row(k)]
  {
    var (xMesh, yMesh) := Meshgrid(xs, ys);
    assert Rectangular(xMesh, NLon);
    assert Rectangular(yMesh, NLon);
    RowColRoundTrip(k, 0, 0);
    FlattenAt(xMesh, NLon, Row(k), Col(k));
    FlattenAt(yMesh, NLon, Row(k), Col(k));
  }

  /** The grid of `CCI025Cellgrid`: 1,036,800 points, ids equal to positions,
      point k at column k mod 1440 and row k div 1440, cell from the tiling. */
  lemma CellGridLayout()
    ensures |CCI025Cellgrid().gpis| == |CCI025Cellgrid().lon| == NPoints
    ensures |CCI025Cellgrid().lat| == |CCI025Cellgrid().cells| == NPoints
    ensures CCI025Cellgrid().gpis == Identity(NPoints)
    ensures forall k :: 0 <= k < NPoints ==> CCI025Cellgrid().lon[k] == Lon8(Col(k))
    ensures forall k :: 0 <= k < NPoints ==> CCI025Cellgrid().lat[k] == Lat8(Row(k))
    ensures forall k :: 0 <= k < NPoints ==> CCI025Cellgrid().cells[k] == Cell(k)
  {
    MeshgridFlattenAt(0);
    forall k | 0 <= k < NPoints
      ensures CCI025Cellgrid().lon[k] == Lon8(Col(k)) && CCI025Cellgrid().lat[k] == Lat8(Row(k))
    {
      MeshgridFlattenAt(k);
    }
  }

  /** Row and column determine the point and vice versa. */
  lemma RowColRoundTrip(g: int, row: int, col: int)
    ensures IsGpi(g) ==> 0 <= Row(g) < NLat && 0 <= Col(g) < NLon && GpiAt(Row(g), Col(g)) == g
    ensures 0 <= row < NLat && 0 <= col < NLon ==>
      IsGpi(GpiAt(row, col)) && Row(GpiAt(row, col)) == row && Col(GpiAt(row, col)) == col
  {
  }

  /** Looking up the exact coordinate of a grid point finds that point. */
  lemma LonLatRoundTrip(g: int)
    requires IsGpi(g)
    ensures OnGrid(GpiToLonLat(g).0, GpiToLonLat(g).1)
    ensures LonLatToGpi(GpiToLonLat(g).0, GpiToLonLat(g).1) == Some(g)
  {
  }

  /** A lookup succeeds exactly on grid nodes and finds the point there. */
  lemma LonLatToGpiSound(lon8: int, lat8: int)
    ensures LonLatToGpi(lon8, lat8).Some? <==> OnGrid(lon8, lat8)
    ensures LonLatToGpi(lon8, lat8).Some? ==>
      IsGpi(LonLatToGpi(lon8, lat8).value) && GpiToLonLat(LonLatToGpi(lon8, lat8).value) == (lon8, lat8)
  {
    if OnGrid(lon8, lat8) {
      var row, col := (lat8 + 719) / 2, (lon8 + 1439) / 2;
      RowColRoundTrip(0, row, col);
    }
  }

  /** Distinct points have distinct coordinates. */
  lemma GpiToLonLatInjective(g1: int, g2: int)
    requires IsGpi(g1) && IsGpi(g2)
    requires GpiToLonLat(g1) == GpiToLonLat(g2)
    ensures g1 == g2
  {
    LonLatRoundTrip(g1);
    LonLatRoundTrip(g2);
  }

  /** The cell id of a point is (col div 20) * 36 + (row div 20). */
  lemma CellFormula(g: int)
    requires IsGpi(g)
    ensures Cell(g) == (Col(g) / CellPoints) * CellBands + Row(g) / CellPoints
  {
    assert (Lon8(Col(g)) + 1440) / 40 == Col(g) / CellPoints;
    assert (Lat8(Row(g)) + 720) / 40 == Row(g) / CellPoints;
  }

  /** Each point lies in the tile its cell id names, and in no other. */
  lemma CellContainsPoint(g: int, t: int)
    requires IsGpi(g)
    ensures 0 <= Cell(g) < NCells
    ensures InTile(Cell(g), Lon8(Col(g)), Lat8(Row(g)))
    ensures InTile(t, Lon8(Col(g)), Lat8(Row(g))) ==> t == Cell(g)
  {
    CellFormula(g);
    var c := Cell(g);
    assert c / CellBands == Col(g) / CellPoints;
    assert c % CellBands == Row(g) / CellPoints;
    if InTile(t, Lon8(Col(g)), Lat8(Row(g))) {
      assert t / CellBands == Col(g) / CellPoints;
      assert t % CellBands == Row(g) / CellPoints;
    }
  }

  /** The integers 0 .. n - 1 as a set. */
  function Range(n: nat): (r: set<int>)
    ensures forall c :: c in r <==> 0 <= c < n
  {
    if n == 0 then {} else Range(n - 1) + {n - 1}
  }

  lemma {:induction false} RangeCardinality(n: nat)
    ensures |Range(n)| == n
  {
    if n > 0 {
      var smaller := Range(n - 1);
      RangeCardinality(n - 1);
      assert n - 1 !in smaller;
      assert |smaller + {n - 1}| == |smaller| + 1;
    }
  }

  /** Cell `c` holds the point in the south-west corner of its tile. */
  lemma CellReached(c: int)
    requires 0 <= c < NCells
    ensures IsGpi(GpiAt((c % CellBands) * CellPoints, (c / CellBands) * CellPoints))
    ensures Cell(GpiAt((c % CellBands) * CellPoints, (c / CellBands) * CellPoints)) == c
  {
    var band, strip := c % CellBands, c / CellBands;
    assert 0 <= band < CellBands && 0 <= strip < NCells / CellBands;
    var row, col := band * CellPoints, strip * CellPoints;
    assert row / CellPoints == band && col / CellPoints == strip;
    var g := GpiAt(row, col);
    RowColRoundTrip(g, row, col);
    CellFormula(g);
    assert Cell(g) == strip * CellBands + band;
  }

  /** The full grid uses exactly the 2592 cell ids 0 .. 2591. */
  lemma CellCount()
    ensures (set g | 0 <= g < NPoints :: Cell(g)) == Range(NCells)
    ensures |set g | 0 <= g < NPoints :: Cell(g)| == NCells
  {
    var used := set g | 0 <= g < NPoints :: Cell(g);
    forall c | c in used
      ensures c in Range(NCells)
    {
      var g :| 0 <= g < NPoints && Cell(g) == c;
      CellContainsPoint(g, 0);
    }
    forall c | c in Range(NCells)
      ensures c in used
    {
      CellReached(c);
    }
    assert used == Range(NCells);
    RangeCardinality(NCells);
  }

  /** The points pinned by the cell grid test. */
  lemma TestedPoints()
    ensures GpiToLonLat(602942) == (605, 117)    // (75.625, 14.625)
    ensures Cell(602942) == 1856
    ensures LonLatToGpi(605, 117) == Some(602942)
    ensures GpiToLonLat(642933) == (-53, 173)    // (-6.625, 21.625)
    ensures Cell(642933) == 1246
    ensures GpiToLonLat(0) == (-1439, -719) && GpiToLonLat(NPoints - 1) == (1439, 719)
  {
  }

  /** The point pinned by the 4.2 grid test. */
  lemma TestedPointV042()
    ensures GpiToLonLat(153426) == (133, -507)   // (16.625, -63.375)
    ensures Cell(153426) == 1409
  {
  }

  /** The lookup pinned by the reshuffle test. */
  lemma TestedLookup()
    ensures LonLatToGpi(-1439, 547) == Some(911520) // (-179.875, 68.375)
  {
  }
}
