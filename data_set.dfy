/** The data set of data_set.py: the four CMIP5 fields aligned on a common
    start date and a common grid, and the area of every grid cell. */
module DataSets {
  import opened Wrappers
  import opened Seqs
  import opened Samples
  import opened Cycle
  import opened Cmip5Grid
  import opened Cmip5
  import opened Environment

  /** The earth radius `lat_lon_area` uses, in metres. */
  const EarthRadius: real := 6378100.0

  function Abs(x: real): (r: real)
    ensures r >= 0.0 && (r == x || r == -x)
  {
    if x < 0.0 then -x else x
  }

  /** `lat_lon_area`: the area of the spherical rectangle between two
      latitudes and two longitudes (in degrees), in square metres. */
  function LatLonArea(lat1: real, lat2: real, lon1: real, lon2: real, env: Physics): real {
    (env.pi / 180.0) * (EarthRadius * EarthRadius)
      * Abs(env.sinDeg(lat1) - env.sinDeg(lat2)) * Abs(lon1 - lon2)
  }

  lemma AreaNonNegative(lat1: real, lat2: real, lon1: real, lon2: real, env: Physics)
    requires env.pi >= 0.0
    ensures LatLonArea(lat1, lat2, lon1, lon2, env) >= 0.0
  {
    var c := (env.pi / 180.0) * (EarthRadius * EarthRadius);
    MulNonNegative(env.pi / 180.0, EarthRadius * EarthRadius);
    MulNonNegative(c, Abs(env.sinDeg(lat1) - env.sinDeg(lat2)));
    MulNonNegative(c * Abs(env.sinDeg(lat1) - env.sinDeg(lat2)), Abs(lon1 - lon2));
  }

  /** The order of the two latitudes and of the two longitudes does not
      matter, and a rectangle of no width or no height has no area. */
  lemma AreaSymmetric(lat1: real, lat2: real, lon1: real, lon2: real, env: Physics)
    ensures LatLonArea(lat1, lat2, lon1, lon2, env) == LatLonArea(lat2, lat1, lon1, lon2, env)
    ensures LatLonArea(lat1, lat2, lon1, lon2, env) == LatLonArea(lat1, lat2, lon2, lon1, env)
    ensures lat1 == lat2 || lon1 == lon2 ==> LatLonArea(lat1, lat2, lon1, lon2, env) == 0.0
  {
    assert Abs(env.sinDeg(lat1) - env.sinDeg(lat2)) == Abs(env.sinDeg(lat2) - env.sinDeg(lat1));
    assert Abs(lon1 - lon2) == Abs(lon2 - lon1);
  }

  /** Splitting a rectangle at a longitude between its two splits its area. */
  lemma AreaAdditiveInLongitude(lat1: real, lat2: real, lon1: real, lon2: real, lon3: real, env: Physics)
    requires lon1 <= lon2 <= lon3
    ensures LatLonArea(lat1, lat2, lon1, lon3, env)
            == LatLonArea(lat1, lat2, lon1, lon2, env) + LatLonArea(lat1, lat2, lon2, lon3, env)
  {
    var k := (env.pi / 180.0) * (EarthRadius * EarthRadius) * Abs(env.sinDeg(lat1) - env.sinDeg(lat2));
    assert Abs(lon1 - lon3) == Abs(lon1 - lon2) + Abs(lon2 - lon3);
    assert k * Abs(lon1 - lon3) == k * Abs(lon1 - lon2) + k * Abs(lon2 - lon3);
  }

  /** Splitting a rectangle at a latitude between its two splits its area,
      when the sine does not decrease over the three latitudes. */
  lemma AreaAdditiveInLatitude(lat1: real, lat2: real, lat3: real, lon1: real, lon2: real, env: Physics)
    requires env.sinDeg(lat1) <= env.sinDeg(lat2) <= env.sinDeg(lat3)
    ensures LatLonArea(lat1, lat3, lon1, lon2, env)
            == LatLonArea(lat1, lat2, lon1, lon2, env) + LatLonArea(lat2, lat3, lon1, lon2, env)
  {
    var c := (env.pi / 180.0) * (EarthRadius * EarthRadius);
    var w := Abs(lon1 - lon2);
    var s1, s2, s3 := env.sinDeg(lat1), env.sinDeg(lat2), env.sinDeg(lat3);
    assert Abs(s1 - s3) == Abs(s1 - s2) + Abs(s2 - s3);
    assert c * Abs(s1 - s3) == c * Abs(s1 - s2) + c * Abs(s2 - s3);
    assert c * Abs(s1 - s3) * w == c * Abs(s1 - s2) * w + c * Abs(s2 - s3) * w;
  }

  /** The rectangle from pole to pole all the way round is the surface of
      the sphere, 4 pi R^2: the area `get_radiative_forcing` divides by. */
  lemma EarthSurface(env: Physics)
    requires env.sinDeg(90.0) == 1.0 && env.sinDeg(-90.0) == -1.0
    ensures LatLonArea(-90.0, 90.0, 0.0, 360.0, env) == SphereArea(env)
  {
  }

  /** The surface of the whole earth, 4 pi R^2; positive whenever pi is. */
  function SphereArea(env: Physics): (a: real)
    ensures env.pi > 0.0 ==> a > 0.0
  {
    assert EarthRadius * EarthRadius > 0.0;
    4.0 * env.pi * (EarthRadius * EarthRadius)
  }

  // ---------------------------------------------------------------------
  // Cell areas

  /** `lats[:, 0]`: the latitude of every row. */
  function LatColumn(g: Grid): (lats: seq<real>)
    requires Rectangular(g.lats, Width(g)) && Width(g) > 0
    ensures |lats| == |g.lats|
  {
    seq(|g.lats|, k requires 0 <= k < |g.lats| => g.lats[k][0])
  }

  /** The southern and northern bounds of row `k`: half a step either side
      of its latitude, except that the first row starts at its own latitude
      and the last row runs from half a step above the second-last latitude
      to its own. */
  function RowLow(lats: seq<real>, s: real, k: nat): real
    requires 2 <= |lats| && k < |lats|
  {
    if k == |lats| - 1 then lats[k - 1] + s else if k == 0 then lats[0] else lats[k] - s
  }

  function RowHigh(lats: seq<real>, s: real, k: nat): real
    requires 2 <= |lats| && k < |lats|
  {
    if k == |lats| - 1 then lats[k] else lats[k] + s
  }

  /** The cell areas of a grid: every cell of row `k` has the area between
      that row's bounds and half a longitude step either side of 90 degrees
      east. */
  predicate AreasFor(g: Grid, areas: seq<seq<real>>, env: Physics)
    requires GridShaped(g, |Flatten(g.lats)|) && |g.lats| >= 2 && Width(g) >= 2
  {
    var lats := LatColumn(g);
    var lonStep := (g.lons[0][1] - g.lons[0][0]) * 0.5;
    var latStep := (lats[1] - lats[0]) * 0.5;
    && |areas| == |g.lats|
    && Rectangular(areas, Width(g))
    && forall k, c :: 0 <= k < |areas| && 0 <= c < Width(g) ==>
         areas[k][c] == LatLonArea(RowLow(lats, latStep, k), RowHigh(lats, latStep, k),
                                   90.0 - lonStep, 90.0 + lonStep, env)
  }

  /** `np.tile(column.reshape((n, 1)), cols)`: each row repeats its entry. */
  function Tile(column: seq<real>, cols: nat): (m: seq<seq<real>>)
    ensures |m| == |column| && Rectangular(m, cols)
    ensures forall k, c :: 0 <= k < |column| && 0 <= c < cols ==> m[k][c] == column[k]
  {
    seq(|column|, k requires 0 <= k < |column| => seq(cols, _ => column[k]))
  }

  /** The per-row areas of `_get_areas`: half a step either side for every
      row, then the first and the last row recomputed in place. */
  method RowAreas(lats: seq<real>, latStep: real, lon1: real, lon2: real, env: Physics)
    returns (column: seq<real>)
    requires |lats| >= 2
    ensures |column| == |lats|
    ensures forall k :: 0 <= k < |lats| ==>
              column[k] == LatLonArea(RowLow(lats, latStep, k), RowHigh(lats, latStep, k), lon1, lon2, env)
  {
    var rows := |lats|;
    var areas := new real[rows];
    for k := 0 to rows
      invariant forall j :: 0 <= j < k ==> areas[j] == LatLonArea(lats[j] - latStep, lats[j] + latStep, lon1, lon2, env)
    {
      areas[k] := LatLonArea(lats[k] - latStep, lats[k] + latStep, lon1, lon2, env);
    }
    ghost var middle := areas[..];
    areas[0] := LatLonArea(lats[0], lats[0] + latStep, lon1, lon2, env);
    areas[rows - 1] := LatLonArea(lats[rows - 2] + latStep, lats[rows - 1], lon1, lon2, env);
    column := areas[..];
    forall k | 0 <= k < rows
      ensures column[k] == LatLonArea(RowLow(lats, latStep, k), RowHigh(lats, latStep, k), lon1, lon2, env)
    {
      if 0 < k < rows - 1 {
        assert column[k] == middle[k];
        assert RowLow(lats, latStep, k) == lats[k] - latStep;
      }
    }
  }

  lemma TiledAreas(g: Grid, column: seq<real>, env: Physics)
    requires GridShaped(g, |Flatten(g.lats)|) && |g.lats| >= 2 && Width(g) >= 2
    requires var lats := LatColumn(g);
             var lonStep := (g.lons[0][1] - g.lons[0][0]) * 0.5;
             var latStep := (lats[1] - lats[0]) * 0.5;
             && |column| == |lats|
             && forall k :: 0 <= k < |lats| ==>
                  column[k] == LatLonArea(RowLow(lats, latStep, k), RowHigh(lats, latStep, k),
                                          90.0 - lonStep, 90.0 + lonStep, env)
    ensures AreasFor(g, Tile(column, Width(g)), env)
  {
  }

  /** `_get_areas`: the per-row areas tiled across the columns. A grid with
      fewer than two rows or columns has no step. */
  method GetAreas(g: Grid, cells: nat, env: Physics) returns (r: Result<seq<seq<real>>>)
    requires GridShaped(g, cells)
    ensures r.Err? <==> |g.lats| < 2 || Width(g) < 2
    ensures r.Err? ==> r.error == GridTooSmall
    ensures r.Ok? ==> AreasFor(g, r.value, env) && |Flatten(r.value)| == cells
  {
    var rows, cols := |g.lats|, Width(g);
    if rows < 2 || cols < 2 {
      return Err(GridTooSmall);
    }
    var lons := g.lons[0];
    var lats := LatColumn(g);
    var lonStep := (lons[1] - lons[0]) * 0.5;
    var latStep := (lats[1] - lats[0]) * 0.5;
    var lon := 90.0;
    var column := RowAreas(lats, latStep, lon - lonStep, lon + lonStep, env);
    var tiled := Tile(column, cols);
    TiledAreas(g, column, env);
    FlattenLength(tiled, cols);
    FlattenLength(g.lats, cols);
    r := Ok(tiled);
  }

  /** Uniformly spaced increasing latitudes. */
  predicate UniformRows(lats: seq<real>) {
    && |lats| >= 2
    && lats[0] < lats[1]
    && forall k :: 0 <= k < |lats| - 1 ==> lats[k + 1] - lats[k] == lats[1] - lats[0]
  }

  lemma {:induction false} UniformIncreasing(lats: seq<real>, i: nat, j: nat)
    requires UniformRows(lats) && i <= j < |lats|
    ensures lats[i] <= lats[j]
    decreases j - i
  {
    if i < j {
      UniformIncreasing(lats, i + 1, j);
    }
  }

  /** The areas of the rows from `j` on, for latitude half-step `s`. */
  function BandAreas(lats: seq<real>, s: real, lon1: real, lon2: real, env: Physics, j: nat): (r: seq<real>)
    requires 2 <= |lats| && j <= |lats|
    ensures |r| == |lats| - j
    decreases |lats| - j
  {
    if j == |lats| then []
    else [LatLonArea(RowLow(lats, s, j), RowHigh(lats, s, j), lon1, lon2, env)]
         + BandAreas(lats, s, lon1, lon2, env, j + 1)
  }

  lemma {:induction false} BandAreasAt(lats: seq<real>, s: real, lon1: real, lon2: real, env: Physics, j: nat, i: nat)
    requires 2 <= |lats| && j + i < |lats|
    ensures BandAreas(lats, s, lon1, lon2, env, j)[i]
            == LatLonArea(RowLow(lats, s, j + i), RowHigh(lats, s, j + i), lon1, lon2, env)
    decreases i
  {
    if i > 0 {
      BandAreasAt(lats, s, lon1, lon2, env, j + 1, i - 1);
    }
  }

  /** The rows from `j` on cover the band from the lower bound of row `j` to
      the last latitude. */
  lemma {:induction false} RowsFrom(lats: seq<real>, lon1: real, lon2: real, env: Physics, j: nat)
    requires UniformRows(lats) && j < |lats|
    requires forall x, y :: lats[0] <= x <= y <= lats[|lats| - 1] ==> env.sinDeg(x) <= env.sinDeg(y)
    ensures var s := (lats[1] - lats[0]) * 0.5;
            Sum(BandAreas(lats, s, lon1, lon2, env, j))
            == LatLonArea(RowLow(lats, s, j), lats[|lats| - 1], lon1, lon2, env)
    decreases |lats| - j
  {
    var s := (lats[1] - lats[0]) * 0.5;
    var n := |lats|;
    var band := BandAreas(lats, s, lon1, lon2, env, j);
    var rest := BandAreas(lats, s, lon1, lon2, env, j + 1);
    assert band[1..] == rest;
    if j == n - 1 {
      assert rest == [];
    } else {
      RowsFrom(lats, lon1, lon2, env, j + 1);
      var lo, mid, hi := RowLow(lats, s, j), RowHigh(lats, s, j), lats[n - 1];
      assert lats[j + 1] - lats[j] == 2.0 * s;
      assert mid == RowLow(lats, s, j + 1);
      if j > 0 {
        UniformIncreasing(lats, 1, j);
      }
      UniformIncreasing(lats, j + 1, n - 1);
      assert lats[0] <= lo <= mid <= hi;
      AreaAdditiveInLatitude(lo, mid, hi, lon1, lon2, env);
    }
  }

  /** Column `c` of a matrix whose rows all have more than `c` entries. */
  function Column(m: seq<seq<real>>, c: nat): (r: seq<real>)
    requires forall k :: 0 <= k < |m| ==> c < |m[k]|
    ensures |r| == |m| && forall k :: 0 <= k < |m| ==> r[k] == m[k][c]
  {
    seq(|m|, k requires 0 <= k < |m| => m[k][c])
  }

  /** One column of the areas, read as the areas of the rows. */
  lemma ColumnIsBand(g: Grid, areas: seq<seq<real>>, env: Physics, c: nat)
    requires GridShaped(g, |Flatten(g.lats)|) && |g.lats| >= 2 && Width(g) >= 2 && c < Width(g)
    requires AreasFor(g, areas, env)
    ensures var lats := LatColumn(g);
            var lonStep := (g.lons[0][1] - g.lons[0][0]) * 0.5;
            Column(areas, c)
            == BandAreas(lats, (lats[1] - lats[0]) * 0.5, 90.0 - lonStep, 90.0 + lonStep, env, 0)
  {
    var lats := LatColumn(g);
    var lonStep := (g.lons[0][1] - g.lons[0][0]) * 0.5;
    var s := (lats[1] - lats[0]) * 0.5;
    var column := Column(areas, c);
    var band := BandAreas(lats, s, 90.0 - lonStep, 90.0 + lonStep, env, 0);
    forall k | 0 <= k < |areas|
      ensures column[k] == band[k]
    {
      BandAreasAt(lats, s, 90.0 - lonStep, 90.0 + lonStep, env, 0, k);
    }
  }

  /** On uniformly spaced increasing rows, and where the sine increases,
      the row areas of one column (see `ColumnIsBand`) exactly tile the band
      from the first to the last latitude: no overlap and no gap. */
  lemma BandTiles(lats: seq<real>, lon1: real, lon2: real, env: Physics)
    requires UniformRows(lats)
    requires forall x, y :: lats[0] <= x <= y <= lats[|lats| - 1] ==> env.sinDeg(x) <= env.sinDeg(y)
    ensures Sum(BandAreas(lats, (lats[1] - lats[0]) * 0.5, lon1, lon2, env, 0))
            == LatLonArea(lats[0], lats[|lats| - 1], lon1, lon2, env)
  {
    RowsFrom(lats, lon1, lon2, env, 0);
    assert RowLow(lats, (lats[1] - lats[0]) * 0.5, 0) == lats[0];
  }

  // ---------------------------------------------------------------------
  // Aligning the fields

  /** The common start date: the latest start of the three model fields. */
  function LatestStart(a: int, b: int, c: int): (s: int)
    ensures s >= a && s >= b && s >= c
    ensures s == a || s == b || s == c
  {
    if a >= b && a >= c then a else if b >= c then b else c
  }

  /** `min(model_cmips, key=lambda cmip: cmip.lats.size)`: the first field
      with the fewest grid points. */
  function Coarsest(sizes: seq<nat>): (k: nat)
    requires |sizes| > 0
    ensures k < |sizes|
    ensures forall i :: 0 <= i < |sizes| ==> sizes[k] <= sizes[i]
    ensures forall i :: 0 <= i < k ==> sizes[k] < sizes[i]
  {
    if |sizes| == 1 then 0
    else
      var k := Coarsest(sizes[..|sizes| - 1]);
      if sizes[|sizes| - 1] < sizes[k] then |sizes| - 1 else k
  }

  /** Three ordinary model fields and the cyclic cloud cover, four distinct
      objects. */
  predicate Quartet(sic: Field, sit: Field, tas: Field, clt: Field) {
    && sic != sit && sic != tas && sic != clt && sit != tas && sit != clt && tas != clt
    && !sic.cyclic && !sit.cyclic && !tas.cyclic && clt.cyclic
  }

  /** The reference date `start` has been set on field `f`: as an offset
      from its own start for an ordinary field, as a date with an anchor
      year for the cyclic one. */
  ghost predicate Anchored(f: Field, start: int)
    reads f`delta, f`refLeapYear, f`startDate
  {
    if f.cyclic then f.delta == Some(start) && f.refLeapYear.Some?
    else f.delta == Some(start - f.startDate)
  }

  /** Lines 21-28 of data_set.py: the latest start date of the three model
      fields becomes the reference date of all four fields, set on the model
      fields in turn and then on the cloud cover. Only the cloud cover can
      fail, when no listed leap year lies before the reference year. */
  method SetDeltas(sic: Field, sit: Field, tas: Field, clt: Field, cal: Calendar)
    returns (start: int, r: Result<int>)
    requires Quartet(sic, sit, tas, clt)
    modifies sic`delta, sit`delta, tas`delta, clt`delta
    modifies sic`refLeapYear, sit`refLeapYear, tas`refLeapYear, clt`refLeapYear
    ensures start == LatestStart(sic.startDate, sit.startDate, tas.startDate)
    ensures sic.delta == Some(start - sic.startDate) && sic.delta.value >= 0
    ensures sit.delta == Some(start - sit.startDate) && sit.delta.value >= 0
    ensures tas.delta == Some(start - tas.startDate) && tas.delta.value >= 0
    ensures clt.delta == Some(start)
    ensures r == AnchorYear(cal.yearOf(start))
    ensures r.Ok? ==> clt.refLeapYear == Some(cal.yearStart(r.value))
    ensures r.Ok? ==> Anchored(sic, start) && Anchored(sit, start) && Anchored(tas, start) && Anchored(clt, start)
  {
    start := LatestStart(sic.startDate, sit.startDate, tas.startDate);
    var _ := sic.SetDelta(start, cal.yearOf(start), cal.yearStart);
    var _ := sit.SetDelta(start, cal.yearOf(start), cal.yearStart);
    var _ := tas.SetDelta(start, cal.yearOf(start), cal.yearStart);
    r := clt.SetDelta(start, cal.yearOf(start), cal.yearStart);
  }

  /** Field `f` is on the grid `grid` of `cells` cells. */
  ghost predicate OnGrid(f: Field, grid: Grid, cells: nat)
    reads f`grid, f`cells
  {
    f.grid == grid && f.cells == cells
  }

  /** Field `f` can be regridded to `target`: it has source points or it is
      already on that grid. */
  ghost predicate Regriddable(f: Field, target: Grid)
    reads f`grid, f`cells
  {
    f.grid == target || f.cells > 0
  }

  /** `set_grid_data` on one field, seen from the data set. */
  method RegridOne(f: Field, target: Grid, cells: nat) returns (r: Result<()>)
    requires f.Valid() && GridShaped(target, cells)
    modifies f`grid, f`cells, f`data
    ensures f.Valid()
    ensures r.Ok? <==> old(Regriddable(f, target))
    ensures r.Ok? ==> OnGrid(f, target, cells)
    ensures r.Ok? ==> GridDataOf(old(f.grid), target, cells, old(f.data), f.data)
    ensures r.Err? ==> f.grid == old(f.grid) && f.data == old(f.data)
  {
    r := f.SetGridData(target, cells);
  }

  /** Lines 35-36 of data_set.py: every field is regridded to `target`, in
      order, stopping at the first failure. */
  method RegridAll(sic: Field, sit: Field, tas: Field, clt: Field, target: Grid, cells: nat)
    returns (r: Result<()>)
    requires Quartet(sic, sit, tas, clt) && GridShaped(target, cells)
    requires sic.Valid() && sit.Valid() && tas.Valid() && clt.Valid()
    modifies sic`grid, sit`grid, tas`grid, clt`grid
    modifies sic`cells, sit`cells, tas`cells, clt`cells
    modifies sic`data, sit`data, tas`data, clt`data
    ensures sic.Valid() && sit.Valid() && tas.Valid() && clt.Valid()
    ensures r.Ok? <==> && old(Regriddable(sic, target)) && old(Regriddable(sit, target))
                       && old(Regriddable(tas, target)) && old(Regriddable(clt, target))
    ensures r.Ok? ==> && OnGrid(sic, target, cells) && OnGrid(sit, target, cells)
                      && OnGrid(tas, target, cells) && OnGrid(clt, target, cells)
    ensures r.Ok? ==> && GridDataOf(old(sic.grid), target, cells, old(sic.data), sic.data)
                      && GridDataOf(old(sit.grid), target, cells, old(sit.data), sit.data)
                      && GridDataOf(old(tas.grid), target, cells, old(tas.data), tas.data)
                      && GridDataOf(old(clt.grid), target, cells, old(clt.data), clt.data)
  {
    r := RegridOne(sic, target, cells);
    if r.Err? { return; }
    r := RegridOne(sit, target, cells);
    if r.Err? { return; }
    r := RegridOne(tas, target, cells);
    if r.Err? { return; }
    r := RegridOne(clt, target, cells);
  }

  /** The offsets of a field allow linear interpolation. */
  ghost predicate Interpolable(f: Field)
    reads f`times
  {
    |f.times| >= 2 && StrictlyIncreasing(f.times)
  }

  /** The interpolators of `f` were built from its current samples. */
  ghost predicate Interpolated(f: Field)
    reads f`interp, f`times, f`data, f`cells
  {
    f.interp == Some(Series(f.times, f.data, f.cells))
  }

  /** `set_interpolation` on one field, seen from the data set. */
  method InterpolateOne(f: Field) returns (r: Result<()>)
    requires f.Valid()
    modifies f`interp
    ensures f.Valid()
    ensures r.Ok? <==> Interpolable(f)
    ensures r.Ok? ==> Interpolated(f)
  {
    r := f.SetInterpolation();
  }

  /** Lines 38-39 of data_set.py: every field builds its interpolators, in
      order, stopping at the first failure. */
  method InterpolateAll(sic: Field, sit: Field, tas: Field, clt: Field) returns (r: Result<()>)
    requires Quartet(sic, sit, tas, clt)
    requires sic.Valid() && sit.Valid() && tas.Valid() && clt.Valid()
    modifies sic`interp, sit`interp, tas`interp, clt`interp
    ensures sic.Valid() && sit.Valid() && tas.Valid() && clt.Valid()
    ensures r.Ok? <==> Interpolable(sic) && Interpolable(sit) && Interpolable(tas) && Interpolable(clt)
    ensures r.Ok? ==> Interpolated(sic) && Interpolated(sit) && Interpolated(tas) && Interpolated(clt)
  {
    r := InterpolateOne(sic);
    if r.Err? { return; }
    r := InterpolateOne(sit);
    if r.Err? { return; }
    r := InterpolateOne(tas);
    if r.Err? { return; }
    r := InterpolateOne(clt);
  }

  /** Lines 35-39 of data_set.py on anchored fields: regrid all four to
      `grid`, then build all four interpolators; on success every field can
      be queried on `grid`. */
  method PrepareFields(sic: Field, sit: Field, tas: Field, clt: Field, start: int, grid: Grid, cells: nat)
    returns (r: Result<()>)
    requires Quartet(sic, sit, tas, clt) && GridShaped(grid, cells)
    requires sic.Valid() && sit.Valid() && tas.Valid() && clt.Valid()
    requires Anchored(sic, start) && Anchored(sit, start) && Anchored(tas, start) && Anchored(clt, start)
    modifies sic`grid, sit`grid, tas`grid, clt`grid
    modifies sic`cells, sit`cells, tas`cells, clt`cells
    modifies sic`data, sit`data, tas`data, clt`data
    modifies sic`interp, sit`interp, tas`interp, clt`interp
    ensures r.Ok? ==> && FieldOn(sic, grid, cells) && FieldOn(sit, grid, cells)
                      && FieldOn(tas, grid, cells) && FieldOn(clt, grid, cells)
    ensures r.Ok? ==> && GridDataOf(old(sic.grid), grid, cells, old(sic.data), sic.data)
                      && GridDataOf(old(sit.grid), grid, cells, old(sit.data), sit.data)
                      && GridDataOf(old(tas.grid), grid, cells, old(tas.data), tas.data)
                      && GridDataOf(old(clt.grid), grid, cells, old(clt.data), clt.data)
    ensures r.Ok? ==> AllInterpolated(sic, sit, tas, clt)
  {
    r := RegridAll(sic, sit, tas, clt, grid, cells);
    if r.Err? {
      return;
    }
    r := InterpolateOn(sic, sit, tas, clt, start, grid, cells);
  }

  /** Lines 38-39 of data_set.py on anchored fields already on `grid`: on
      success every field can be queried on `grid`. */
  method InterpolateOn(sic: Field, sit: Field, tas: Field, clt: Field, start: int, grid: Grid, cells: nat)
    returns (r: Result<()>)
    requires Quartet(sic, sit, tas, clt)
    requires sic.Valid() && sit.Valid() && tas.Valid() && clt.Valid()
    requires Anchored(sic, start) && Anchored(sit, start) && Anchored(tas, start) && Anchored(clt, start)
    requires OnGrid(sic, grid, cells) && OnGrid(sit, grid, cells) && OnGrid(tas, grid, cells) && OnGrid(clt, grid, cells)
    modifies sic`interp, sit`interp, tas`interp, clt`interp
    ensures r.Ok? ==> && FieldOn(sic, grid, cells) && FieldOn(sit, grid, cells)
                      && FieldOn(tas, grid, cells) && FieldOn(clt, grid, cells)
    ensures r.Ok? ==> AllInterpolated(sic, sit, tas, clt)
  {
    r := InterpolateAll(sic, sit, tas, clt);
    if r.Err? {
      return;
    }
    Prepared(sic, start, grid, cells);
    Prepared(sit, start, grid, cells);
    Prepared(tas, start, grid, cells);
    Prepared(clt, start, grid, cells);
  }

  /** Field `f` can be queried on the grid `grid` of `cells` cells. */
  ghost predicate FieldOn(f: Field, grid: Grid, cells: nat)
    reads f
  {
    f.Ready() && f.grid == grid && f.cells == cells && f.interp.value.cells == cells
  }

  /** Every field's interpolators were built from its current samples. */
  ghost predicate AllInterpolated(sic: Field, sit: Field, tas: Field, clt: Field)
    reads sic, sit, tas, clt
  {
    Interpolated(sic) && Interpolated(sit) && Interpolated(tas) && Interpolated(clt)
  }

  /** A field that was anchored, regridded and interpolated can be queried. */
  lemma Prepared(f: Field, start: int, grid: Grid, cells: nat)
    requires f.Valid() && Anchored(f, start) && OnGrid(f, grid, cells) && Interpolated(f)
    ensures FieldOn(f, grid, cells)
  {
  }

  class DataSet {
    const sic: Field
    const sit: Field
    const tas: Field
    const clt: Field
    const startDate: int
    const grid: Grid
    const cells: nat
    const areas: seq<seq<real>>

    /** The fields are ready to be queried on the common grid, and every
        field's reference date is the common start date. */
    ghost predicate Valid()
      reads sic, sit, tas, clt
    {
      && GridShaped(grid, cells)
      && |Flatten(areas)| == cells
      && Quartet(sic, sit, tas, clt)
      && FieldOn(sic, grid, cells) && FieldOn(sit, grid, cells)
      && FieldOn(tas, grid, cells) && FieldOn(clt, grid, cells)
      && Anchored(sic, startDate) && Anchored(sit, startDate)
      && Anchored(tas, startDate) && Anchored(clt, startDate)
    }

    constructor Assemble(sic: Field, sit: Field, tas: Field, clt: Field,
                         startDate: int, grid: Grid, cells: nat, areas: seq<seq<real>>)
      requires GridShaped(grid, cells) && |Flatten(areas)| == cells
      requires Quartet(sic, sit, tas, clt)
      requires FieldOn(sic, grid, cells) && FieldOn(sit, grid, cells)
      requires FieldOn(tas, grid, cells) && FieldOn(clt, grid, cells)
      requires Anchored(sic, startDate) && Anchored(sit, startDate)
      requires Anchored(tas, startDate) && Anchored(clt, startDate)
      ensures Valid()
      ensures this.sic == sic && this.sit == sit && this.tas == tas && this.clt == clt
      ensures this.startDate == startDate && this.grid == grid && this.cells == cells && this.areas == areas
    {
      this.sic, this.sit, this.tas, this.clt := sic, sit, tas, clt;
      this.startDate, this.grid, this.cells, this.areas := startDate, grid, cells, areas;
    }

    /** Lines 14-17 of data_set.py: the three model fields as loaded, and
        the cloud cover collapsed into its cycle or the error of that step. */
    static method Open(sicRaw: RawFile, sitRaw: RawFile, tasRaw: RawFile, cltRaw: RawFile,
                       sicScale: real, cltScale: real)
      returns (sic: Field, sit: Field, tas: Field, clt: Result<Field>)
      requires RawShaped(sicRaw) && RawShaped(sitRaw) && RawShaped(tasRaw) && RawShaped(cltRaw)
      ensures fresh(sic) && fresh(sit) && fresh(tas)
      ensures sic.Valid() && sit.Valid() && tas.Valid()
      ensures sic.startDate == sicRaw.dates[0] && sit.startDate == sitRaw.dates[0]
      ensures tas.startDate == tasRaw.dates[0]
      ensures sic.grid == ArcticGrid(sicRaw.coords) && sit.grid == ArcticGrid(sitRaw.coords)
      ensures tas.grid == ArcticGrid(tasRaw.coords)
      ensures sic.data == LoadedSamples(sicRaw, sicScale) && sit.data == LoadedSamples(sitRaw, 1.0)
      ensures tas.data == LoadedSamples(tasRaw, 1.0)
      ensures !IsListedLeapYear(cltRaw.years[0]) ==> clt == Err(CycleStartNotLeapYear)
      ensures clt.Ok? <==> LoadedCycle(cltRaw, cltScale).Ok?
      ensures clt.Err? ==> clt.error == LoadedCycle(cltRaw, cltScale).error
      ensures clt.Ok? ==> && fresh(clt.value) && Quartet(sic, sit, tas, clt.value) && clt.value.Valid()
                          && clt.value.grid == ArcticGrid(cltRaw.coords)
                          && clt.value.data == LoadedCycle(cltRaw, cltScale).value.samples
                          && clt.value.dates == LoadedCycle(cltRaw, cltScale).value.dates
    {
      sic := new Field.Load(sicRaw, sicScale, false);
      sit := new Field.Load(sitRaw, 1.0, false);
      tas := new Field.Load(tasRaw, 1.0, false);
      clt := Field.OpenCyclic(cltRaw, cltScale);
    }

    /** Lines 32-41 of data_set.py once the reference date is set: regrid
        every field to `grid`, then build every field's interpolators, then
        compute the cell areas. */
    static method Prepare(sic: Field, sit: Field, tas: Field, clt: Field,
                          start: int, grid: Grid, cells: nat, env: Physics)
      returns (r: Result<DataSet>)
      requires Quartet(sic, sit, tas, clt) && GridShaped(grid, cells)
      requires sic.Valid() && sit.Valid() && tas.Valid() && clt.Valid()
      requires Anchored(sic, start) && Anchored(sit, start) && Anchored(tas, start) && Anchored(clt, start)
      modifies sic`grid, sit`grid, tas`grid, clt`grid
      modifies sic`cells, sit`cells, tas`cells, clt`cells
      modifies sic`data, sit`data, tas`data, clt`data
      modifies sic`interp, sit`interp, tas`interp, clt`interp
      ensures r.Ok? ==> var ds := r.value;
                && fresh(ds) && ds.sic == sic && ds.sit == sit && ds.tas == tas && ds.clt == clt
                && ds.Valid() && ds.startDate == start && ds.grid == grid
                && |grid.lats| >= 2 && Width(grid) >= 2 && AreasFor(grid, ds.areas, env)
      ensures r.Ok? ==> && GridDataOf(old(sic.grid), grid, cells, old(sic.data), sic.data)
                        && GridDataOf(old(sit.grid), grid, cells, old(sit.data), sit.data)
                        && GridDataOf(old(tas.grid), grid, cells, old(tas.data), tas.data)
                        && GridDataOf(old(clt.grid), grid, cells, old(clt.data), clt.data)
      ensures r.Ok? ==> AllInterpolated(sic, sit, tas, clt)
    {
      var ready := PrepareFields(sic, sit, tas, clt, start, grid, cells);
      if ready.Err? {
        return Err(ready.error);
      }
      var areas := GetAreas(grid, cells, env);
      if areas.Err? {
        return Err(areas.error);
      }
      var ds := new DataSet.Assemble(sic, sit, tas, clt, start, grid, cells, areas.value);
      r := Ok(ds);
    }

    /** Lines 19-41 of data_set.py on loaded fields: the latest model start
        date becomes the reference of all four fields, every field is
        regridded to the first coarsest grid before any field builds its
        interpolators, and the cell areas are computed. */
    static method Setup(sic: Field, sit: Field, tas: Field, clt: Field, cal: Calendar, env: Physics)
      returns (r: Result<DataSet>)
      requires Quartet(sic, sit, tas, clt)
      requires sic.Valid() && sit.Valid() && tas.Valid() && clt.Valid()
      modifies sic`delta, sit`delta, tas`delta, clt`delta
      modifies sic`refLeapYear, sit`refLeapYear, tas`refLeapYear, clt`refLeapYear
      modifies sic`grid, sit`grid, tas`grid, clt`grid
      modifies sic`cells, sit`cells, tas`cells, clt`cells
      modifies sic`data, sit`data, tas`data, clt`data
      modifies sic`interp, sit`interp, tas`interp, clt`interp
      ensures AnchorYear(cal.yearOf(LatestStart(sic.startDate, sit.startDate, tas.startDate))).Err? ==>
                r == Err(NoEarlierLeapYear)
      ensures r.Ok? ==> var ds := r.value;
                && fresh(ds) && ds.sic == sic && ds.sit == sit && ds.tas == tas && ds.clt == clt
                && ds.Valid()
                && ds.startDate == LatestStart(sic.startDate, sit.startDate, tas.startDate)
      ensures r.Ok? ==> var ds := r.value;
                var grids := old([sic.grid, sit.grid, tas.grid, clt.grid]);
                var sizes := old([sic.cells, sit.cells, tas.cells, clt.cells]);
                && ds.grid == grids[Coarsest(sizes)]
                && |ds.grid.lats| >= 2 && Width(ds.grid) >= 2
                && AreasFor(ds.grid, ds.areas, env)
      ensures r.Ok? ==> var ds := r.value;
                && GridDataOf(old(sic.grid), ds.grid, ds.cells, old(sic.data), sic.data)
                && GridDataOf(old(sit.grid), ds.grid, ds.cells, old(sit.data), sit.data)
                && GridDataOf(old(tas.grid), ds.grid, ds.cells, old(tas.data), tas.data)
                && GridDataOf(old(clt.grid), ds.grid, ds.cells, old(clt.data), clt.data)
      ensures r.Ok? ==> AllInterpolated(sic, sit, tas, clt)
    {
      var start, anchored := SetDeltas(sic, sit, tas, clt, cal);
      if anchored.Err? {
        return Err(anchored.error);
      }
      var sizes := [sic.cells, sit.cells, tas.cells, clt.cells];
      var grids := [sic.grid, sit.grid, tas.grid, clt.grid];
      var k := Coarsest(sizes);
      var grid, cells := grids[k], sizes[k];
      assert GridShaped(grid, cells) by {
        if k == 0 {
          assert sic.Valid();
        } else if k == 1 {
          assert sit.Valid();
        } else if k == 2 {
          assert tas.Valid();
        } else {
          assert clt.Valid();
        }
      }
      r := Prepare(sic, sit, tas, clt, start, grid, cells, env);
    }

    /** `DataSet.__init__`: loads the four fields and sets them up. */
    static method Build(sicRaw: RawFile, sitRaw: RawFile, tasRaw: RawFile, cltRaw: RawFile,
                        sicScale: real, cltScale: real, cal: Calendar, env: Physics)
      returns (r: Result<DataSet>)
      requires RawShaped(sicRaw) && RawShaped(sitRaw) && RawShaped(tasRaw) && RawShaped(cltRaw)
      requires YearsFromDates(sicRaw, cal.yearOf) && YearsFromDates(sitRaw, cal.yearOf)
      requires YearsFromDates(tasRaw, cal.yearOf) && YearsFromDates(cltRaw, cal.yearOf)
      ensures !IsListedLeapYear(cal.yearOf(cltRaw.dates[0])) ==> r == Err(CycleStartNotLeapYear)
      ensures r.Ok? ==> fresh(r.value) && r.value.Valid()
      ensures r.Ok? ==> r.value.startDate == LatestStart(sicRaw.dates[0], sitRaw.dates[0], tasRaw.dates[0])
      ensures r.Ok? ==> var ds := r.value;
                && GridDataOf(ArcticGrid(sicRaw.coords), ds.grid, ds.cells, LoadedSamples(sicRaw, sicScale), ds.sic.data)
                && GridDataOf(ArcticGrid(sitRaw.coords), ds.grid, ds.cells, LoadedSamples(sitRaw, 1.0), ds.sit.data)
                && GridDataOf(ArcticGrid(tasRaw.coords), ds.grid, ds.cells, LoadedSamples(tasRaw, 1.0), ds.tas.data)
                && LoadedCycle(cltRaw, cltScale).Ok?
                && GridDataOf(ArcticGrid(cltRaw.coords), ds.grid, ds.cells,
                              LoadedCycle(cltRaw, cltScale).value.samples, ds.clt.data)
      ensures r.Ok? ==> AllInterpolated(r.value.sic, r.value.sit, r.value.tas, r.value.clt)
    {
      assert cltRaw.years[0] == cal.yearOf(cltRaw.dates[0]);
      var sic, sit, tas, clt := Open(sicRaw, sitRaw, tasRaw, cltRaw, sicScale, cltScale);
      if clt.Err? {
        return Err(clt.error);
      }
      r := Setup(sic, sit, tas, clt.value, cal, env);
    }

    /** `get_zeniths`: the solar zenith angle of every grid cell at offset
        `t` from the common start date, 90 degrees minus the altitude. */
    function Zeniths(t: int, env: Physics): (z: seq<real>)
      requires GridShaped(grid, cells)
      ensures |z| == cells
      ensures forall j :: 0 <= j < cells ==>
                z[j] + env.altitude(Flatten(grid.lats)[j], Flatten(grid.lons)[j], startDate + t) == 90.0
    {
      var lats, lons := Flatten(grid.lats), Flatten(grid.lons);
      seq(cells, j requires 0 <= j < cells => 90.0 - env.altitude(lats[j], lons[j], startDate + t))
    }
  }
}
