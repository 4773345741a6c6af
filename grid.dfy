/** The grid rules applied when a CMIP5 file is loaded (`CMIP5.__init__` in
    cmip5.py): longitudes moved into [0, 360), only the Arctic rows
    (latitude at least 65 degrees) kept, a 1-D coordinate pair expanded into
    a mesh, and the data scaled and flattened one timestep at a time. */
module Cmip5Grid {
  import opened Seqs
  import opened Samples

  const ArcticLatitude: real := 65.0

  /** A 2-D grid: the latitude and the longitude of every cell, row by row. */
  datatype Grid = Grid(lats: seq<seq<real>>, lons: seq<seq<real>>)

  /** The number of columns of a grid. */
  function Width(g: Grid): nat {
    if |g.lats| == 0 then 0 else |g.lats[0]|
  }

  /** Both coordinate arrays are rectangular of the same shape; `cells` is
      the number of cells. */
  predicate GridShaped(g: Grid, cells: nat) {
    && |g.lats| == |g.lons|
    && Rectangular(g.lats, Width(g))
    && Rectangular(g.lons, Width(g))
    && |Flatten(g.lats)| == cells
    && |Flatten(g.lons)| == cells
  }

  /** The coordinates stored in a file: 1-D axes or 2-D curvilinear arrays. */
  datatype Coords =
    | Axes(latAxis: seq<real>, lonAxis: seq<real>)
    | Mesh(latMesh: seq<seq<real>>, lonMesh: seq<seq<real>>)

  /** A file's contents: values and masks indexed by time, row and column,
      the timestamps in seconds and the calendar year of each timestamp. */
  datatype RawFile = RawFile(
    coords: Coords,
    values: seq<seq<seq<real>>>,
    masks: seq<seq<seq<bool>>>,
    dates: seq<int>,
    years: seq<int>)

  function Rows(c: Coords): nat {
    match c
    case Axes(lats, _) => |lats|
    case Mesh(lats, _) => |lats|
  }

  function Cols(c: Coords): nat {
    match c
    case Axes(_, lons) => |lons|
    case Mesh(lats, _) => if |lats| == 0 then 0 else |lats[0]|
  }

  predicate CoordsShaped(c: Coords) {
    match c
    case Axes(_, _) => true
    case Mesh(lats, lons) =>
      |lats| == |lons| && Rectangular(lats, Cols(c)) && Rectangular(lons, Cols(c))
  }

  /** A readable file: at least one timestep, and every timestep has one
      value and one mask entry per grid cell. */
  predicate RawShaped(f: RawFile) {
    && CoordsShaped(f.coords)
    && |f.values| == |f.masks| == |f.dates| == |f.years| > 0
    && (forall t :: 0 <= t < |f.values| ==>
          |f.values[t]| == Rows(f.coords) && Rectangular(f.values[t], Cols(f.coords)))
    && (forall t :: 0 <= t < |f.masks| ==>
          |f.masks[t]| == Rows(f.coords) && Rectangular(f.masks[t], Cols(f.coords)))
  }

  /** The file's years are `dates.astype('datetime64[Y]')`: the calendar
      year of each date. */
  predicate YearsFromDates(f: RawFile, yearOf: int -> int) {
    |f.years| == |f.dates| && forall k :: 0 <= k < |f.dates| ==> f.years[k] == yearOf(f.dates[k])
  }

  /** `lons[lons < 0] + 360`. */
  function NormalizeLon(lon: real): (r: real)
    ensures lon < 0.0 ==> r == lon + 360.0
    ensures 0.0 <= lon ==> r == lon
    ensures -360.0 <= lon < 360.0 ==> 0.0 <= r < 360.0
  {
    if lon < 0.0 then lon + 360.0 else lon
  }

  function NormalizeLons(lons: seq<real>): (r: seq<real>)
    ensures |r| == |lons|
    ensures forall c :: 0 <= c < |lons| ==> r[c] == NormalizeLon(lons[c])
  {
    seq(|lons|, c requires 0 <= c < |lons| => NormalizeLon(lons[c]))
  }

  function NormalizeLonRows(lons: seq<seq<real>>): (r: seq<seq<real>>)
    ensures |r| == |lons|
    ensures forall k :: 0 <= k < |lons| ==> r[k] == NormalizeLons(lons[k])
  {
    seq(|lons|, k requires 0 <= k < |lons| => NormalizeLons(lons[k]))
  }

  predicate HasArcticEntry(row: seq<real>) {
    exists c :: 0 <= c < |row| && row[c] >= ArcticLatitude
  }

  /** The rows kept: `lats >= 65` for 1-D latitudes, and `np.any` of it along
      each row for 2-D latitudes. */
  function RowFlags(c: Coords): (keep: seq<bool>)
    ensures |keep| == Rows(c)
  {
    match c
    case Axes(lats, _) =>
      seq(|lats|, r requires 0 <= r < |lats| => lats[r] >= ArcticLatitude)
    case Mesh(lats, _) =>
      seq(|lats|, r requires 0 <= r < |lats| => HasArcticEntry(lats[r]))
  }

  /** `np.meshgrid(lons, lats)`: one row per latitude, one column per
      longitude. */
  function MeshGrid(lons: seq<real>, lats: seq<real>): (g: Grid)
    ensures |g.lats| == |g.lons| == |lats|
    ensures Rectangular(g.lats, |lons|) && Rectangular(g.lons, |lons|)
    ensures forall r, c :: 0 <= r < |lats| && 0 <= c < |lons| ==>
              g.lats[r][c] == lats[r] && g.lons[r][c] == lons[c]
  {
    Grid(seq(|lats|, r requires 0 <= r < |lats| => seq(|lons|, _ => lats[r])),
         seq(|lats|, _ => lons))
  }

  /** The grid of the Arctic rows of a file. */
  function ArcticGrid(c: Coords): Grid
    requires CoordsShaped(c)
  {
    match c
    case Axes(lats, lons) =>
      MeshGrid(NormalizeLons(lons), Compress(lats, RowFlags(c)))
    case Mesh(lats, lons) =>
      Grid(Compress(lats, RowFlags(c)), Compress(NormalizeLonRows(lons), RowFlags(c)))
  }

  /** `self.data * scale` on a masked array: numpy keeps the unscaled raw
      value under the mask. */
  function ScaleRow(vals: seq<real>, mask: seq<bool>, scale: real): (r: seq<real>)
    requires |vals| == |mask|
    ensures |r| == |vals|
  {
    seq(|vals|, c requires 0 <= c < |vals| => if mask[c] then vals[c] else vals[c] * scale)
  }

  function ScaleRows(vals: seq<seq<real>>, masks: seq<seq<bool>>, scale: real): (r: seq<seq<real>>)
    requires |vals| == |masks| && forall k :: 0 <= k < |vals| ==> |vals[k]| == |masks[k]|
    ensures |r| == |vals| && forall k :: 0 <= k < |vals| ==> |r[k]| == |vals[k]|
  {
    seq(|vals|, k requires 0 <= k < |vals| => ScaleRow(vals[k], masks[k], scale))
  }

  /** One timestep of a loaded field: the Arctic rows, scaled and flattened. */
  function LoadSample(f: RawFile, t: nat, scale: real): Sample
    requires RawShaped(f) && t < |f.values|
  {
    var keep := RowFlags(f.coords);
    Sample(Flatten(Compress(ScaleRows(f.values[t], f.masks[t], scale), keep)),
           Flatten(Compress(f.masks[t], keep)))
  }

  /** Offsets of the timestamps from the first one. */
  function Offsets(dates: seq<int>): (times: seq<int>)
    requires |dates| > 0
    ensures |times| == |dates| && times[0] == 0
    ensures forall k :: 0 <= k < |dates| ==> dates[k] == dates[0] + times[k]
  {
    seq(|dates|, k requires 0 <= k < |dates| => dates[k] - dates[0])
  }

  // ---------------------------------------------------------------------
  // Properties of the loading rules

  lemma {:induction false} CompressRectangular<T>(m: seq<seq<T>>, keep: seq<bool>, cols: nat)
    requires |keep| == |m| && Rectangular(m, cols)
    ensures Rectangular(Compress(m, keep), cols)
  {
    var idx := Where(keep);
    forall r | 0 <= r < |Compress(m, keep)|
      ensures |Compress(m, keep)[r]| == cols
    {
      assert Compress(m, keep)[r] == m[idx[r]];
    }
  }

  /** With 1-D latitudes exactly the latitudes of at least 65 degrees are
      kept, in their order, and the mesh has one row per kept latitude and one
      column per longitude. */
  lemma ArcticAxes(lats: seq<real>, lons: seq<real>)
    ensures var g := ArcticGrid(Axes(lats, lons));
            && |g.lats| == |Where(RowFlags(Axes(lats, lons)))|
            && Rectangular(g.lats, |lons|) && Rectangular(g.lons, |lons|)
            && (forall x :: (exists r :: 0 <= r < |g.lats| && |lons| > 0 && g.lats[r][0] == x)
                  <==> |lons| > 0 && x in lats && x >= ArcticLatitude)
            && (forall r :: 0 <= r < |g.lats| && |lons| > 0 ==>
                  g.lats[r][0] == lats[Where(RowFlags(Axes(lats, lons)))[r]])
  {
    var g := ArcticGrid(Axes(lats, lons));
    forall x
      ensures (exists r :: 0 <= r < |g.lats| && |lons| > 0 && g.lats[r][0] == x)
              <==> |lons| > 0 && x in lats && x >= ArcticLatitude
    {
      if |lons| > 0 {
        ArcticRow(lats, lons, x);
      }
    }
  }

  /** One latitude heads a row of the 1-D mesh exactly when it is an
      Arctic latitude of the file. */
  lemma ArcticRow(lats: seq<real>, lons: seq<real>, x: real)
    requires |lons| > 0
    ensures var g := ArcticGrid(Axes(lats, lons));
            (exists r :: 0 <= r < |g.lats| && g.lats[r][0] == x) <==> x in lats && x >= ArcticLatitude
  {
    var keep := RowFlags(Axes(lats, lons));
    var kept := Compress(lats, keep);
    var g := ArcticGrid(Axes(lats, lons));
    assert forall r :: 0 <= r < |g.lats| ==> g.lats[r][0] == kept[r];
    CompressMembers(lats, keep, x);
    if x in lats && x >= ArcticLatitude {
      var i :| 0 <= i < |lats| && lats[i] == x;
      assert keep[i];
      var r :| 0 <= r < |kept| && kept[r] == x;
      assert g.lats[r][0] == x;
    }
  }

  /** With 2-D latitudes a row is kept exactly when one of its entries is at
      least 65 degrees; latitudes and longitudes keep the same rows. */
  lemma ArcticMesh(lats: seq<seq<real>>, lons: seq<seq<real>>, row: seq<real>)
    requires CoordsShaped(Mesh(lats, lons))
    ensures var g := ArcticGrid(Mesh(lats, lons));
            && |g.lats| == |g.lons| == |Where(RowFlags(Mesh(lats, lons)))|
            && (row in g.lats <==> row in lats && HasArcticEntry(row))
  {
    var keep := RowFlags(Mesh(lats, lons));
    CompressMembers(lats, keep, row);
    if row in lats && HasArcticEntry(row) {
      var i :| 0 <= i < |lats| && lats[i] == row;
      assert keep[i];
    }
  }

  /** A loaded timestep has one value and one mask entry per cell of the
      Arctic grid, and each cell is a cell of the file at an Arctic row. */
  lemma LoadSampleShape(f: RawFile, t: nat, scale: real)
    requires RawShaped(f) && t < |f.values|
    ensures GridShaped(ArcticGrid(f.coords), |LoadSample(f, t, scale).values|)
    ensures Shaped(LoadSample(f, t, scale), |LoadSample(f, t, scale).values|)
  {
    var c := f.coords;
    var keep := RowFlags(c);
    var cols := Cols(c);
    var kept := |Where(keep)|;
    var vals := ScaleRows(f.values[t], f.masks[t], scale);
    CompressRectangular(vals, keep, cols);
    CompressRectangular(f.masks[t], keep, cols);
    FlattenLength(Compress(vals, keep), cols);
    FlattenLength(Compress(f.masks[t], keep), cols);
    var g := ArcticGrid(c);
    match c
    case Axes(lats, lons) =>
      FlattenLength(g.lats, cols);
      FlattenLength(g.lons, cols);
    case Mesh(lats, lons) =>
      CompressRectangular(lats, keep, cols);
      CompressRectangular(NormalizeLonRows(lons), keep, cols);
      FlattenLength(g.lats, cols);
      FlattenLength(g.lons, cols);
  }

  /** The number of cells of a file's Arctic grid. */
  function LoadedCells(f: RawFile): nat
    requires CoordsShaped(f.coords)
  {
    |Flatten(ArcticGrid(f.coords).lats)|
  }

  /** Every timestep of a file, loaded with `scale`. */
  function LoadedSamples(f: RawFile, scale: real): (r: seq<Sample>)
    requires RawShaped(f)
    ensures |r| == |f.values|
  {
    seq(|f.values|, t requires 0 <= t < |f.values| => LoadSample(f, t, scale))
  }

  /** Every loaded timestep has one value and one mask entry per cell of the
      file's Arctic grid. */
  lemma LoadedShaped(f: RawFile, scale: real)
    requires RawShaped(f)
    ensures AllShaped(LoadedSamples(f, scale), LoadedCells(f))
  {
    forall t | 0 <= t < |f.values|
      ensures Shaped(LoadedSamples(f, scale)[t], LoadedCells(f))
    {
      LoadSampleShape(f, t, scale);
    }
  }

  /** Scaling leaves masked values as they were and scales the others. */
  lemma ScaledCell(f: RawFile, t: nat, scale: real, r: nat, col: nat)
    requires RawShaped(f) && t < |f.values| && r < Rows(f.coords) && col < Cols(f.coords)
    ensures var v := ScaleRows(f.values[t], f.masks[t], scale)[r][col];
            v == if f.masks[t][r][col] then f.values[t][r][col] else f.values[t][r][col] * scale
  {
  }
}
