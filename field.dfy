/** A CMIP5 field (`CMIP5` and its cyclic variant `CltCMIP5` in cmip5.py):
    the Arctic grid, one flattened sample per timestep, the sample offsets,
    the offset set by `set_delta`, and the interpolator snapshot taken by
    `set_interpolation`. The cyclic variant is the same object with its data
    collapsed into one 4-year cycle and its queries folded into that cycle. */
module Cmip5 {
  import opened Wrappers
  import opened Seqs
  import opened Samples
  import opened Cycle
  import opened Cmip5Grid

  /** Elementwise `a & b`. */
  function AndMasks(a: seq<bool>, b: seq<bool>): (r: seq<bool>)
    requires |a| == |b|
    ensures |r| == |a|
    ensures forall c :: 0 <= c < |a| ==> (r[c] <==> a[c] && b[c])
  {
    seq(|a|, c requires 0 <= c < |a| => a[c] && b[c])
  }

  /** The `mask` property: the first timestep's mask and-ed with each later
      one in turn, so a cell is masked exactly when it is masked at every
      timestep. */
  function MaskedEverywhere(data: seq<Sample>, cells: nat): (m: seq<bool>)
    requires |data| > 0 && AllShaped(data, cells)
    ensures |m| == cells
    ensures forall c :: 0 <= c < cells ==> (m[c] <==> forall k :: 0 <= k < |data| ==> data[k].mask[c])
  {
    if |data| == 1 then data[0].mask
    else AndMasks(MaskedEverywhere(data[..|data| - 1], cells), data[|data| - 1].mask)
  }

  function SqDist(lat0: real, lon0: real, lat1: real, lon1: real): real {
    (lat0 - lat1) * (lat0 - lat1) + (lon0 - lon1) * (lon0 - lon1)
  }

  /** Source point `k` is a nearest one to (lat, lon). */
  predicate IsNearest(lats: seq<real>, lons: seq<real>, lat: real, lon: real, k: nat)
    requires |lats| == |lons|
  {
    && k < |lats|
    && forall i :: 0 <= i < |lats| ==> SqDist(lats[k], lons[k], lat, lon) <= SqDist(lats[i], lons[i], lat, lon)
  }

  /** A nearest source point to (lat, lon), the first one on a tie: the
      search `griddata(..., method='nearest')` makes. */
  method NearestPoint(lats: seq<real>, lons: seq<real>, lat: real, lon: real) returns (k: nat)
    requires |lats| == |lons| > 0
    ensures IsNearest(lats, lons, lat, lon, k)
    ensures forall i :: 0 <= i < k ==> SqDist(lats[k], lons[k], lat, lon) < SqDist(lats[i], lons[i], lat, lon)
  {
    k := 0;
    var best := SqDist(lats[0], lons[0], lat, lon);
    for i := 1 to |lats|
      invariant k < i && best == SqDist(lats[k], lons[k], lat, lon)
      invariant forall j :: 0 <= j < i ==> best <= SqDist(lats[j], lons[j], lat, lon)
      invariant forall j :: 0 <= j < k ==> best < SqDist(lats[j], lons[j], lat, lon)
    {
      var d := SqDist(lats[i], lons[i], lat, lon);
      if d < best {
        k, best := i, d;
      }
    }
  }

  /** The nearest source cell of every target cell. */
  method NearestCells(src: Grid, target: Grid) returns (pick: seq<nat>)
    requires |Flatten(src.lats)| == |Flatten(src.lons)| > 0
    requires |Flatten(target.lats)| == |Flatten(target.lons)|
    ensures |pick| == |Flatten(target.lats)|
    ensures forall j :: 0 <= j < |pick| ==>
              IsNearest(Flatten(src.lats), Flatten(src.lons), Flatten(target.lats)[j], Flatten(target.lons)[j], pick[j])
  {
    var sl, so := Flatten(src.lats), Flatten(src.lons);
    var tl, to := Flatten(target.lats), Flatten(target.lons);
    pick := [];
    for j := 0 to |tl|
      invariant |pick| == j
      invariant forall q :: 0 <= q < j ==> IsNearest(sl, so, tl[q], to[q], pick[q])
    {
      var k := NearestPoint(sl, so, tl[j], to[j]);
      pick := pick + [k];
    }
  }

  /** One regridded timestep: each target cell takes the raw value of its
      source cell; `griddata` reads raw data, so the result has no mask. */
  function Regridded(s: Sample, pick: seq<nat>): (r: Sample)
    requires forall j :: 0 <= j < |pick| ==> pick[j] < |s.values|
    ensures Shaped(r, |pick|)
    ensures forall j :: 0 <= j < |pick| ==> r.values[j] == s.values[pick[j]] && !r.mask[j]
  {
    Sample(seq(|pick|, j requires 0 <= j < |pick| => s.values[pick[j]]), seq(|pick|, _ => false))
  }

  /** Target cell `j` of `after` holds, at every timestep, the raw value of
      one and the same nearest source cell of `before`, unmasked. */
  ghost predicate ReadsNearest(src: Grid, target: Grid, before: seq<Sample>, after: seq<Sample>, j: nat)
    requires |Flatten(src.lats)| == |Flatten(src.lons)|
    requires j < |Flatten(target.lats)| == |Flatten(target.lons)|
    requires |after| == |before|
    requires AllShaped(before, |Flatten(src.lats)|) && AllShaped(after, |Flatten(target.lats)|)
  {
    exists k: nat :: IsNearest(Flatten(src.lats), Flatten(src.lons), Flatten(target.lats)[j], Flatten(target.lons)[j], k)
                     && forall t :: 0 <= t < |after| ==> after[t].values[j] == before[t].values[k] && !after[t].mask[j]
  }

  /** `after` is `before` regridded by `griddata(..., method='nearest')`
      from the grid `src` to the grid `target` of `cells` cells: every target
      cell reads the raw value of one nearest source cell, the same cell at
      every timestep, and no cell is masked. */
  ghost predicate NearestRegrid(src: Grid, target: Grid, cells: nat, before: seq<Sample>, after: seq<Sample>)
  {
    && |Flatten(src.lats)| == |Flatten(src.lons)|
    && |Flatten(target.lats)| == |Flatten(target.lons)| == cells
    && |after| == |before|
    && AllShaped(before, |Flatten(src.lats)|) && AllShaped(after, cells)
    && forall j :: 0 <= j < cells ==> ReadsNearest(src, target, before, after, j)
  }

  /** Reading every timestep through a nearest source cell per target cell
      is a nearest-point regridding. */
  lemma RegridByPicks(src: Grid, target: Grid, cells: nat, before: seq<Sample>, pick: seq<nat>, after: seq<Sample>)
    requires |Flatten(src.lats)| == |Flatten(src.lons)|
    requires |Flatten(target.lats)| == |Flatten(target.lons)| == cells == |pick|
    requires AllShaped(before, |Flatten(src.lats)|)
    requires forall j :: 0 <= j < |pick| ==> pick[j] < |Flatten(src.lats)|
    requires forall j :: 0 <= j < |pick| ==>
               IsNearest(Flatten(src.lats), Flatten(src.lons), Flatten(target.lats)[j], Flatten(target.lons)[j], pick[j])
    requires |after| == |before| && forall t :: 0 <= t < |before| ==> after[t] == Regridded(before[t], pick)
    ensures NearestRegrid(src, target, cells, before, after)
  {
    forall j | 0 <= j < cells
      ensures ReadsNearest(src, target, before, after, j)
    {
      var k := pick[j];
      assert IsNearest(Flatten(src.lats), Flatten(src.lons), Flatten(target.lats)[j], Flatten(target.lons)[j], k);
    }
  }

  /** The samples `set_grid_data` leaves: `before` itself when the target is
      the current grid, the nearest-point regridding otherwise. */
  ghost predicate GridDataOf(src: Grid, target: Grid, cells: nat, before: seq<Sample>, after: seq<Sample>)
  {
    if src == target then after == before else NearestRegrid(src, target, cells, before, after)
  }

  /** The 4-year cycle `CltCMIP5` makes of file `raw` loaded with `scale`. */
  function LoadedCycle(raw: RawFile, scale: real): (r: Result<Block>)
    requires RawShaped(raw)
    ensures !IsListedLeapYear(raw.years[0]) ==> r == Err(CycleStartNotLeapYear)
    ensures r.Ok? ==> BlockShaped(r.value, LoadedCells(raw)) && |r.value.samples| > 0
    ensures r.Ok? ==> forall k, c :: 0 <= k < |r.value.samples| && 0 <= c < LoadedCells(raw) ==>
                        !r.value.samples[k].mask[c]
  {
    LoadedShaped(raw, scale);
    var b := Block(raw.dates, raw.years, LoadedSamples(raw, scale));
    var r := CollapseSpec(b, LoadedCells(raw));
    if r.Ok? then CollapseNonEmpty(b, LoadedCells(raw)); r else r
  }

  /** The shape invariant of a field: one date, one year and one sample of
      `cells` cells per timestep, the offsets measured from the first date,
      and an interpolator snapshot that can be queried. */
  ghost predicate Consistent(grid: Grid, cells: nat, data: seq<Sample>, dates: seq<int>, years: seq<int>,
                             startDate: int, times: seq<int>, interp: Option<Series>)
  {
    && |data| == |dates| == |years| > 0
    && GridShaped(grid, cells)
    && AllShaped(data, cells)
    && startDate == dates[0]
    && times == Offsets(dates)
    && (interp.Some? ==> ValidSeries(interp.value))
  }

  class Field {
    const cyclic: bool
    var grid: Grid
    var cells: nat
    var data: seq<Sample>
    var dates: seq<int>
    var years: seq<int>
    var startDate: int
    var endDate: int
    var times: seq<int>
    /** `_delta`: an offset in seconds for an ordinary field, the reference
        date for a cyclic one. */
    var delta: Option<int>
    /** `_ref_leap_year` of a cyclic field: Jan 1 of the anchor year. */
    var refLeapYear: Option<int>
    /** The samples `set_interpolation` handed to the interpolators. */
    var interp: Option<Series>

    ghost predicate Valid()
      reads this`grid, this`cells, this`data, this`dates, this`years, this`startDate, this`times, this`interp
    {
      Consistent(grid, cells, data, dates, years, startDate, times, interp)
    }

    /** Everything `get_data` and `get_date` need has been set. */
    ghost predicate Ready()
      reads this
    {
      Valid() && interp.Some? && delta.Some? && (cyclic ==> refLeapYear.Some?)
    }

    /** Loading a file: the Arctic grid, the scaled samples, the dates and
        the offsets of the dates from the first one. */
    constructor Load(raw: RawFile, scale: real, cyclic: bool)
      requires RawShaped(raw)
      ensures Valid()
      ensures this.cyclic == cyclic && grid == ArcticGrid(raw.coords)
      ensures |data| == |raw.values|
      ensures forall t :: 0 <= t < |data| ==> data[t] == LoadSample(raw, t, scale)
      ensures data == LoadedSamples(raw, scale) && cells == LoadedCells(raw)
      ensures dates == raw.dates && years == raw.years
      ensures startDate == raw.dates[0] && endDate == raw.dates[|raw.dates| - 1]
      ensures times[0] == 0
      ensures delta == None && refLeapYear == None && interp == None
    {
      var g := ArcticGrid(raw.coords);
      var samples := seq(|raw.values|, t requires 0 <= t < |raw.values| => LoadSample(raw, t, scale));
      LoadSampleShape(raw, 0, scale);
      var n := |samples[0].values|;
      forall t | 0 <= t < |samples|
        ensures Shaped(samples[t], n)
      {
        LoadSampleShape(raw, t, scale);
      }
      this.cyclic := cyclic;
      grid := g;
      cells := n;
      data := samples;
      dates := raw.dates;
      years := raw.years;
      startDate := raw.dates[0];
      endDate := raw.dates[|raw.dates| - 1];
      times := Offsets(raw.dates);
      delta := None;
      refLeapYear := None;
      interp := None;
    }

    /** The `mask` property. */
    method Mask() returns (m: seq<bool>)
      requires Valid()
      ensures m == MaskedEverywhere(data, cells)
      ensures |m| == cells
      ensures forall c :: 0 <= c < cells ==> (m[c] <==> forall k :: 0 <= k < |data| ==> data[k].mask[c])
    {
      m := data[0].mask;
      for k := 1 to |data|
        invariant m == MaskedEverywhere(data[..k], cells)
      {
        assert data[..k + 1][..k] == data[..k];
        m := AndMasks(m, data[k].mask);
      }
      assert data[..|data|] == data;
    }

    /** `set_delta`. An ordinary field stores the offset of the reference
        date from its own start; a cyclic one stores the reference date and
        the start of the largest listed leap year before the reference year
        (`yearStart` gives the first second of a year), failing when there is
        none. */
    method SetDelta(refDate: int, refYear: int, yearStart: int -> int) returns (r: Result<int>)
      modifies this`delta, this`refLeapYear
      ensures !cyclic ==> r == Ok(refDate - startDate) && delta == Some(refDate - startDate)
      ensures !cyclic ==> refLeapYear == old(refLeapYear)
      ensures cyclic ==> delta == Some(refDate) && r == AnchorYear(refYear)
      ensures cyclic && r.Ok? ==> refLeapYear == Some(yearStart(r.value))
      ensures cyclic && r.Err? ==> refLeapYear == old(refLeapYear)
    {
      if !cyclic {
        delta := Some(refDate - startDate);
        return Ok(refDate - startDate);
      }
      delta := Some(refDate);
      r := AnchorYear(refYear);
      if r.Ok? {
        refLeapYear := Some(yearStart(r.value));
      }
    }

    /** `set_grid_data`: nothing happens when the target grid is the current
        one; otherwise every timestep is regridded to the target by nearest
        source cell, and the target becomes the grid. */
    method SetGridData(target: Grid, targetCells: nat) returns (r: Result<()>)
      requires Valid() && GridShaped(target, targetCells)
      modifies this`grid, this`cells, this`data
      ensures Valid()
      ensures target == old(grid) ==> r.Ok? && grid == old(grid) && cells == old(cells) && data == old(data)
      ensures target != old(grid) && old(cells) == 0 ==> r == Err(NoSourcePoints) && data == old(data)
      ensures target != old(grid) && old(cells) > 0 ==>
                && r.Ok? && grid == target && cells == targetCells
                && NearestRegrid(old(grid), target, targetCells, old(data), data)
      ensures r.Ok? ==> GridDataOf(old(grid), target, targetCells, old(data), data)
      ensures r.Err? ==> grid == old(grid) && cells == old(cells) && data == old(data)
    {
      if target == grid {
        return Ok(());
      }
      if cells == 0 {
        return Err(NoSourcePoints);
      }
      var pick := NearestCells(grid, target);
      var before := data;
      var after := seq(|before|, t requires 0 <= t < |before| => Regridded(before[t], pick));
      data := after;
      grid := target;
      cells := targetCells;
      RegridByPicks(old(grid), target, targetCells, before, pick, after);
      r := Ok(());
    }

    /** `set_interpolation`: builds the interpolators over the current
        offsets and samples. */
    method SetInterpolation() returns (r: Result<()>)
      requires Valid()
      modifies this`interp
      ensures Valid()
      ensures |times| < 2 ==> r == Err(TooFewSamples)
      ensures |times| >= 2 && !StrictlyIncreasing(times) ==> r == Err(UnsortedTimes)
      ensures r.Ok? <==> |times| >= 2 && StrictlyIncreasing(times)
      ensures r.Ok? ==> interp == Some(Series(times, data, cells))
      ensures r.Err? ==> interp == old(interp)
    {
      if |times| < 2 {
        return Err(TooFewSamples);
      }
      if !StrictlyIncreasing(times) {
        return Err(UnsortedTimes);
      }
      interp := Some(Series(times, data, cells));
      r := Ok(());
    }

    /** The data-starts-in-a-leap-year check and the collapse into one
        4-year cycle; on success the dates, years and samples are the
        cycle's, with no cell masked, the start date is its first date and
        the offsets are measured from it. The end date stays the file's. */
    method CollapseToCycle() returns (r: Result<()>)
      requires Valid()
      modifies this`dates, this`years, this`data, this`startDate, this`times
      ensures Valid()
      ensures var spec := CollapseSpec(Block(old(dates), old(years), old(data)), cells);
              && (r.Ok? <==> spec.Ok?)
              && (r.Err? ==> r.error == spec.error && dates == old(dates) && data == old(data))
              && (r.Ok? ==> dates == spec.value.dates && years == spec.value.years && data == spec.value.samples)
      ensures r.Ok? ==> forall k, c :: 0 <= k < |data| && 0 <= c < cells ==> !data[k].mask[c]
      ensures !IsListedLeapYear(old(years)[0]) ==> r == Err(CycleStartNotLeapYear)
      ensures r.Ok? ==> startDate == dates[0] && times[0] == 0
    {
      var b := Block(dates, years, data);
      var c := CollapseYears(b, cells);
      if c.Err? {
        return Err(c.error);
      }
      CollapseNonEmpty(b, cells);
      dates := c.value.dates;
      years := c.value.years;
      data := c.value.samples;
      startDate := dates[0];
      times := Offsets(dates);
      r := Ok(());
    }

    /** `CltCMIP5(...)`: an ordinary load followed by the collapse. */
    static method OpenCyclic(raw: RawFile, scale: real) returns (r: Result<Field>)
      requires RawShaped(raw)
      ensures !IsListedLeapYear(raw.years[0]) ==> r == Err(CycleStartNotLeapYear)
      ensures r.Ok? ==> fresh(r.value) && r.value.Valid() && r.value.cyclic
      ensures r.Ok? ==> r.value.times[0] == 0 && r.value.delta == None && r.value.interp == None
      ensures r.Ok? ==> r.value.grid == ArcticGrid(raw.coords)
      ensures r.Ok? <==> LoadedCycle(raw, scale).Ok?
      ensures r.Err? ==> r.error == LoadedCycle(raw, scale).error
      ensures r.Ok? ==> var c := LoadedCycle(raw, scale).value;
                && r.value.dates == c.dates && r.value.years == c.years && r.value.data == c.samples
                && r.value.cells == LoadedCells(raw)
    {
      var f := new Field.Load(raw, scale, true);
      var c := f.CollapseToCycle();
      if c.Err? {
        return Err(c.error);
      }
      return Ok(f);
    }

    /** The offset into the cycle that a cyclic field reads for query time
        `t`: measured from the anchor year, then folded down and up. */
    function CycleOffset(t: int): int
      reads this
      requires Ready() && cyclic
    {
      FoldUp(FoldDown(delta.value + t - refLeapYear.value, times[|times| - 1]), times[0])
    }

    /** What `get_data` returns for query time `t`. */
    function DataAt(t: int): (r: Sample)
      reads this
      requires Ready()
      ensures Shaped(r, interp.value.cells)
    {
      if cyclic then InterpSample(interp.value, CycleOffset(t))
      else InterpSample(interp.value, t + delta.value)
    }

    /** What `get_date` returns for query time `t`. */
    function DateAt(t: int): int
      reads this
      requires Ready()
    {
      if cyclic then startDate + CycleOffset(t) else startDate + delta.value + t
    }

    /** The offsets a cyclic field reads for a batch of query times, folded
        in place as `get_data` does. */
    method FoldedOffsets(ts: seq<int>) returns (offsets: seq<int>)
      requires Ready() && cyclic
      ensures |offsets| == |ts|
      ensures forall k :: 0 <= k < |ts| ==> offsets[k] == CycleOffset(ts[k])
    {
      var d, a := delta.value, refLeapYear.value;
      var xs := seq(|ts|, k requires 0 <= k < |ts| => d + ts[k] - a);
      offsets := FoldAll(xs, times[0], times[|times| - 1]);
    }

    /** `get_data` on a batch of query times. */
    method GetData(ts: seq<int>) returns (r: seq<Sample>)
      requires Ready()
      ensures |r| == |ts|
      ensures forall k :: 0 <= k < |ts| ==> r[k] == DataAt(ts[k])
    {
      var s := interp.value;
      if !cyclic {
        var d := delta.value;
        return seq(|ts|, k requires 0 <= k < |ts| => InterpSample(s, ts[k] + d));
      }
      var offsets := FoldedOffsets(ts);
      r := seq(|ts|, k requires 0 <= k < |ts| => InterpSample(s, offsets[k]));
    }

    /** `get_date` on a batch of query times. */
    method GetDate(ts: seq<int>) returns (r: seq<int>)
      requires Ready()
      ensures |r| == |ts|
      ensures forall k :: 0 <= k < |ts| ==> r[k] == DateAt(ts[k])
    {
      var start := startDate;
      if !cyclic {
        var d := delta.value;
        return seq(|ts|, k requires 0 <= k < |ts| => start + d + ts[k]);
      }
      var offsets := FoldedOffsets(ts);
      r := seq(|ts|, k requires 0 <= k < |ts| => start + offsets[k]);
    }
  }

  /** A successful collapse has at least one date. */
  lemma CollapseNonEmpty(b: Block, cells: nat)
    requires BlockShaped(b, cells) && |b.years| > 0 && CollapseSpec(b, cells).Ok?
    ensures |CollapseSpec(b, cells).value.dates| > 0
  {
    CollapseIsFourGroups(b, cells);
    PhaseGroupNonEmpty(b, cells, 0);
  }

  // ---------------------------------------------------------------------
  // What a query returns

  /** A cyclic field always answers with a date of its cycle: never before
      its start, and either within its sampled span or less than one period
      after its start; the answer is the query's position in the 4-year
      cycle counted from the anchor year. */
  lemma CyclicDateInCycle(f: Field, t: int)
    requires f.Ready() && f.cyclic
    ensures var r := f.DateAt(t) - f.startDate;
            var last := f.times[|f.times| - 1];
            && 0 <= r
            && (r <= last || r < Period)
            && (f.delta.value + t - f.refLeapYear.value - r) % Period == 0
  {
    assert f.times[0] == 0;
    FoldBounds(f.delta.value + t - f.refLeapYear.value, 0, f.times[|f.times| - 1]);
  }

  /** Inside its sampled span a cyclic field answers with the query's own
      offset from the anchor year. */
  lemma CyclicInSpan(f: Field, t: int)
    requires f.Ready() && f.cyclic
    requires 0 <= f.delta.value + t - f.refLeapYear.value <= f.times[|f.times| - 1]
    ensures f.DateAt(t) == f.startDate + (f.delta.value + t - f.refLeapYear.value)
  {
    assert f.times[0] == 0;
  }

  /** When the cycle spans less than one period, a cyclic field repeats
      itself every period, dates and data alike. */
  lemma CyclicPeriodic(f: Field, t: int)
    requires f.Ready() && f.cyclic
    requires f.times[|f.times| - 1] < Period
    ensures f.DateAt(t + Period) == f.DateAt(t)
    ensures f.DataAt(t + Period) == f.DataAt(t)
  {
    assert f.times[0] == 0;
    var x := f.delta.value + t - f.refLeapYear.value;
    assert f.delta.value + (t + Period) - f.refLeapYear.value == x + Period;
    FoldPeriodic(x, 0, f.times[|f.times| - 1]);
  }

  /** At the offset of sample `k` an ordinary field returns that sample with
      its date, when the interpolator still holds the current samples. */
  lemma OrdinaryAtSample(f: Field, k: nat)
    requires f.Ready() && !f.cyclic && k < |f.times|
    requires f.interp.value == Series(f.times, f.data, f.cells)
    ensures f.DataAt(f.times[k] - f.delta.value) == f.data[k]
    ensures f.DateAt(f.times[k] - f.delta.value) == f.dates[k]
  {
    InterpAtSample(f.interp.value, k);
  }

  /** Likewise for a cyclic field at a query that lands on sample `k`. */
  lemma CyclicAtSample(f: Field, k: nat, t: int)
    requires f.Ready() && f.cyclic && k < |f.times|
    requires f.interp.value == Series(f.times, f.data, f.cells)
    requires f.delta.value + t - f.refLeapYear.value == f.times[k]
    ensures f.DataAt(t) == f.data[k]
    ensures f.DateAt(t) == f.dates[k]
  {
    assert f.times[0] == 0;
    assert f.times[k] <= f.times[|f.times| - 1] by {
      if k < |f.times| - 1 {
        assert StrictlyIncreasing(f.interp.value.times);
      }
    }
    InterpAtSample(f.interp.value, k);
  }
}
