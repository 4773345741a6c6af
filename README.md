# Arctic radiative forcing — a verified model of the core

The system estimates the shortwave radiative forcing of the Arctic from
CMIP5 climate-model output. It reads four fields: sea-ice concentration
(`sic`), sea-ice thickness (`sit`), near-surface air temperature (`tas`) and
cloud cover (`clt`). It keeps the rows of each grid at or north of 65°N and
brings the four fields onto one common grid and one common start date. Then,
for one year, it integrates the solar flux each grid cell absorbs. The
absorbed share of a cell mixes four surface regimes (ice or ocean, cloudy
or clear). Each regime has an albedo looked up in a table by solar zenith
angle. For sea ice, the albedo also depends on the ice thickness and on
whether the surface is melting. The year is integrated one day-long chunk at
a time with the trapezoidal rule. The energy is weighted by cell areas and
the solar constant, summed, and spread over the earth's surface and the
year's seconds to give the forcing.

The cloud-cover field is special: it holds a representative 4-year cycle,
one averaged year per leap-year phase, and query times outside the cycle are
folded into it by whole 4-year periods. Each phase group is a masked mean,
but concatenating the four groups drops their masks, so the cycle's data is
unmasked.

The model is split into these modules:

- `Wrappers`: `Option`, `Result` and the error cases. Each failing
  assertion of the source is an error case.
- `Seqs`: boolean indexing, flattening and sums.
- `Samples`: one timestep of a field as values plus a mask, and `interp1d`
  over a series of such samples.
- `Cmip5Grid`: the Arctic grid, longitude normalisation and scaling.
- `Cycle`: the 4-year cycle of the cloud field, its construction and the
  two folds.
- `Cmip5`: the `Field` class for both `CMIP5` and `CltCMIP5`.
- `Albedos`: the albedo tables and the ice and sea albedos.
- `DataSets`: the `DataSet` class, cell areas and setup.
- `NetForcing`: the flux, the chunked integral and the forcing.

Some inputs become parameters, described in `Environment`:

- Dates are whole seconds since a fixed epoch.
- Trigonometry and the solar altitude are given as a `Physics` value.
- The calendar is given as a `Calendar` value: the year of a date, the
  first second of a year, the calendar fields of a date, and "one year
  later".
- Numbers are Dafny `real`s.

## Model

| member | source | states |
|---|---|---|
| Albedos.DropNaN | albedos.py:10-11 | the kept values are exactly the non-missing entries, never more of them than the input; a column without NaN is kept whole, in order |
| Albedos.DropNaNConcat | albedos.py:10-11 | dropping NaNs distributes over concatenation, with `[None]` giving nothing and `[Some(v)]` giving `[v]`: the kept values keep their order and repetitions |
| Albedos.Insert | albedos.py:12-14 | inserting a point adds exactly that point to the multiset of points |
| Albedos.InsertSorted | albedos.py:12-14 | inserting into a zenith-sorted list keeps it sorted |
| Albedos.SortPoints | albedos.py:12-14 | the argsort reorders (zenith, albedo) pairs together: the result is sorted by zenith and is a permutation of the input pairs |
| Albedos.MakeTable | albedos.py:7-14 | the table is built iff after dropping NaNs there is at least one zenith and no fewer albedos than zeniths (errors for a mismatch and for an empty table); a built table is sorted, keeps every zenith and holds the same (zenith, albedo) pairs as the input |
| Albedos.CountAtMostSplit | albedos.py:27-31 | the count of table zeniths at or below x is the position that splits the table at x |
| Albedos.CountAtMostSorted | albedos.py:27-31 | on a sorted table, the zeniths at or below x come first and the larger ones after them |
| Albedos.GetAlbedo | albedos.py:24-32 | the mask-filled array is the per-zenith lookup, and every zenith beyond 90 degrees gets albedo 0 |
| Albedos.InterpClamped | albedos.py:27-31 | below the table the lookup is the first albedo; at or beyond the last zenith it is the last albedo |
| Albedos.InterpAtKnot | albedos.py:27-31 | at a table zenith (no repeated zeniths) the lookup returns that zenith's albedo |
| Albedos.InterpBetweenKnots | albedos.py:27-31 | strictly between adjacent table zeniths the lookup is the straight line through the two points |
| Albedos.Bracketed | albedos.py:27-31 | a zenith strictly between table zeniths k and k+1 is bracketed by exactly those two points and lies inside the table's range |
| Albedos.InterpInRange | albedos.py:27-31 | the lookup never leaves the range of the table's albedos: some albedo is at or below it, some at or above it |
| Albedos.AlbedoInUnit | albedos.py:24-32 | a table of albedos in [0, 1] gives an albedo in [0, 1] at every zenith, 0 included beyond 90 degrees |
| Albedos.GetSeaAlbedo | albedos.py:108-114 | the sea albedo is the clear-sky ocean curve when clear_sky holds, else the cloudy one |
| Albedos.RegimesPartition | albedos.py:83-89 | the four regime masks (thin/thick by 0.5 m, dry/melting by 272.15 K) are pairwise disjoint and cover every cell; a thickness of exactly 0.5 is thick |
| Albedos.ThinFraction | albedos.py:91-92 | the thin-ice fraction never exceeds 1 after the cap, and is non-negative where arctan(4h) is |
| Albedos.FillWhere | albedos.py:94-104 | the masked assignment writes the new value exactly at the flagged cells and leaves every other cell as it was |
| Albedos.CapAtOne | albedos.py:92 | in place, values above 1 become 1 and the others are unchanged |
| Albedos.FillRegimes | albedos.py:94-104 | after the four fills a thin cell holds the blend, a thick melting cell the dark albedo and a thick dry cell the bright albedo |
| Albedos.ThinFractions | albedos.py:91-92 | the capped fraction array holds the thin-ice fraction of every cell |
| Albedos.GetIceAlbedo | albedos.py:66-106 | the ice albedo is the per-cell regime choice over the clear or cloudy bright and dark curves, blending with the given sea albedo, or with the matching ocean curve when none is given |
| Albedos.ThinIgnoresTemperature | albedos.py:97-104 | the albedo of thin ice is the same whether the surface is dry or melting |
| Albedos.ThinBetween | albedos.py:97-104 | the albedo of thin ice lies between the sea albedo and the bright-ice albedo |
| Albedos.BlendBetween | albedos.py:98-99 | a blend with a fraction in [0, 1] lies between the two albedos it blends |
| Albedos.IceCellInUnit | albedos.py:94-104 | with sea, bright and dark albedos in [0, 1], every regime gives an ice albedo in [0, 1] |
| Cycle.GroupsDisjoint | cmip5.py:131-136 | a year belongs to at most one of the four leap-year phase groups |
| Cycle.AnchorYear | cmip5.py:162-167 | the anchor exists iff the reference year is after 1972; it is the largest listed leap year strictly before the reference year |
| Cycle.AnchorGap | cmip5.py:164-165 | the anchor lies 1 to 4 years before the reference year, and exactly 4 when the reference year is itself a listed leap year |
| Cycle.MeanOfSameSample | cmip5.py:145 | averaging copies of one year gives that year back: same mask, same values wherever it has data |
| Cycle.MeanWithoutMask | cmip5.py:145 | at a cell no year masks, the averaged value is unmasked and is the arithmetic mean over the years |
| Cycle.SameInstantAt | cmip5.py:144 | after the reshape, year y at within-year position j is sample y·perYear + j of the group |
| Cycle.AverageYears | cmip5.py:144-149 | the averaged group is one representative year: one sample per within-year position, each of the grid's shape |
| Cycle.PerDay | cmip5.py:140 | samples per day are found iff the group's count is a whole number of samples per day times days times years; then the kept prefix fits inside the group |
| Cycle.NotReshapable | cmip5.py:140-144 | when the floor division loses a remainder, no samples-per-day count reshapes the group |
| Cycle.PhaseGroup | cmip5.py:131-151 | a built phase group holds only years of its phase, a whole number of days of samples, each of the grid's shape; a phase with no years fails |
| Cycle.PhaseGroupNonEmpty | cmip5.py:131-151 | a built phase group has at least one date |
| Cycle.GroupsStep | cmip5.py:131-151 | building groups i..3 stops at the first group that fails, otherwise appends group i and goes on |
| Cycle.CollapseSpec | cmip5.py:130-153 | the cycle fails unless the data starts in a listed leap year; a built cycle has the grid's shape and, since concatenating the groups drops their masks, no cell of it is masked |
| Cycle.CollapseIsFourGroups | cmip5.py:131-153 | a built cycle starts in a listed leap year and is phase groups 0, 1, 2 and 3 concatenated in that order: their dates as they are, their averaged data with every mask cleared |
| Cycle.CollapseYears | cmip5.py:126-160 | the loop over the four groups builds exactly the specified cycle (unmasked data) or fails with its error |
| Cycle.DropMasks | cmip5.py:153 | concatenating masked arrays keeps every sample's data and clears every mask cell |
| Cycle.FoldDown | cmip5.py:169-180 | the folded offset is at most `last`; an offset in range is unchanged; one beyond moves down by whole periods to within one period below `last` |
| Cycle.FoldUp | cmip5.py:182-193 | the mirror image: at least `first`, unchanged when in range, otherwise moved up by whole periods to within one period above `first` |
| Cycle.FoldDownIdempotent | cmip5.py:169-180 | folding down twice is folding down once |
| Cycle.FoldUpIdempotent | cmip5.py:182-193 | folding up twice is folding up once |
| Cycle.FoldDownPeriodic | cmip5.py:169-180 | an offset one period further out folds to the same place |
| Cycle.FoldUpPeriodic | cmip5.py:182-193 | an offset one period further below folds to the same place |
| Cycle.FoldDownManyPeriods | cmip5.py:169-180 | any number of whole periods further out folds to the same place |
| Cycle.FoldIntoCycle | cmip5.py:195-201 | folding down then up lands at or after `first`, a whole number of periods from the query; inside the cycle when it spans a period; unchanged when already in range |
| Cycle.FoldBounds | cmip5.py:195-201 | for any span: at or after `first`, within the cycle or within one period of `first`, and a whole number of periods from the query |
| Cycle.FoldPeriodic | cmip5.py:195-201 | for a cycle shorter than one period, query times one period apart fold to the same offset |
| Cycle.ExcessShrinks | cmip5.py:173-179 | moving the offsets beyond `last` down one period strictly reduces how far any offset exceeds `last`, so the recursion ends |
| Cycle.DeficitShrinks | cmip5.py:186-192 | moving the offsets below `first` up one period strictly reduces how far any offset falls short, so the recursion ends |
| Cycle.FoldDownScattered | cmip5.py:173-179 | writing the recursively folded subset back through the mask of offsets beyond `last` (`Above`) and keeping the others folds every offset |
| Cycle.FoldUpScattered | cmip5.py:186-192 | the mirror image for the offsets below `first` (`Below`) |
| Cycle.Gather | cmip5.py:174-176 | the gathered array holds the selected offsets moved by the shift |
| Cycle.Scatter | cmip5.py:179 | the masked assignment writes the new values at the selected positions and leaves all others |
| Cycle.FixFutureTime | cmip5.py:169-180 | in place, every offset becomes its downward fold and the others stay |
| Cycle.FixPastTime | cmip5.py:182-193 | in place, every offset becomes its upward fold |
| Cycle.FoldAll | cmip5.py:200-201 | both folds over a batch give each query its down-then-up fold |
| Cmip5.MaskedEverywhere | cmip5.py:60-65 | the running conjunction of the timestep masks (`AndMasks`) is true at a cell iff every timestep masks that cell |
| Cmip5.NearestPoint | cmip5.py:107-112 | the chosen source point is at least as close as every other, and strictly closer than every earlier one |
| Cmip5.NearestCells | cmip5.py:105-112 | every target cell is paired with a nearest source point |
| Cmip5.Regridded | cmip5.py:107-116 | each regridded cell carries its source point's raw value and is unmasked |
| Cmip5.RegridByPicks | cmip5.py:107-116 | reading every timestep through one nearest source cell per target cell is a nearest-point regridding |
| Cmip5.LoadedCycle | cmip5.py:124-153 | the cycle of a loaded cloud file fails unless the file starts in a listed leap year; a built one has the grid's cells, at least one sample and no masked cell |
| Cmip5.Field.Load | cmip5.py:12-55 | a loaded field has the Arctic grid and its cell count, one scaled sample per timestep (`LoadedSamples`), the file's dates and years, offsets from the first date starting at 0, and no offset, anchor or interpolator yet |
| Cmip5.Field.Mask | cmip5.py:60-65 | the field's mask is true at a cell iff every timestep masks it |
| Cmip5.Field.SetDelta | cmip5.py:93-94 | an ordinary field stores the reference date minus its start; a cyclic one stores the reference date and the start of the anchor leap year, failing when there is none (cmip5.py:162-167) |
| Cmip5.Field.SetGridData | cmip5.py:96-119 | nothing changes when the target is the current grid; otherwise the field moves to the target grid with as many timesteps, each target cell reading the raw value of one nearest source point, the same point at every timestep, unmasked (`NearestRegrid`); no source points is an error |
| Cmip5.Field.SetInterpolation | cmip5.py:79-91 | interpolators are built iff there are at least two strictly increasing sample offsets; then they interpolate the field's own samples |
| Cmip5.Field.CollapseToCycle | cmip5.py:126-160 | the cloud field becomes the specified 4-year cycle with no cell masked, or stays unchanged with the cycle's error; the new offsets start at 0 from the cycle's first date |
| Cmip5.Field.OpenCyclic | cmip5.py:126-160 | a cyclic field is built on the Arctic grid, starting at offset 0, iff the collapse of the loaded file succeeds; its dates, years and samples are then those of that 4-year cycle (`LoadedCycle`), otherwise the collapse's error is returned |
| Cmip5.Field.DataAt | cmip5.py:67-71 | the sample a field answers at a query time has the grid's shape (cyclic folding at cmip5.py:195-204) |
| Cmip5.Field.FoldedOffsets | cmip5.py:196-201 | each query becomes the reference date plus the query, less the anchor, folded into the cycle |
| Cmip5.Field.GetData | cmip5.py:67-71 | the batch holds the field's answer at every query time |
| Cmip5.Field.GetDate | cmip5.py:73-77 | the batch holds the field's date at every query time (cyclic dates at cmip5.py:206-215) |
| Cmip5.CollapseNonEmpty | cmip5.py:152-154 | a built cycle has a first date to start from |
| Cmip5.CyclicDateInCycle | cmip5.py:206-215 | the cloud field always answers with a date inside its cycle, a whole number of periods from the requested date relative to the anchor |
| Cmip5.CyclicInSpan | cmip5.py:206-215 | inside the sampled span the cloud field answers with the query's own date |
| Cmip5.CyclicPeriodic | cmip5.py:195-215 | for a cycle shorter than a period, queries one period apart get the same data and the same date |
| Cmip5.OrdinaryAtSample | cmip5.py:67-77 | at a stored sample's time an ordinary field returns that sample and its date |
| Cmip5.CyclicAtSample | cmip5.py:195-215 | at a query landing on a stored sample the cloud field returns that sample and its date |
| Cmip5Grid.NormalizeLon | cmip5.py:24 | negative longitudes gain 360 and the others are unchanged, so [-360, 360) ends in [0, 360) |
| Cmip5Grid.MeshGrid | cmip5.py:28 | the mesh has one row per latitude and one column per longitude, carrying that row's latitude and that column's longitude |
| Cmip5Grid.Offsets | cmip5.py:44-49 | each date is the first date plus its offset, and the first offset is 0 |
| Cmip5Grid.ArcticAxes | cmip5.py:25-28 | with 1-D latitudes the mesh has one row per kept latitude and one column per longitude, the kept latitudes (`RowFlags`) are exactly those of at least 65, and row r holds the r-th of them in the file's order |
| Cmip5Grid.ArcticRow | cmip5.py:25-28 | a latitude heads a row of the mesh iff it is a latitude of the file of at least 65 |
| Cmip5Grid.ArcticMesh | cmip5.py:30-34 | with 2-D latitudes a row is kept (`RowFlags`) iff one of its entries is at least 65, and latitudes and longitudes keep the same rows |
| Cmip5Grid.LoadSampleShape | cmip5.py:29-39 | a loaded timestep has one value and one mask entry per cell of the Arctic grid |
| Cmip5Grid.LoadedShaped | cmip5.py:29-39 | every loaded timestep has one value and one mask entry per cell of the file's Arctic grid |
| Cmip5Grid.ScaledCell | cmip5.py:35 | scaling multiplies the unmasked values and leaves the raw values under the mask |
| Samples.CountBelowSplit | cmip5.py:79-91 | on increasing offsets, the count of offsets below t is the position that splits them at t |
| Samples.InterpAtSample | cmip5.py:79-91 | at a sample offset the interpolator returns that sample exactly, values and mask |
| Samples.UpperInside | cmip5.py:79-91 | a query in (t_k, t_k+1] is bracketed by samples k and k+1 |
| Samples.InterpBetween | cmip5.py:67-71 | between adjacent samples a value is their linear interpolation and lies between them; strictly inside, a cell is masked iff either sample masks it (interpolators of cmip5.py:79-91) |
| Samples.WeightNonzero | cmip5.py:86-91 | an interpolated boolean mask is nonzero, hence masked, iff either end is masked |
| Seqs.Where | cmip5.py:173-174 | the indices are increasing, each flagged, and every flagged index is listed |
| Seqs.CompressMembers | net_forcing.py:103 | an element survives boolean indexing iff its flag is set |
| DataSets.AreaNonNegative | data_set.py:57-65 | the area of a latitude-longitude rectangle is never negative |
| DataSets.AreaSymmetric | data_set.py:57-65 | the area ignores the order of the two latitudes and of the two longitudes, and is 0 for equal latitudes or equal longitudes |
| DataSets.AreaAdditiveInLongitude | data_set.py:57-65 | splitting a rectangle at an intermediate longitude splits its area |
| DataSets.AreaAdditiveInLatitude | data_set.py:57-65 | splitting a rectangle at a latitude whose sine lies between splits its area |
| DataSets.EarthSurface | data_set.py:57-65 | pole to pole all the way round is 4πR², the earth's surface, given sin(±90°) = ±1 (used at net_forcing.py:117) |
| DataSets.SphereArea | net_forcing.py:117 | the earth's surface is positive |
| DataSets.Tile | data_set.py:94 | every column of a row holds that row's area |
| DataSets.RowAreas | data_set.py:71-93 | row k spans half a latitude step either side, except the first row, which starts at its own latitude, and the last row, which runs from the second-last row's upper bound to its own latitude; all rows span one longitude step around 90 |
| DataSets.GetAreas | data_set.py:67-95 | a grid with fewer than two rows or columns is an error; otherwise one area per cell, rows as stated by RowAreas, tiled across the columns |
| DataSets.ColumnIsBand | data_set.py:67-95 | any column of the areas is the list of the row areas |
| DataSets.BandTiles | data_set.py:67-93 | on evenly spaced rows, where the sine increases, the row areas add up to the band between the first and last latitudes |
| DataSets.LatestStart | data_set.py:21 | the common start is one of the three model starts and at least each of them |
| DataSets.Coarsest | data_set.py:32 | the chosen field has the fewest grid cells, and it is the first such field |
| DataSets.SetDeltas | data_set.py:21-28 | the three model fields get non-negative offsets to the latest start; the cloud field keeps that date and anchors on the leap year before it, or the error when there is none |
| DataSets.RegridOne | data_set.py:35-36 | a field is regridded to the target iff it can be; it then lies on the target grid and holds `set_grid_data`'s samples (`GridDataOf`: unchanged on the same grid, the nearest-point regridding otherwise); on failure grid and data stay |
| DataSets.RegridAll | data_set.py:35-36 | all four fields are regridded iff each can be, and then all lie on the target grid, each holding its samples regridded to it |
| DataSets.InterpolateOne | data_set.py:38-39 | a field builds its interpolators iff its offsets allow; it then has them |
| DataSets.InterpolateAll | data_set.py:38-39 | all four fields build interpolators iff each can; then all have them |
| DataSets.PrepareFields | data_set.py:35-39 | after regridding, then interpolating, every field is queryable on the common grid through interpolators built from its regridded samples |
| DataSets.InterpolateOn | data_set.py:38-39 | fields already on the common grid become queryable on it, each through interpolators built from its current samples |
| DataSets.Prepared | data_set.py:35-39 | an anchored, regridded and interpolated field can be queried |
| DataSets.DataSet.Open | data_set.py:14-17 | the three model fields hold their files' loaded samples on their Arctic grids; the cloud field is the collapsed 4-year cycle of its file, or the collapse's error |
| DataSets.DataSet.Prepare | data_set.py:32-41 | the data set is on the chosen grid, every field holding its samples regridded to it and queryable through interpolators built from them, with the areas of that grid |
| DataSets.DataSet.Setup | data_set.py:19-41 | the data set starts at the latest model start, on the grid of the field with the fewest cells, with that grid's areas, every field holding its samples regridded to that grid; no anchor leap year is an error |
| DataSets.DataSet.Build | data_set.py:11-41 | given files whose years are the calendar years of their dates (`YearsFromDates`, cmip5.py:130-136), a built data set is consistent, starts at the latest start date of the three model files, and each field holds its loaded file (the cloud field its 4-year cycle) regridded to the common grid; a cloud file whose first date is not in a listed leap year is an error |
| DataSets.DataSet.Zeniths | data_set.py:43-49 | the zenith of every cell is 90 degrees minus the sun's altitude there at the query date |
| NetForcing.RegimeWeights | net_forcing.py:51-54 | the four regime weights sum to 1 |
| NetForcing.UniformAlbedo | net_forcing.py:51-56 | under one albedo a everywhere a cell absorbs 1 − a |
| NetForcing.CloudlessCell | net_forcing.py:19 | a cell without cloud (a masked cloud cover reads as 0) absorbs as a clear-sky mix of ice and ocean |
| NetForcing.AbsorbedInUnit | net_forcing.py:51-54 | with fractions and albedos in [0, 1] the absorbed share lies in [0, 1] |
| NetForcing.ClampedCos | net_forcing.py:11-12 | the clamped cosine is never negative, never below the cosine, and equals it where it is non-negative |
| NetForcing.ClearedCloud | net_forcing.py:19 | masked cloud cover reads as 0 and the rest is unchanged |
| NetForcing.RadiationMask | net_forcing.py:56-58 | the flux carries the ice-thickness mask, and a cell with masked sea-ice concentration keeps the clamped cosine |
| NetForcing.RadiationIsCellFlux | net_forcing.py:34-56 | an unmasked cell's flux is the clamped cosine times the share absorbed under its six albedos |
| NetForcing.CellFluxBounds | net_forcing.py:34-56 | with fractions and albedo tables in [0, 1] a cell's flux lies between 0 and the clamped cosine |
| NetForcing.CellAlbedosInUnit | net_forcing.py:34-49 | all six albedos of a cell lie in [0, 1] when the tables do |
| NetForcing.RadiationBounds | net_forcing.py:11-56 | the flux of a cell lies between 0 and its clamped cosine |
| NetForcing.FluxSeries | net_forcing.py:9-60 | one flux sample per query time, each of the grid's shape |
| NetForcing.ModelDates | net_forcing.py:21-26 | the three model fields report the common start date plus the query time |
| NetForcing.AsWrittenRejectsLaterDates | net_forcing.py:22-26 | the check as written fails for every batch with a query past the cloud cycle |
| NetForcing.CorrectedDatesAgree | net_forcing.py:21-32 | the corrected check passes for every batch when the calendar repeats every 4-year period and the cycle starts a whole number of periods from its anchor |
| NetForcing.ChunkFlux | net_forcing.py:21-32 | a batch that passes both checks yields one flux sample per query time (errors at lines 21-32 and 57) |
| NetForcing.ArangeSpan | net_forcing.py:84 | a non-empty range holds the fewest steps that reach its end |
| NetForcing.ArangeIncreasing | net_forcing.py:84 | the sample times increase |
| NetForcing.ArangeMembers | net_forcing.py:84 | the sample times are exactly the points of the range a whole number of steps from its start |
| NetForcing.ChunkLastSample | net_forcing.py:84 | a chunk's samples start at its start and end at or just past its end, exactly at its end iff the step divides the chunk |
| NetForcing.ArangeSplit | net_forcing.py:84 | on whole steps, a window's samples are one chunk's samples followed by the rest's, sharing the boundary |
| NetForcing.Trapz | net_forcing.py:92 | the trapezoid sum has the grid's shape |
| NetForcing.TrapzSplit | net_forcing.py:92 | the trapezoid sum splits at any sample into the sums of the two parts sharing it, and a cell is unmasked in the whole iff in one part |
| NetForcing.MaskedAdd | net_forcing.py:93 | the sum of masked arrays has the grid's shape |
| NetForcing.Accumulate | net_forcing.py:92-93 | adding each chunk's trapezoid sum in turn keeps the grid's shape |
| NetForcing.AccumulateKeepsMask | net_forcing.py:93 | a cell masked in the running integral stays masked |
| NetForcing.AccumulateIsWindow | net_forcing.py:92-93 | adding chunk sums that share endpoints is one trapezoid sum over the whole window at every unmasked cell |
| NetForcing.TotalIgnoresMasked | net_forcing.py:100-103 | the total reads nothing under the mask |
| NetForcing.ScheduleCovers | net_forcing.py:78-83 | the chunks sum exactly to the window length, each lies in (0, 86400], and all but the last are a whole day |
| NetForcing.ScheduleOnGrid | net_forcing.py:79-84 | when the step divides a day and the window, it divides every chunk |
| NetForcing.IntegrateStep | net_forcing.py:84-96 | one loop pass adds the chunk's trapezoid sum and advances by the chunk |
| NetForcing.IntegrateChunk | net_forcing.py:78-96 | one loop pass takes the smaller of the remaining time and a day, and fails exactly when the chunk's batch fails |
| NetForcing.TrackStart | net_forcing.py:67-74 | the loop starts on track toward the year's integral, with zeros masked as the sea-ice field |
| NetForcing.TrackStep | net_forcing.py:78-96 | each pass keeps the loop on track (time and date advance together) or fails with the year's error |
| NetForcing.TrackEnd | net_forcing.py:78 | a loop that ends on track holds the year's integral |
| NetForcing.IntegrateIsAccumulate | net_forcing.py:78-98 | a completed loop's integral is the running sum of the chunks' trapezoid sums |
| NetForcing.ChunksChained | net_forcing.py:84-96 | chunks of whole steps yield flux series that share their boundary samples and make up the whole window |
| NetForcing.InitialIntegral | net_forcing.py:71-74 | the starting integral has the grid's shape |
| NetForcing.YearExcludesSicMask | net_forcing.py:71-74 | a cell masked by the sea-ice field at every timestep stays excluded from the year's integral |
| NetForcing.YearIsOneTrapezoid | net_forcing.py:78-98 | when the step divides a day and the year, every unmasked cell of the year's integral is one trapezoid sum over the whole year |
| NetForcing.YearIsAccumulate | net_forcing.py:64-98 | the year's integral is the running sum of its chunks' trapezoid sums |
| NetForcing.YearChained | net_forcing.py:78-98 | the year's chunks share endpoints and make up the year's flux series |
| NetForcing.ClampCosines | net_forcing.py:11-12 | the in-place clamp yields the clamped cosines |
| NetForcing.ZeroMaskedCloud | net_forcing.py:19 | the in-place write yields the cleared cloud cover |
| NetForcing.GetRadiation | net_forcing.py:11-60 | the flux at one query time is the specified radiation |
| NetForcing.DateCheck | net_forcing.py:21-32 | comparing the reported date arrays is the corrected date check |
| NetForcing.MaskCheck | net_forcing.py:57 | inspecting the sea-ice samples of the batch is the all-masked check |
| NetForcing.AllMasked | net_forcing.py:57 | reports whether the sea-ice concentration masks every cell at every time |
| NetForcing.BatchZeniths | net_forcing.py:10 | one zenith array per query time, that time's zeniths |
| NetForcing.GetFluxes | net_forcing.py:34-56 | the flux of each query time from its zeniths and samples |
| NetForcing.ReadSamples | net_forcing.py:14-17 | the samples the four fields give at every query time |
| NetForcing.BatchFlux | net_forcing.py:9-60 | the fluxes computed from the batch's samples are the flux series of the batch |
| NetForcing.CheckDates | net_forcing.py:21-32 | reports whether the corrected date check passes |
| NetForcing.BatchRadiation | net_forcing.py:10-57 | the batch's flux series and whether the sea-ice field masks it entirely |
| NetForcing.GetE | net_forcing.py:9-60 | a batch's flux, or the date or all-masked error |
| NetForcing.InitialAccumulator | net_forcing.py:71-74 | zeros masked where the sea-ice field is masked at every timestep |
| NetForcing.IntegrateChunkStep | net_forcing.py:79-96 | one pass advances time and date by the chunk and stays on track, or fails with the year's error |
| NetForcing.IntegrateYear | net_forcing.py:64-98 | the loop computes the year's integral, or the first batch's error |
| NetForcing.IntegrateRest | net_forcing.py:78-98 | from any state on track, the rest of the loop ends in the year's integral |
| NetForcing.GetETot | net_forcing.py:63-104 | the year's energy: the integral times 1365 and the cell areas, summed over the cells it does not mask |
| NetForcing.Forcing | net_forcing.py:119 | the forcing times the earth's area and the year's seconds is the energy, and it is non-negative when the energy is |
| NetForcing.GetRadiativeForcing | net_forcing.py:107-121 | the year's energy spread over the earth's surface and the year's seconds, or the integral's error |

## Left out

- File reading: netCDF through `MFDataset` (cmip5.py:21-23, 40-41, 50-51) and
  the albedo CSV through pandas (albedos.py:37-64). A file is a `RawFile`
  value with coordinates, raw values, masks, dates and years. The six
  albedo curves are given as NaN-padded `Option` columns. The variable key
  (cmip5.py:13-20), `units`, `long_name` and `__repr__` are not modelled.
- `scipy.interpolate.griddata` (cmip5.py:107-112) is a nearest-neighbour
  pick by squared distance in (latitude, longitude). `Cmip5.Field.SetGridData`
  promises only "some nearest point", with no tie order. Its helper takes
  the first nearest point.
- Floating point: every quantity is an exact `real`, so rounding, NaN
  propagation and `inf` are not modelled.
- Trigonometry (`cos`, `sin`, `arctan`, `deg2rad`) and pysolar's solar
  altitude (data_set.py:47) are uninterpreted functions in `Physics`.
  `get_zeniths_scalar` (data_set.py:51-55) is the scalar form of `Zeniths`
  and is not modelled separately.
- Dates: `relativedelta(years=1)`, calendar years and the calendar fields of
  a date are `Calendar` functions. Dates are whole seconds, so datetime's
  microseconds are not modelled.
- The `tqdm` progress bar (net_forcing.py:77, 98) and the `print` calls.
- ice_free.py is not part of this model: it is command-line orchestration,
  JSON output and float statistics.
- The `zeniths`/`albedos` accessors (albedos.py:16-22) return copies. Values
  are immutable in the model, so that property holds trivially and is not
  stated.
- Albedos.MakeTable: an empty table is rejected when it is built. The
  source fails only at the first lookup.
- Cmip5.Field.SetInterpolation: unsorted or repeated offsets are an error.
  `interp1d` would sort them first.
- Albedos.SortPoints: fixes one order among equal zeniths (insertion keeps
  the input's). numpy's default `argsort` is not stable, so the source
  leaves that order, and `np.interp`'s value at a repeated zenith,
  unspecified.
- Samples.InterpSample models `interp1d` with linear extrapolation outside
  the sampled span. Only in-span properties are stated.
- Albedos.ThinFraction: states fh >= 0 only where arctan(4h) >= 0, because
  arctan is left abstract.
- NetForcing.GetRadiativeForcing: requires `Sound(env)` (sin(±90°) = ±1,
  π > 0) and a year that ends after it starts. The source divides without
  these checks.
- NetForcing.GetETot, NetForcing.IntegrateYear: require a positive step
  `dt`. With `dt <= 0`, `np.arange` yields no samples or fails.
- NetForcing.ChunkFlux: the `assert`s of lines 21-32 and 57 become the
  error cases `DateMismatch` and `FluxAllMasked`.
- DataSets.DataSet.Build: states the start date, consistency and what every
  field holds. The chosen grid and the areas are stated by
  `DataSets.DataSet.Setup`.
- numpy's broadcasting over time × lat × lon arrays: every timestep is a
  flat sequence of cells in row-major order.
- Cmip5.Regridded: `griddata` returns plain arrays, so regridded samples
  are unmasked (cmip5.py:114-116), as in the source.

## Findings

| source | as written | input that shows it | evidently intended | confidence | as-written member | corrected member |
|---|---|---|---|---|---|---|
| net_forcing.py:22-26 | the loop asserts that `clt.get_date(times)` equals sic's dates exactly, but the cloud field answers with a date folded into its 4-year cycle | a cloud cycle of 1976-1979 and a model start of 1 January 1980: at query time 0 the cloud field reports 1 January 1976, so the assertion fails for every batch | compare the cloud field on day, month, hour, minute and second only, as lines 27-32 do; exact equality only for sit and tas | high (not executed) | NetForcing.AsWrittenRejectsLaterDates | NetForcing.CorrectedDatesAgree |
