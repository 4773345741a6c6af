/** The calendar logic of the cyclic cloud field (`CltCMIP5` in cmip5.py):
    the listed leap years, the four phase groups averaged into one
    representative 4-year cycle, the anchor leap year chosen for a reference
    date, and the recursive folding of query offsets into the cycle. */
module Cycle {
  import opened Wrappers
  import opened Seqs
  import opened Samples

  /** `np.arange(1972, 3000, 4)`: 1972, 1976, ..., 2996. */
  const FirstLeapYear: int := 1972
  const LastLeapYear: int := 2996
  const SecondsPerDay: int := 86400
  /** Three common years and one leap year: 1461 days = 126 230 400 s. */
  const Period: int := (365 * 3 + 366) * SecondsPerDay

  predicate IsListedLeapYear(y: int) {
    FirstLeapYear <= y <= LastLeapYear && (y - FirstLeapYear) % 4 == 0
  }

  /** Phase group `i` holds the years of `leap_years + i`. */
  predicate InGroup(y: int, i: nat) {
    IsListedLeapYear(y - i)
  }

  /** A year lies in at most one phase group. */
  lemma GroupsDisjoint(y: int, i: nat, j: nat)
    requires i < 4 && j < 4 && InGroup(y, i) && InGroup(y, j)
    ensures i == j
  {
  }

  function DaysInYear(i: nat): nat {
    if i > 0 then 365 else 366
  }

  // ---------------------------------------------------------------------
  // The anchor leap year of `set_delta`

  /** The largest listed leap year strictly below `refYear`; it fails when no
      listed year lies below (`min()` of an empty array). */
  function AnchorYear(refYear: int): (r: Result<int>)
    ensures r.Ok? <==> refYear > FirstLeapYear
    ensures r.Ok? ==> IsListedLeapYear(r.value) && r.value < refYear
    ensures r.Ok? ==> forall y :: IsListedLeapYear(y) && y < refYear ==> y <= r.value
  {
    if refYear <= FirstLeapYear then Err(NoEarlierLeapYear)
    else if refYear > LastLeapYear then Ok(LastLeapYear)
    else Ok(refYear - 1 - (refYear - 1 - FirstLeapYear) % 4)
  }

  /** Because the comparison is strict, a reference year that is itself a
      leap year is anchored four years back: the gap is 1, 2, 3 or 4. */
  lemma AnchorGap(refYear: int)
    requires FirstLeapYear < refYear <= LastLeapYear + 4
    ensures AnchorYear(refYear).Ok?
    ensures 1 <= refYear - AnchorYear(refYear).value <= 4
    ensures IsListedLeapYear(refYear) ==> refYear - AnchorYear(refYear).value == 4
  {
  }

  // ---------------------------------------------------------------------
  // Phase-group averaging: numpy's masked mean over the years of a group

  function UnmaskedCount(xs: seq<Sample>, cells: nat, c: nat): (n: nat)
    requires AllShaped(xs, cells) && c < cells
    ensures n <= |xs|
  {
    if xs == [] then 0
    else (if xs[0].mask[c] then 0 else 1) + UnmaskedCount(xs[1..], cells, c)
  }

  function UnmaskedSum(xs: seq<Sample>, cells: nat, c: nat): real
    requires AllShaped(xs, cells) && c < cells
  {
    if xs == [] then 0.0
    else (if xs[0].mask[c] then 0.0 else xs[0].values[c]) + UnmaskedSum(xs[1..], cells, c)
  }

  /** Cellwise mean of the unmasked entries; a cell masked in every sample is
      masked in the mean and holds 0. */
  function MeanSample(xs: seq<Sample>, cells: nat): (m: Sample)
    requires AllShaped(xs, cells)
    ensures Shaped(m, cells)
  {
    Sample(
      seq(cells, c requires 0 <= c < cells =>
        var n := UnmaskedCount(xs, cells, c);
        if n == 0 then 0.0 else UnmaskedSum(xs, cells, c) / (n as real)),
      seq(cells, c requires 0 <= c < cells => UnmaskedCount(xs, cells, c) == 0))
  }

  lemma {:induction false} SameSampleSums(xs: seq<Sample>, x: Sample, cells: nat, c: nat)
    requires AllShaped(xs, cells) && Shaped(x, cells) && c < cells
    requires forall y :: 0 <= y < |xs| ==> xs[y] == x
    ensures UnmaskedCount(xs, cells, c) == if x.mask[c] then 0 else |xs|
    ensures UnmaskedSum(xs, cells, c) == if x.mask[c] then 0.0 else (|xs| as real) * x.values[c]
  {
    if xs != [] {
      SameSampleSums(xs[1..], x, cells, c);
    }
  }

  /** Averaging identical years gives back that year wherever it has data,
      with the same mask. */
  lemma MeanOfSameSample(xs: seq<Sample>, x: Sample, cells: nat)
    requires AllShaped(xs, cells) && Shaped(x, cells) && |xs| > 0
    requires forall y :: 0 <= y < |xs| ==> xs[y] == x
    ensures MeanSample(xs, cells).mask == x.mask
    ensures forall c :: 0 <= c < cells && !x.mask[c] ==> MeanSample(xs, cells).values[c] == x.values[c]
  {
    var m := MeanSample(xs, cells);
    forall c | 0 <= c < cells
      ensures m.mask[c] == x.mask[c]
      ensures !x.mask[c] ==> m.values[c] == x.values[c]
    {
      SameSampleSums(xs, x, cells, c);
    }
  }

  lemma {:induction false} UnmaskedAll(xs: seq<Sample>, cells: nat, c: nat)
    requires AllShaped(xs, cells) && c < cells
    requires forall y :: 0 <= y < |xs| ==> !xs[y].mask[c]
    ensures UnmaskedCount(xs, cells, c) == |xs|
    ensures UnmaskedSum(xs, cells, c) == Sum(seq(|xs|, y requires 0 <= y < |xs| => xs[y].values[c]))
  {
    if xs != [] {
      UnmaskedAll(xs[1..], cells, c);
      var f := seq(|xs|, y requires 0 <= y < |xs| => xs[y].values[c]);
      assert f[1..] == seq(|xs[1..]|, y requires 0 <= y < |xs[1..]| => xs[1..][y].values[c]);
    }
  }

  /** Where every year has data, the averaged value is the arithmetic mean. */
  lemma MeanWithoutMask(xs: seq<Sample>, cells: nat, c: nat)
    requires AllShaped(xs, cells) && c < cells && |xs| > 0
    requires forall y :: 0 <= y < |xs| ==> !xs[y].mask[c]
    ensures !MeanSample(xs, cells).mask[c]
    ensures MeanSample(xs, cells).values[c]
            == Sum(seq(|xs|, y requires 0 <= y < |xs| => xs[y].values[c])) / (|xs| as real)
  {
    UnmaskedAll(xs, cells, c);
  }

  lemma {:induction false} MulMonotone(a: nat, b: nat, p: nat)
    requires a <= b
    ensures a * p <= b * p
  {
    if a < b {
      MulMonotone(a, b - 1, p);
      assert (b - 1) * p + p == b * p;
    }
  }

  lemma IndexInBlock(y: nat, j: nat, years: nat, perYear: nat)
    requires y < years && j < perYear
    ensures y * perYear + j < years * perYear
  {
    assert (y + 1) * perYear == y * perYear + perYear;
    MulMonotone(y + 1, years, perYear);
  }

  /** The samples of year `y` at within-year position `j` are `gs[y * perYear + j]`
      (numpy's reshape to years x days x samples-per-day). */
  function SameInstant(gs: seq<Sample>, years: nat, perYear: nat, j: nat): (r: seq<Sample>)
    requires |gs| == years * perYear && j < perYear
    ensures |r| == years
  {
    seq(years, y requires 0 <= y < years =>
      IndexInBlock(y, j, years, perYear);
      gs[y * perYear + j])
  }

  lemma SameInstantAt(gs: seq<Sample>, years: nat, perYear: nat, j: nat, y: nat)
    requires |gs| == years * perYear && j < perYear && y < years
    ensures y * perYear + j < |gs| && SameInstant(gs, years, perYear, j)[y] == gs[y * perYear + j]
  {
    IndexInBlock(y, j, years, perYear);
  }

  lemma SameInstantShaped(gs: seq<Sample>, years: nat, perYear: nat, j: nat, cells: nat)
    requires |gs| == years * perYear && j < perYear && AllShaped(gs, cells)
    ensures AllShaped(SameInstant(gs, years, perYear, j), cells)
  {
    forall y | 0 <= y < years
      ensures Shaped(SameInstant(gs, years, perYear, j)[y], cells)
    {
      SameInstantAt(gs, years, perYear, j, y);
    }
  }

  /** One representative year: sample `j` is the mean over the years of the
      group of their sample `j`. */
  function AverageYears(gs: seq<Sample>, years: nat, perYear: nat, cells: nat): (r: seq<Sample>)
    requires |gs| == years * perYear && AllShaped(gs, cells)
    ensures |r| == perYear && AllShaped(r, cells)
  {
    seq(perYear, j requires 0 <= j < perYear =>
      SameInstantShaped(gs, years, perYear, j, cells);
      MeanSample(SameInstant(gs, years, perYear, j), cells))
  }

  /** Dates, years and samples of a sampled period. */
  datatype Block = Block(dates: seq<int>, years: seq<int>, samples: seq<Sample>)

  predicate BlockShaped(b: Block, cells: nat) {
    |b.dates| == |b.years| == |b.samples| && AllShaped(b.samples, cells)
  }

  function GroupFlags(years: seq<int>, i: nat): seq<bool> {
    seq(|years|, k requires 0 <= k < |years| => InGroup(years[k], i))
  }

  function DistinctYears(years: seq<int>, idx: seq<nat>): set<int>
    requires forall j :: 0 <= j < |idx| ==> idx[j] < |years|
  {
    set j | 0 <= j < |idx| :: years[idx[j]]
  }

  lemma DistinctYearsNonEmpty(years: seq<int>, idx: seq<nat>)
    requires forall j :: 0 <= j < |idx| ==> idx[j] < |years|
    requires |idx| > 0
    ensures |DistinctYears(years, idx)| >= 1
  {
    assert years[idx[0]] in DistinctYears(years, idx);
  }

  /** `n // (days * numYears)` samples a day, or None when the group of `n`
      samples cannot be reshaped into years x days x samples-per-day. */
  function PerDay(n: nat, numYears: nat, days: nat): (r: Option<nat>)
    requires numYears > 0 && days > 0
    ensures r.Some? ==> n == numYears * (days * r.value)
    ensures r.Some? ==> days * r.value <= n
    ensures (exists q: nat :: n == numYears * (days * q)) ==> r.Some?
    ensures n > 0 && r.Some? ==> r.value > 0
  {
    var perDay := n / (days * numYears);
    if n != numYears * days * perDay then
      NotReshapable(n, numYears, days);
      None
    else
      MulMonotone(1, numYears, days * perDay);
      Some(perDay)
  }

  lemma NotReshapable(n: nat, numYears: nat, days: nat)
    requires numYears > 0 && days > 0
    requires n != numYears * days * (n / (days * numYears))
    ensures forall q: nat :: n != numYears * (days * q)
  {
    forall q: nat
      ensures n != numYears * (days * q)
    {
      if n == numYears * (days * q) {
        assert n == (days * numYears) * q;
        DivOfMultiple(days * numYears, q);
      }
    }
  }

  lemma DivOfMultiple(m: nat, q: nat)
    requires m > 0
    ensures (m * q) / m == q
  {
    var n := m * q;
    var d := n / m;
    var r := n % m;
    assert n == d * m + r && 0 <= r < m;
    assert q * m == n;
    assert (d + 1) * m == d * m + m && (q + 1) * m == q * m + m;
    if d < q {
      MulMonotone(d + 1, q, m);
    } else if d > q {
      MulMonotone(q + 1, d, m);
    }
  }

  lemma MultipleOfDays(q: nat, i: nat)
    ensures (DaysInYear(i) * q) % DaysInYear(i) == 0
  {
  }

  /** Phase group `i` collapsed into one representative year: the group's
      samples reshaped into years x days x samples-per-day and averaged over
      the years, with the dates and years of the group's first year. */
  function PhaseGroup(b: Block, cells: nat, i: nat): (r: Result<Block>)
    requires BlockShaped(b, cells)
    ensures r.Ok? ==> BlockShaped(r.value, cells)
    ensures r.Ok? ==> forall k :: 0 <= k < |r.value.years| ==> InGroup(r.value.years[k], i)
    ensures r.Ok? ==> |r.value.samples| % DaysInYear(i) == 0
    ensures (forall k :: 0 <= k < |b.years| ==> !InGroup(b.years[k], i)) ==> r == Err(EmptyPhaseGroup)
  {
    var idx := Where(GroupFlags(b.years, i));
    var numYears := |DistinctYears(b.years, idx)|;
    if numYears == 0 then Err(EmptyPhaseGroup)
    else
      var shape := PerDay(|idx|, numYears, DaysInYear(i));
      if shape.None? then Err(PhaseGroupShape)
      else
        var perYear := DaysInYear(i) * shape.value;
        MultipleOfDays(shape.value, i);
        var gs := Select(b.samples, idx);
        var ys := Select(b.years, idx)[..perYear];
        Ok(Block(Select(b.dates, idx)[..perYear], ys, AverageYears(gs, numYears, perYear, cells)))
  }

  /** A successful phase group has at least one sample. */
  lemma PhaseGroupNonEmpty(b: Block, cells: nat, i: nat)
    requires BlockShaped(b, cells) && PhaseGroup(b, cells, i).Ok?
    ensures |PhaseGroup(b, cells, i).value.dates| > 0
  {
  }

  function Append(a: Block, b: Block): Block {
    Block(a.dates + b.dates, a.years + b.years, a.samples + b.samples)
  }

  /** Groups `i..3` appended to `acc`, failing at the first group that fails. */
  function GroupsFrom(b: Block, cells: nat, i: nat, acc: Block): (r: Result<Block>)
    requires BlockShaped(b, cells) && BlockShaped(acc, cells) && i <= 4
    ensures r.Ok? ==> BlockShaped(r.value, cells)
    decreases 4 - i
  {
    if i == 4 then Ok(acc)
    else
      var g :- PhaseGroup(b, cells, i);
      GroupsFrom(b, cells, i + 1, Append(acc, g))
  }

  /** One step of `GroupsFrom`: stop at a failing group, else append it. */
  lemma GroupsStep(b: Block, cells: nat, i: nat, acc: Block, g: Result<Block>)
    requires BlockShaped(b, cells) && BlockShaped(acc, cells) && i < 4
    requires g == PhaseGroup(b, cells, i)
    ensures g.Err? ==> GroupsFrom(b, cells, i, acc) == Err(g.error)
    ensures g.Ok? ==> GroupsFrom(b, cells, i, acc) == GroupsFrom(b, cells, i + 1, Append(acc, g.value))
  {
  }

  /** `np.concatenate` on masked arrays: the data of every sample, with
      no cell masked. */
  function DropMasks(ss: seq<Sample>, cells: nat): (r: seq<Sample>)
    requires AllShaped(ss, cells)
    ensures |r| == |ss| && AllShaped(r, cells)
    ensures forall k :: 0 <= k < |ss| ==> r[k].values == ss[k].values
    ensures forall k, c :: 0 <= k < |ss| && 0 <= c < cells ==> !r[k].mask[c]
  {
    seq(|ss|, k requires 0 <= k < |ss| => Sample(ss[k].values, seq(cells, c => false)))
  }

  /** The representative 4-year cycle: the construction check on the first
      sample's year, then groups 0, 1, 2, 3 in that order, concatenated
      without their masks. */
  function CollapseSpec(b: Block, cells: nat): (r: Result<Block>)
    requires BlockShaped(b, cells) && |b.years| > 0
    ensures !IsListedLeapYear(b.years[0]) ==> r == Err(CycleStartNotLeapYear)
    ensures r.Ok? ==> BlockShaped(r.value, cells)
    ensures r.Ok? ==> forall k, c :: 0 <= k < |r.value.samples| && 0 <= c < cells ==> !r.value.samples[k].mask[c]
  {
    if !IsListedLeapYear(b.years[0]) then Err(CycleStartNotLeapYear)
    else
      var g :- GroupsFrom(b, cells, 0, Block([], [], []));
      Ok(Block(g.dates, g.years, DropMasks(g.samples, cells)))
  }

  /** A successful collapse is groups 0..3, each a successful phase group,
      in that order: their dates, and their averaged data with no cell
      masked. */
  lemma CollapseIsFourGroups(b: Block, cells: nat)
    requires BlockShaped(b, cells) && |b.years| > 0
    requires CollapseSpec(b, cells).Ok?
    ensures IsListedLeapYear(b.years[0])
    ensures PhaseGroup(b, cells, 0).Ok? && PhaseGroup(b, cells, 1).Ok?
    ensures PhaseGroup(b, cells, 2).Ok? && PhaseGroup(b, cells, 3).Ok?
    ensures CollapseSpec(b, cells).value.samples
            == DropMasks(PhaseGroup(b, cells, 0).value.samples + PhaseGroup(b, cells, 1).value.samples
                       + PhaseGroup(b, cells, 2).value.samples + PhaseGroup(b, cells, 3).value.samples, cells)
    ensures CollapseSpec(b, cells).value.dates
            == PhaseGroup(b, cells, 0).value.dates + PhaseGroup(b, cells, 1).value.dates
             + PhaseGroup(b, cells, 2).value.dates + PhaseGroup(b, cells, 3).value.dates
  {
    var e := Block([], [], []);
    var g0 := PhaseGroup(b, cells, 0).value;
    var a1 := Append(e, g0);
    var g1 := PhaseGroup(b, cells, 1).value;
    var a2 := Append(a1, g1);
    var g2 := PhaseGroup(b, cells, 2).value;
    var a3 := Append(a2, g2);
    var g3 := PhaseGroup(b, cells, 3).value;
    assert [] + g0.samples == g0.samples && [] + g0.dates == g0.dates;
  }

  /** `CltCMIP5.__init__` after the ordinary load: checks that the data starts
      in a listed leap year, then collapses the four phase groups in turn. */
  method CollapseYears(b: Block, cells: nat) returns (r: Result<Block>)
    requires BlockShaped(b, cells) && |b.years| > 0
    ensures r == CollapseSpec(b, cells)
  {
    if !IsListedLeapYear(b.years[0]) {
      return Err(CycleStartNotLeapYear);
    }
    var acc := Block([], [], []);
    for i := 0 to 4
      invariant BlockShaped(acc, cells)
      invariant GroupsFrom(b, cells, 0, Block([], [], [])) == GroupsFrom(b, cells, i, acc)
    {
      var g := PhaseGroup(b, cells, i);
      GroupsStep(b, cells, i, acc, g);
      if g.Err? {
        return Err(g.error);
      }
      acc := Append(acc, g.value);
    }
    return Ok(Block(acc.dates, acc.years, DropMasks(acc.samples, cells)));
  }

  // ---------------------------------------------------------------------
  // Folding query offsets into the cycle

  /** `_fix_future_time` on one offset: subtract the period until it is at
      most `last`. */
  function FoldDown(t: int, last: int): (r: int)
    ensures r <= last
    ensures t <= last ==> r == t
    ensures t > last ==> last - Period < r < t && (t - r) % Period == 0
    decreases t - last
  {
    if t <= last then t else FoldDown(t - Period, last)
  }

  /** `_fix_past_time` on one offset: add the period until it is at least
      `first`. */
  function FoldUp(t: int, first: int): (r: int)
    ensures r >= first
    ensures t >= first ==> r == t
    ensures t < first ==> t < r < first + Period && (r - t) % Period == 0
    decreases first - t
  {
    if t >= first then t else FoldUp(t + Period, first)
  }

  lemma FoldDownIdempotent(t: int, last: int)
    ensures FoldDown(FoldDown(t, last), last) == FoldDown(t, last)
  {
  }

  lemma FoldUpIdempotent(t: int, first: int)
    ensures FoldUp(FoldUp(t, first), first) == FoldUp(t, first)
  {
  }

  /** Folding an offset one more period out of range gives the same result. */
  lemma {:induction false} FoldDownPeriodic(t: int, last: int)
    requires t + Period > last
    ensures FoldDown(t + Period, last) == FoldDown(t, last)
  {
  }

  lemma {:induction false} FoldUpPeriodic(t: int, first: int)
    requires t - Period < first
    ensures FoldUp(t - Period, first) == FoldUp(t, first)
  {
  }

  /** Folding `k` periods out of range ends where the in-range offset is. */
  lemma {:induction false} FoldDownManyPeriods(t: int, last: int, k: nat)
    requires last - Period < t
    ensures FoldDown(t + k * Period, last) == FoldDown(t, last)
  {
    if k > 0 {
      FoldDownManyPeriods(t, last, k - 1);
      assert t + k * Period == (t + (k - 1) * Period) + Period;
      FoldDownPeriodic(t + (k - 1) * Period, last);
    }
  }

  /** `get_data` folds down then up. The result is never below `first`, is
      congruent to the query modulo the period, and is in [first, last]
      whenever the cycle spans at least one period minus one second. */
  lemma FoldIntoCycle(t: int, first: int, last: int)
    requires first <= last
    ensures var r := FoldUp(FoldDown(t, last), first);
            && first <= r
            && (t - r) % Period == 0
            && (r <= last || r < first + Period)
            && (last - first >= Period - 1 ==> r <= last)
            && (first <= t <= last ==> r == t)
  {
    var d := FoldDown(t, last);
    var r := FoldUp(d, first);
    assert (t - d) % Period == 0;
    assert (r - d) % Period == 0;
    assert (t - r) % Period == 0 by {
      assert t - r == (t - d) - (r - d);
    }
  }

  /** Without any assumption on the span: never below `first`, within the
      span or less than one period above `first`, and congruent to the query. */
  lemma FoldBounds(t: int, first: int, last: int)
    ensures var r := FoldUp(FoldDown(t, last), first);
            && first <= r
            && (r <= last || r < first + Period)
            && (t - r) % Period == 0
  {
    var d := FoldDown(t, last);
    var r := FoldUp(d, first);
    WholePeriodsApart(t, d, r);
  }

  /** Two offsets each a whole number of periods from a third are a whole
      number of periods apart. */
  lemma WholePeriodsApart(t: int, d: int, r: int)
    requires (t - d) % Period == 0 && (r - d) % Period == 0
    ensures (t - r) % Period == 0
  {
    var p, q := (t - d) / Period, (r - d) / Period;
    assert t - r == Period * (p - q);
  }

  /** Folding is periodic when the span is shorter than one period. */
  lemma FoldPeriodic(x: int, first: int, last: int)
    requires last < first + Period
    ensures FoldUp(FoldDown(x + Period, last), first) == FoldUp(FoldDown(x, last), first)
  {
  }

  function FoldedDown(s: seq<int>, last: int): (r: seq<int>)
    ensures |r| == |s|
    ensures forall i :: 0 <= i < |s| ==> r[i] == FoldDown(s[i], last)
  {
    seq(|s|, i requires 0 <= i < |s| => FoldDown(s[i], last))
  }

  function FoldedUp(s: seq<int>, first: int): (r: seq<int>)
    ensures |r| == |s|
    ensures forall i :: 0 <= i < |s| ==> r[i] == FoldUp(s[i], first)
  {
    seq(|s|, i requires 0 <= i < |s| => FoldUp(s[i], first))
  }

  /** How far the largest offset lies above `last` (0 if none does). */
  function Excess(s: seq<int>, last: int): (e: nat)
    ensures forall i :: 0 <= i < |s| ==> s[i] - last <= e
  {
    if s == [] then 0
    else
      var rest := Excess(s[1..], last);
      assert forall i :: 1 <= i < |s| ==> s[i] == s[1..][i - 1];
      if s[0] - last > rest then s[0] - last else rest
  }

  lemma {:induction false} ExcessAtMost(s: seq<int>, last: int, b: nat)
    requires forall i :: 0 <= i < |s| ==> s[i] - last <= b
    ensures Excess(s, last) <= b
  {
    if s != [] {
      ExcessAtMost(s[1..], last, b);
    }
  }

  /** How far the smallest offset lies below `first` (0 if none does). */
  function Deficit(s: seq<int>, first: int): (e: nat)
    ensures forall i :: 0 <= i < |s| ==> first - s[i] <= e
  {
    if s == [] then 0
    else
      var rest := Deficit(s[1..], first);
      assert forall i :: 1 <= i < |s| ==> s[i] == s[1..][i - 1];
      if first - s[0] > rest then first - s[0] else rest
  }

  lemma {:induction false} DeficitAtMost(s: seq<int>, first: int, b: nat)
    requires forall i :: 0 <= i < |s| ==> first - s[i] <= b
    ensures Deficit(s, first) <= b
  {
    if s != [] {
      DeficitAtMost(s[1..], first, b);
    }
  }

  predicate Increasing(idx: seq<nat>) {
    forall j, k :: 0 <= j < k < |idx| ==> idx[j] < idx[k]
  }

  /** `time[mask]` moved by `shift`, as a new array. */
  method Gather(time: array<int>, idx: seq<nat>, shift: int) returns (sub: array<int>)
    requires forall q :: 0 <= q < |idx| ==> idx[q] < time.Length
    ensures fresh(sub) && sub.Length == |idx|
    ensures forall q :: 0 <= q < |idx| ==> sub[q] == time[idx[q]] + shift
  {
    sub := new int[|idx|];
    for q := 0 to |idx|
      invariant forall p :: 0 <= p < q ==> sub[p] == time[idx[p]] + shift
    {
      sub[q] := time[idx[q]] + shift;
    }
  }

  /** `time[mask] = vals`. */
  method Scatter(time: array<int>, idx: seq<nat>, vals: seq<int>)
    requires |vals| == |idx| && Increasing(idx)
    requires forall q :: 0 <= q < |idx| ==> idx[q] < time.Length
    modifies time
    ensures forall q :: 0 <= q < |idx| ==> time[idx[q]] == vals[q]
    ensures forall i :: 0 <= i < time.Length && i !in idx ==> time[i] == old(time[i])
  {
    for q := 0 to |idx|
      invariant forall p :: 0 <= p < q ==> time[idx[p]] == vals[p]
      invariant forall i :: 0 <= i < time.Length && i !in idx[..q] ==> time[i] == old(time[i])
    {
      time[idx[q]] := vals[q];
      assert idx[..q + 1] == idx[..q] + [idx[q]];
    }
    assert idx[..|idx|] == idx;
  }

  /** `time > last`, element-wise. */
  function Above(s: seq<int>, last: int): (keep: seq<bool>)
    ensures |keep| == |s| && forall i :: 0 <= i < |s| ==> (keep[i] <==> s[i] > last)
  {
    seq(|s|, i requires 0 <= i < |s| => s[i] > last)
  }

  /** `time < first`, element-wise. */
  function Below(s: seq<int>, first: int): (keep: seq<bool>)
    ensures |keep| == |s| && forall i :: 0 <= i < |s| ==> (keep[i] <==> s[i] < first)
  {
    seq(|s|, i requires 0 <= i < |s| => s[i] < first)
  }

  /** Moving the exceeding offsets one period back shrinks the excess. */
  lemma ExcessShrinks(before: seq<int>, idx: seq<nat>, sub: seq<int>, last: int)
    requires |sub| == |idx| && forall q :: 0 <= q < |idx| ==> idx[q] < |before|
    requires forall q :: 0 <= q < |idx| ==> sub[q] == before[idx[q]] - Period
    requires exists i :: 0 <= i < |before| && before[i] > last
    ensures Excess(sub, last) < Excess(before, last)
  {
    var i0 :| 0 <= i0 < |before| && before[i0] > last;
    assert before[i0] - last <= Excess(before, last);
    ExcessAtMost(sub, last, Excess(before, last) - 1);
  }

  /** Moving the offsets below `first` one period forward shrinks the
      deficit. */
  lemma DeficitShrinks(before: seq<int>, idx: seq<nat>, sub: seq<int>, first: int)
    requires |sub| == |idx| && forall q :: 0 <= q < |idx| ==> idx[q] < |before|
    requires forall q :: 0 <= q < |idx| ==> sub[q] == before[idx[q]] + Period
    requires exists i :: 0 <= i < |before| && before[i] < first
    ensures Deficit(sub, first) < Deficit(before, first)
  {
    var i0 :| 0 <= i0 < |before| && before[i0] < first;
    assert first - before[i0] <= Deficit(before, first);
    DeficitAtMost(sub, first, Deficit(before, first) - 1);
  }

  /** Folding the exceeding offsets and leaving the others folds them all. */
  lemma FoldDownScattered(before: seq<int>, idx: seq<nat>, sub: seq<int>, after: seq<int>, last: int)
    requires idx == Where(Above(before, last)) && |sub| == |idx| && |after| == |before|
    requires forall q :: 0 <= q < |idx| ==> sub[q] == FoldDown(before[idx[q]] - Period, last)
    requires forall q :: 0 <= q < |idx| ==> after[idx[q]] == sub[q]
    requires forall i :: 0 <= i < |after| && i !in idx ==> after[i] == before[i]
    ensures after == FoldedDown(before, last)
  {
    forall i | 0 <= i < |after|
      ensures after[i] == FoldDown(before[i], last)
    {
      if i in idx {
        var q :| 0 <= q < |idx| && idx[q] == i;
      }
    }
  }

  /** Folding the offsets below `first` and leaving the others folds them
      all. */
  lemma FoldUpScattered(before: seq<int>, idx: seq<nat>, sub: seq<int>, after: seq<int>, first: int)
    requires idx == Where(Below(before, first)) && |sub| == |idx| && |after| == |before|
    requires forall q :: 0 <= q < |idx| ==> sub[q] == FoldUp(before[idx[q]] + Period, first)
    requires forall q :: 0 <= q < |idx| ==> after[idx[q]] == sub[q]
    requires forall i :: 0 <= i < |after| && i !in idx ==> after[i] == before[i]
    ensures after == FoldedUp(before, first)
  {
    forall i | 0 <= i < |after|
      ensures after[i] == FoldUp(before[i], first)
    {
      if i in idx {
        var q :| 0 <= q < |idx| && idx[q] == i;
      }
    }
  }

  /** Both folds over a batch of offsets, applied in place to a fresh array:
      first down, then up. */
  method FoldAll(xs: seq<int>, first: int, last: int) returns (ys: seq<int>)
    ensures |ys| == |xs|
    ensures forall k :: 0 <= k < |xs| ==> ys[k] == FoldUp(FoldDown(xs[k], last), first)
  {
    var arr := new int[|xs|](k requires 0 <= k < |xs| => xs[k]);
    FixFutureTime(arr, last);
    FixPastTime(arr, first);
    ys := arr[..];
  }

  /** `_fix_future_time`: while some offset exceeds `last`, move the
      exceeding ones one period back and fix them recursively, in place. */
  method FixFutureTime(time: array<int>, last: int)
    modifies time
    ensures time[..] == FoldedDown(old(time[..]), last)
    decreases Excess(time[..], last)
  {
    if forall i :: 0 <= i < time.Length ==> time[i] <= last {
      return;
    }
    ghost var before := time[..];
    var idx := Where(Above(time[..], last));
    var sub := Gather(time, idx, -Period);
    ExcessShrinks(before, idx, sub[..], last);
    FixFutureTime(sub, last);
    Scatter(time, idx, sub[..]);
    FoldDownScattered(before, idx, sub[..], time[..], last);
  }

  /** `_fix_past_time`: the mirror image about `first`. */
  method FixPastTime(time: array<int>, first: int)
    modifies time
    ensures time[..] == FoldedUp(old(time[..]), first)
    decreases Deficit(time[..], first)
  {
    if forall i :: 0 <= i < time.Length ==> time[i] >= first {
      return;
    }
    ghost var before := time[..];
    var idx := Where(Below(time[..], first));
    var sub := Gather(time, idx, Period);
    DeficitShrinks(before, idx, sub[..], first);
    FixPastTime(sub, first);
    Scatter(time, idx, sub[..]);
    FoldUpScattered(before, idx, sub[..], time[..], first);
  }
}
