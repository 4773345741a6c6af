/** Gridded samples and the piecewise-linear interpolator that a field builds
    over them (scipy's `interp1d` with `fill_value='extrapolate'`, in exact
    real arithmetic). Grids are flattened: one entry per grid cell. */
module Samples {
  import Seqs

  /** One timestep of a field: the raw value and the validity mask of every
      grid cell (`true` marks a cell without data). numpy keeps a raw value
      under every mask entry, and the interpolator reads those raw values. */
  datatype Sample = Sample(values: seq<real>, mask: seq<bool>)

  predicate Shaped(s: Sample, cells: nat) {
    |s.values| == cells && |s.mask| == cells
  }

  predicate AllShaped(ss: seq<Sample>, cells: nat) {
    forall k :: 0 <= k < |ss| ==> Shaped(ss[k], cells)
  }

  predicate StrictlyIncreasing(t: seq<int>) {
    forall i, j :: 0 <= i < j < |t| ==> t[i] < t[j]
  }

  /** What an interpolator captures when it is built: the sample offsets (in
      seconds) and the samples, each with `cells` grid cells. */
  datatype Series = Series(times: seq<int>, samples: seq<Sample>, cells: nat)

  predicate ValidSeries(s: Series) {
    && |s.times| == |s.samples| >= 2
    && StrictlyIncreasing(s.times)
    && AllShaped(s.samples, s.cells)
  }

  /** numpy's `searchsorted(times, t)` (side 'left'): the number of sample
      offsets strictly below `t`. */
  function CountBelow(times: seq<int>, t: int): (n: nat)
    ensures n <= |times|
  {
    if times == [] then 0
    else (if times[0] < t then 1 else 0) + CountBelow(times[1..], t)
  }

  /** On increasing offsets, `CountBelow` is the position that splits the
      offsets below `t` from the others. */
  lemma {:induction false} CountBelowSplit(times: seq<int>, t: int, k: nat)
    requires k <= |times|
    requires forall i :: 0 <= i < k ==> times[i] < t
    requires forall i :: k <= i < |times| ==> t <= times[i]
    ensures CountBelow(times, t) == k
  {
    if times != [] {
      CountBelowSplit(times[1..], t, if k == 0 then 0 else k - 1);
    }
  }

  /** The upper end of the bracketing interval: interp1d clips the
      searchsorted position into [1, n-1]. */
  function Upper(s: Series, t: int): (hi: nat)
    requires ValidSeries(s)
    ensures 1 <= hi < |s.times|
  {
    var n := CountBelow(s.times, t);
    if n < 1 then 1 else if n > |s.times| - 1 then |s.times| - 1 else n
  }

  /** interp1d's linear formula `slope * (t - x_lo) + y_lo`. */
  function Line(ylo: real, yhi: real, xlo: int, xhi: int, t: int): real
    requires xlo < xhi
  {
    (yhi - ylo) / ((xhi - xlo) as real) * ((t - xlo) as real) + ylo
  }

  function AsReal(b: bool): real {
    if b then 1.0 else 0.0
  }

  /** The interpolated sample at offset `t`. The boolean mask is interpolated
      as 0/1 numbers and every nonzero result counts as masked. */
  function InterpSample(s: Series, t: int): (r: Sample)
    requires ValidSeries(s)
    ensures Shaped(r, s.cells)
  {
    var hi := Upper(s, t);
    var lo := hi - 1;
    var a, b := s.samples[lo], s.samples[hi];
    var xlo, xhi := s.times[lo], s.times[hi];
    Sample(
      seq(s.cells, c requires 0 <= c < s.cells =>
        Line(a.values[c], b.values[c], xlo, xhi, t)),
      seq(s.cells, c requires 0 <= c < s.cells =>
        Line(AsReal(a.mask[c]), AsReal(b.mask[c]), xlo, xhi, t) != 0.0))
  }

  lemma LineAtEnds(ylo: real, yhi: real, xlo: int, xhi: int)
    requires xlo < xhi
    ensures Line(ylo, yhi, xlo, xhi, xlo) == ylo
    ensures Line(ylo, yhi, xlo, xhi, xhi) == yhi
  {
    var d := (xhi - xlo) as real;
    assert (yhi - ylo) / d * d == yhi - ylo;
  }

  /** At a sample offset the interpolator returns that sample exactly. */
  lemma InterpAtSample(s: Series, k: nat)
    requires ValidSeries(s) && k < |s.times|
    ensures InterpSample(s, s.times[k]) == s.samples[k]
  {
    var t := s.times[k];
    CountBelowSplit(s.times, t, k);
    var hi := Upper(s, t);
    var a, b := s.samples[hi - 1], s.samples[hi];
    var xlo, xhi := s.times[hi - 1], s.times[hi];
    var r := InterpSample(s, t);
    forall c | 0 <= c < s.cells
      ensures r.values[c] == s.samples[k].values[c] && r.mask[c] == s.samples[k].mask[c]
    {
      LineAtEnds(a.values[c], b.values[c], xlo, xhi);
      LineAtEnds(AsReal(a.mask[c]), AsReal(b.mask[c]), xlo, xhi);
    }
    assert r.values == s.samples[k].values;
    assert r.mask == s.samples[k].mask;
  }

  /** interp1d's slope form is the usual weighted form. */
  lemma LineAsWeight(ylo: real, yhi: real, xlo: int, xhi: int, t: int)
    requires xlo < xhi
    ensures Line(ylo, yhi, xlo, xhi, t)
            == ylo + ((t - xlo) as real) / ((xhi - xlo) as real) * (yhi - ylo)
  {
    var d := (xhi - xlo) as real;
    var e := (t - xlo) as real;
    assert (yhi - ylo) / d * e == e / d * (yhi - ylo);
  }

  lemma WeightNonzero(m0: bool, m1: bool, w: real)
    requires 0.0 < w < 1.0
    ensures AsReal(m0) + w * (AsReal(m1) - AsReal(m0)) != 0.0 <==> m0 || m1
  {
  }

  lemma WeightInUnit(x0: int, x1: int, t: int)
    requires x0 < x1 && x0 <= t <= x1
    ensures 0.0 <= ((t - x0) as real) / ((x1 - x0) as real) <= 1.0
    ensures x0 < t < x1 ==> 0.0 < ((t - x0) as real) / ((x1 - x0) as real) < 1.0
  {
  }

  /** An offset inside (t_k, t_k+1] is bracketed by samples k and k+1. */
  lemma UpperInside(s: Series, k: nat, t: int)
    requires ValidSeries(s) && k + 1 < |s.times|
    requires s.times[k] < t <= s.times[k + 1]
    ensures Upper(s, t) == k + 1
  {
    CountBelowSplit(s.times, t, k + 1);
  }

  /** Between two adjacent samples the value is their linear interpolation,
      it lies between them, and strictly inside the interval a cell is masked
      exactly when one of the two bounding samples masks it. */
  lemma InterpBetween(s: Series, k: nat, t: int, c: nat)
    requires ValidSeries(s) && k + 1 < |s.times| && c < s.cells
    requires s.times[k] <= t <= s.times[k + 1]
    ensures var v0, v1 := s.samples[k].values[c], s.samples[k + 1].values[c];
            var w := ((t - s.times[k]) as real) / ((s.times[k + 1] - s.times[k]) as real);
            && 0.0 <= w <= 1.0
            && InterpSample(s, t).values[c] == v0 + w * (v1 - v0)
            && (v0 <= v1 ==> v0 <= InterpSample(s, t).values[c] <= v1)
            && (v1 <= v0 ==> v1 <= InterpSample(s, t).values[c] <= v0)
    ensures s.times[k] < t < s.times[k + 1] ==>
              (InterpSample(s, t).mask[c] <==> s.samples[k].mask[c] || s.samples[k + 1].mask[c])
  {
    var v0, v1 := s.samples[k].values[c], s.samples[k + 1].values[c];
    var x0, x1 := s.times[k], s.times[k + 1];
    assert x0 < x1;
    var w := ((t - x0) as real) / ((x1 - x0) as real);
    WeightInUnit(x0, x1, t);
    Seqs.WeightBounds(v0, v1, w);
    if t == x0 {
      InterpAtSample(s, k);
      assert w == 0.0;
    } else {
      UpperInside(s, k, t);
      LineAsWeight(v0, v1, x0, x1, t);
      if t < x1 {
        var m0, m1 := s.samples[k].mask[c], s.samples[k + 1].mask[c];
        LineAsWeight(AsReal(m0), AsReal(m1), x0, x1, t);
        WeightNonzero(m0, m1, w);
      }
    }
  }
}
