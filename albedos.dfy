/** Albedo tables and the choice of surface albedo (albedos.py): each table
    maps a solar zenith angle (degrees) to an albedo by clamped
    piecewise-linear interpolation (numpy's `interp`), and the sea-ice albedo
    of a cell is chosen by a four-way regime on ice thickness and air
    temperature. */
module Albedos {
  import opened Wrappers
  import Seqs

  /** One row of a table. */
  datatype Point = Point(zenith: real, albedo: real)

  /** A table with NaN padding removed and sorted by zenith. */
  datatype Table = Table(zeniths: seq<real>, albedos: seq<real>)

  predicate Nondecreasing(s: seq<real>) {
    forall i, j :: 0 <= i < j < |s| ==> s[i] <= s[j]
  }

  predicate TableValid(t: Table) {
    |t.zeniths| == |t.albedos| > 0 && Nondecreasing(t.zeniths)
  }

  /** `x[~np.isnan(x)]`, with NaN written `None`. */
  function DropNaN(xs: seq<Option<real>>): (r: seq<real>)
    ensures |r| <= |xs|
    ensures forall v :: v in r <==> Some(v) in xs
    ensures (forall k :: 0 <= k < |xs| ==> xs[k].Some?) ==>
              |r| == |xs| && forall k :: 0 <= k < |xs| ==> r[k] == xs[k].value
  {
    if xs == [] then []
    else
      var rest := DropNaN(xs[1..]);
      assert forall v :: Some(v) in xs <==> xs[0] == Some(v) || Some(v) in xs[1..];
      if xs[0].Some? then [xs[0].value] + rest else rest
  }

  /** Dropping NaNs works piece by piece: the values of a column keep their
      order and their repetitions, so the values of `a` come before those of
      `b`. With the one-entry cases (`[None]` gives `[]`, `[Some(v)]` gives
      `[v]`) this fixes `DropNaN` on every column. */
  lemma {:induction false} DropNaNConcat(a: seq<Option<real>>, b: seq<Option<real>>)
    ensures DropNaN(a + b) == DropNaN(a) + DropNaN(b)
    ensures DropNaN([None]) == [] && forall v :: DropNaN([Some(v)]) == [v]
  {
    if a == [] {
      assert a + b == b;
    } else {
      assert (a + b)[1..] == a[1..] + b;
      DropNaNConcat(a[1..], b);
    }
  }

  predicate SortedByZenith(s: seq<Point>) {
    forall i, j :: 0 <= i < j < |s| ==> s[i].zenith <= s[j].zenith
  }

  /** Inserts `p` before the first point of larger or equal zenith. */
  function Insert(p: Point, s: seq<Point>): (r: seq<Point>)
    ensures multiset(r) == multiset(s) + multiset{p}
  {
    if s == [] then [p]
    else if p.zenith <= s[0].zenith then [p] + s
    else
      assert s == [s[0]] + s[1..];
      [s[0]] + Insert(p, s[1..])
  }

  lemma {:induction false} InsertMembers(p: Point, s: seq<Point>, x: Point)
    requires x in Insert(p, s)
    ensures x == p || x in s
  {
    if s != [] && p.zenith > s[0].zenith && x != s[0] {
      InsertMembers(p, s[1..], x);
    }
  }

  lemma {:induction false} InsertSorted(p: Point, s: seq<Point>)
    requires SortedByZenith(s)
    ensures SortedByZenith(Insert(p, s))
  {
    if s != [] && p.zenith > s[0].zenith {
      var tail := Insert(p, s[1..]);
      InsertSorted(p, s[1..]);
      forall x | x in tail
        ensures s[0].zenith <= x.zenith
      {
        InsertMembers(p, s[1..], x);
      }
      var r := [s[0]] + tail;
      forall i, j | 0 <= i < j < |r|
        ensures r[i].zenith <= r[j].zenith
      {
        if i == 0 {
          assert r[j] in tail;
        } else {
          assert r[i] == tail[i - 1] && r[j] == tail[j - 1];
        }
      }
    }
  }

  /** `argsort` on the zeniths, applied to zeniths and albedos alike: a
      sorted rearrangement of the points. Among equal zeniths this fixes one
      order (insertion keeps the input's); numpy's default sort promises none. */
  function SortPoints(ps: seq<Point>): (r: seq<Point>)
    ensures SortedByZenith(r)
    ensures multiset(r) == multiset(ps)
  {
    if ps == [] then []
    else
      assert ps == [ps[0]] + ps[1..];
      InsertSorted(ps[0], SortPoints(ps[1..]));
      Insert(ps[0], SortPoints(ps[1..]))
  }

  function PointsOf(zs: seq<real>, als: seq<real>): (r: seq<Point>)
    requires |zs| <= |als|
    ensures |r| == |zs|
  {
    seq(|zs|, i requires 0 <= i < |zs| => Point(zs[i], als[i]))
  }

  function TableOf(s: seq<Point>): (t: Table)
    ensures |t.zeniths| == |t.albedos| == |s|
  {
    Table(seq(|s|, i requires 0 <= i < |s| => s[i].zenith),
          seq(|s|, i requires 0 <= i < |s| => s[i].albedo))
  }

  /** `Albedo(zeniths, albedos)`: both columns lose their NaN padding
      separately, then the points are sorted by zenith. Fewer albedos than
      zeniths is an index error; a table with no point cannot be
      interpolated. */
  function MakeTable(zeniths: seq<Option<real>>, albedos: seq<Option<real>>): (r: Result<Table>)
    ensures var zs, als := DropNaN(zeniths), DropNaN(albedos);
            && (|als| < |zs| ==> r == Err(AlbedoTableMismatch))
            && (|zs| == 0 ==> r == Err(AlbedoTableEmpty))
            && (r.Ok? <==> 0 < |zs| <= |als|)
            && (r.Ok? ==> TableValid(r.value) && |r.value.zeniths| == |zs|)
            && (r.Ok? ==> multiset(PointsOf(r.value.zeniths, r.value.albedos)) == multiset(PointsOf(zs, als)))
  {
    var zs, als := DropNaN(zeniths), DropNaN(albedos);
    if |als| < |zs| then Err(AlbedoTableMismatch)
    else if |zs| == 0 then Err(AlbedoTableEmpty)
    else
      var s := SortPoints(PointsOf(zs, als));
      var t := TableOf(s);
      assert PointsOf(t.zeniths, t.albedos) == s;
      Ok(t)
  }

  // ---------------------------------------------------------------------
  // Lookup

  /** The number of table zeniths at or below `x`. */
  function CountAtMost(zs: seq<real>, x: real): (n: nat)
    ensures n <= |zs|
  {
    if zs == [] then 0 else (if zs[0] <= x then 1 else 0) + CountAtMost(zs[1..], x)
  }

  lemma {:induction false} CountAtMostSplit(zs: seq<real>, x: real, k: nat)
    requires k <= |zs|
    requires forall i :: 0 <= i < k ==> zs[i] <= x
    requires forall i :: k <= i < |zs| ==> x < zs[i]
    ensures CountAtMost(zs, x) == k
  {
    if zs != [] {
      CountAtMostSplit(zs[1..], x, if k == 0 then 0 else k - 1);
    }
  }

  /** On sorted zeniths, the points at or below `x` come first. */
  lemma {:induction false} CountAtMostSorted(zs: seq<real>, x: real)
    requires Nondecreasing(zs)
    ensures forall i :: 0 <= i < CountAtMost(zs, x) ==> zs[i] <= x
    ensures forall i :: CountAtMost(zs, x) <= i < |zs| ==> x < zs[i]
  {
    if zs != [] {
      CountAtMostSorted(zs[1..], x);
      assert forall i :: 1 <= i < |zs| ==> zs[i] == zs[1..][i - 1];
    }
  }

  /** `np.interp(x, zeniths, albedos)`: the first albedo below the table, the
      last above it, otherwise the line through the bracketing points
      `zeniths[j] <= x < zeniths[j + 1]` (a table zenith returns its own
      albedo). */
  function Interp(t: Table, x: real): (r: real)
    requires TableValid(t)
  {
    var zs, als := t.zeniths, t.albedos;
    var n := |zs|;
    if x < zs[0] then als[0]
    else if x > zs[n - 1] then als[n - 1]
    else
      CountAtMostSorted(zs, x);
      var j := CountAtMost(zs, x) - 1;
      if j == n - 1 then als[n - 1]
      else if zs[j] == x then als[j]
      else (als[j + 1] - als[j]) / (zs[j + 1] - zs[j]) * (x - zs[j]) + als[j]
  }

  /** `Albedo.get_albedo` at one zenith: 0 beyond 90 degrees (the sun is
      below the horizon), the table lookup otherwise. */
  function AlbedoAt(t: Table, zenith: real): real
    requires TableValid(t)
  {
    if zenith <= 90.0 then Interp(t, zenith) else 0.0
  }

  function AlbedoCurve(t: Table, zs: seq<real>): (r: seq<real>)
    requires TableValid(t)
    ensures |r| == |zs|
  {
    seq(|zs|, i requires 0 <= i < |zs| => AlbedoAt(t, zs[i]))
  }

  /** `Albedo.get_albedo`: a zero array filled at the zeniths of at most 90. */
  method GetAlbedo(t: Table, zs: seq<real>) returns (r: seq<real>)
    requires TableValid(t)
    ensures r == AlbedoCurve(t, zs)
    ensures forall i :: 0 <= i < |zs| && zs[i] > 90.0 ==> r[i] == 0.0
  {
    var albedo := new real[|zs|](_ => 0.0);
    for i := 0 to |zs|
      invariant forall k :: 0 <= k < i ==> albedo[k] == AlbedoAt(t, zs[k])
      invariant forall k :: i <= k < |zs| ==> albedo[k] == 0.0
    {
      if zs[i] <= 90.0 {
        albedo[i] := Interp(t, zs[i]);
      }
    }
    r := albedo[..];
  }

  // ---------------------------------------------------------------------
  // Properties of the lookup

  /** Outside the table the lookup is clamped to the end albedos. */
  lemma InterpClamped(t: Table, x: real)
    requires TableValid(t)
    ensures x < t.zeniths[0] ==> Interp(t, x) == t.albedos[0]
    ensures x >= t.zeniths[|t.zeniths| - 1] ==> Interp(t, x) == t.albedos[|t.albedos| - 1]
  {
    var n := |t.zeniths|;
    if x == t.zeniths[n - 1] {
      CountAtMostSorted(t.zeniths, x);
      CountAtMostSplit(t.zeniths, x, n);
    }
  }

  predicate StrictlyIncreasing(s: seq<real>) {
    forall i, j :: 0 <= i < j < |s| ==> s[i] < s[j]
  }

  /** At a table zenith of a table without repeated zeniths the lookup
      returns that zenith's albedo. */
  lemma InterpAtKnot(t: Table, k: nat)
    requires TableValid(t) && StrictlyIncreasing(t.zeniths) && k < |t.zeniths|
    ensures Interp(t, t.zeniths[k]) == t.albedos[k]
  {
    CountAtMostSplit(t.zeniths, t.zeniths[k], k + 1);
  }

  /** Between adjacent distinct table zeniths the lookup is the line through
      the two points. */
  lemma InterpBetweenKnots(t: Table, k: nat, x: real)
    requires TableValid(t) && k + 1 < |t.zeniths|
    requires t.zeniths[k] < x < t.zeniths[k + 1]
    ensures var z0, z1, a0, a1 := t.zeniths[k], t.zeniths[k + 1], t.albedos[k], t.albedos[k + 1];
            Interp(t, x) == a0 + (x - z0) / (z1 - z0) * (a1 - a0)
  {
    Bracketed(t.zeniths, k, x);
    SlopeForm(t.albedos[k], t.albedos[k + 1], t.zeniths[k], t.zeniths[k + 1], x);
  }

  /** A point strictly inside the gap between sorted zeniths `k` and `k + 1`
      has exactly `k + 1` zeniths at or below it and lies inside the table. */
  lemma Bracketed(zs: seq<real>, k: nat, x: real)
    requires Nondecreasing(zs) && k + 1 < |zs|
    requires zs[k] < x < zs[k + 1]
    ensures CountAtMost(zs, x) == k + 1
    ensures zs[0] <= x <= zs[|zs| - 1]
  {
    assert forall i :: 0 <= i <= k ==> zs[i] <= zs[k];
    assert forall i :: k + 1 <= i < |zs| ==> zs[k + 1] <= zs[i];
    CountAtMostSplit(zs, x, k + 1);
  }

  /** The slope form of the line is its weighted form. */
  lemma SlopeForm(a0: real, a1: real, z0: real, z1: real, x: real)
    requires z0 < z1
    ensures (a1 - a0) / (z1 - z0) * (x - z0) == (x - z0) / (z1 - z0) * (a1 - a0)
  {
    var d, e, a := z1 - z0, x - z0, a1 - a0;
    assert a / d == a * (1.0 / d);
    assert e / d == e * (1.0 / d);
  }

  /** A point of an interval lies a fraction in [0, 1] of the way along it. */
  lemma FractionInUnit(z0: real, z1: real, x: real)
    requires z0 <= x <= z1 && z0 < z1
    ensures 0.0 <= (x - z0) / (z1 - z0) <= 1.0
  {
    var d, e := z1 - z0, x - z0;
    assert e / d <= d / d;
  }

  /** The lookup never leaves the range of the table's albedos. */
  lemma InterpInRange(t: Table, x: real)
    requires TableValid(t)
    ensures exists i :: 0 <= i < |t.albedos| && t.albedos[i] <= Interp(t, x)
    ensures exists i :: 0 <= i < |t.albedos| && Interp(t, x) <= t.albedos[i]
  {
    var zs, als := t.zeniths, t.albedos;
    var n := |zs|;
    var r := Interp(t, x);
    if x < zs[0] || x > zs[n - 1] {
      assert als[0] == r || als[n - 1] == r;
    } else {
      CountAtMostSorted(zs, x);
      var j := CountAtMost(zs, x) - 1;
      if j == n - 1 || zs[j] == x {
        assert als[j] == r;
      } else {
        var w := (x - zs[j]) / (zs[j + 1] - zs[j]);
        FractionInUnit(zs[j], zs[j + 1], x);
        SlopeForm(als[j], als[j + 1], zs[j], zs[j + 1], x);
        var step := w * (als[j + 1] - als[j]);
        assert r == als[j] + step;
        Seqs.WeightBounds(als[j], als[j + 1], w);
        if als[j] <= als[j + 1] {
          assert als[j] <= r;
        } else {
          assert r <= als[j];
        }
      }
    }
  }

  /** Every albedo of the table lies between 0 and 1. */
  predicate UnitTable(t: Table) {
    forall i :: 0 <= i < |t.albedos| ==> 0.0 <= t.albedos[i] <= 1.0
  }

  /** A table of albedos between 0 and 1 answers with an albedo between 0
      and 1 at every zenith, the sun below the horizon included. */
  lemma AlbedoInUnit(t: Table, zenith: real)
    requires TableValid(t) && UnitTable(t)
    ensures 0.0 <= AlbedoAt(t, zenith) <= 1.0
  {
    if zenith <= 90.0 {
      InterpInRange(t, zenith);
    }
  }

  // ---------------------------------------------------------------------
  // The six curves and the regimes

  /** The six curves read from the albedo file. */
  datatype Curves = Curves(
    clearOcean: Table,
    cloudBrightIce: Table,
    cloudOcean: Table,
    cloudDarkIce: Table,
    clearBrightIce: Table,
    clearDarkIce: Table)

  predicate CurvesValid(c: Curves) {
    && TableValid(c.clearOcean) && TableValid(c.cloudBrightIce) && TableValid(c.cloudOcean)
    && TableValid(c.cloudDarkIce) && TableValid(c.clearBrightIce) && TableValid(c.clearDarkIce)
  }

  predicate CurvesInUnit(c: Curves) {
    && UnitTable(c.clearOcean) && UnitTable(c.cloudBrightIce) && UnitTable(c.cloudOcean)
    && UnitTable(c.cloudDarkIce) && UnitTable(c.clearBrightIce) && UnitTable(c.clearDarkIce)
  }

  function OceanCurve(c: Curves, clearSky: bool): Table {
    if clearSky then c.clearOcean else c.cloudOcean
  }

  function BrightCurve(c: Curves, clearSky: bool): Table {
    if clearSky then c.clearBrightIce else c.cloudBrightIce
  }

  function DarkCurve(c: Curves, clearSky: bool): Table {
    if clearSky then c.clearDarkIce else c.cloudDarkIce
  }

  /** `Albedos.get_sea_albedo`: the clear-sky or the cloudy ocean curve. */
  method GetSeaAlbedo(c: Curves, zs: seq<real>, clearSky: bool) returns (r: seq<real>)
    requires CurvesValid(c)
    ensures r == AlbedoCurve(OceanCurve(c, clearSky), zs)
  {
    r := GetAlbedo(OceanCurve(c, clearSky), zs);
  }

  /** Melting surface: at least -1 degree Celsius. */
  const MeltTemperature: real := 272.15
  const ThinIce: real := 0.5

  predicate HasMelt(temperature: real) { temperature >= MeltTemperature }
  predicate IsThin(thickness: real) { thickness < ThinIce }

  /** The four regime masks of `get_ice_albedo` are pairwise disjoint and
      cover every cell; a thickness of exactly 0.5 is thick. */
  lemma RegimesPartition(h: real, temp: real)
    ensures var thinDry, thinMelt := !HasMelt(temp) && IsThin(h), HasMelt(temp) && IsThin(h);
            var thickDry, thickMelt := !HasMelt(temp) && !IsThin(h), HasMelt(temp) && !IsThin(h);
            && (thinDry || thinMelt || thickDry || thickMelt)
            && !(thinDry && thinMelt) && !(thinDry && thickDry) && !(thinDry && thickMelt)
            && !(thinMelt && thickDry) && !(thinMelt && thickMelt) && !(thickDry && thickMelt)
    ensures !IsThin(ThinIce)
  {
  }

  /** `fh = arctan(4 h) / arctan(2)`, capped at 1. */
  function ThinFraction(h: real, atan: real -> real): (fh: real)
    requires atan(2.0) > 0.0
    ensures fh <= 1.0
    ensures atan(4.0 * h) >= 0.0 ==> 0.0 <= fh
  {
    var f := atan(4.0 * h) / atan(2.0);
    if f > 1.0 then 1.0 else f
  }

  /** The albedo of one sea-ice cell: the dark curve for thick melting ice,
      the bright curve for thick dry ice, and for thin ice, dry or melting,
      the sea albedo blended with the bright curve by `fh`. */
  function IceCell(h: real, temp: real, sea: real, bright: real, dark: real, atan: real -> real): real
    requires atan(2.0) > 0.0
  {
    if !IsThin(h) then (if HasMelt(temp) then dark else bright)
    else Blend(sea, bright, ThinFraction(h, atan))
  }

  /** `sea * (1 - fh) + bright * fh`. */
  function Blend(sea: real, bright: real, fh: real): real {
    sea * (1.0 - fh) + bright * fh
  }

  /** `albedo[flags] = vals[flags]`. */
  method FillWhere(albedo: array<real>, flags: seq<bool>, vals: seq<real>)
    requires |flags| == |vals| == albedo.Length
    modifies albedo
    ensures forall i :: 0 <= i < albedo.Length ==> albedo[i] == if flags[i] then vals[i] else old(albedo[i])
  {
    for i := 0 to albedo.Length
      invariant forall k :: 0 <= k < i ==> albedo[k] == if flags[k] then vals[k] else old(albedo[k])
      invariant forall k :: i <= k < albedo.Length ==> albedo[k] == old(albedo[k])
    {
      if flags[i] {
        albedo[i] := vals[i];
      }
    }
  }

  /** `fh[fh > 1] = 1`. */
  method CapAtOne(fh: array<real>)
    modifies fh
    ensures forall i :: 0 <= i < fh.Length ==> fh[i] == if old(fh[i]) > 1.0 then 1.0 else old(fh[i])
  {
    for i := 0 to fh.Length
      invariant forall k :: 0 <= k < i ==> fh[k] == if old(fh[k]) > 1.0 then 1.0 else old(fh[k])
      invariant forall k :: i <= k < fh.Length ==> fh[k] == old(fh[k])
    {
      if fh[i] > 1.0 {
        fh[i] := 1.0;
      }
    }
  }

  /** The four regime fills of `get_ice_albedo`, in the source's order. */
  method FillRegimes(albedo: array<real>, hasMelt: seq<bool>, isThin: seq<bool>,
                     dark: seq<real>, bright: seq<real>, blend: seq<real>)
    requires |hasMelt| == |isThin| == |dark| == |bright| == |blend| == albedo.Length
    modifies albedo
    ensures forall i :: 0 <= i < albedo.Length ==>
              albedo[i] == if isThin[i] then blend[i] else if hasMelt[i] then dark[i] else bright[i]
  {
    var n := albedo.Length;
    FillWhere(albedo, seq(n, i requires 0 <= i < n => hasMelt[i] && !isThin[i]), dark);
    FillWhere(albedo, seq(n, i requires 0 <= i < n => !hasMelt[i] && !isThin[i]), bright);
    FillWhere(albedo, seq(n, i requires 0 <= i < n => !hasMelt[i] && isThin[i]), blend);
    FillWhere(albedo, seq(n, i requires 0 <= i < n => hasMelt[i] && isThin[i]), blend);
  }

  /** `fh`: `arctan(4 h) / arctan(2)` capped in place. */
  method ThinFractions(thickness: seq<real>, atan: real -> real) returns (r: seq<real>)
    requires atan(2.0) > 0.0
    ensures |r| == |thickness|
    ensures forall i :: 0 <= i < |thickness| ==> r[i] == ThinFraction(thickness[i], atan)
  {
    var n := |thickness|;
    var a2 := atan(2.0);
    var fh := new real[n](i requires 0 <= i < n => atan(4.0 * thickness[i]) / a2);
    CapAtOne(fh);
    r := fh[..];
  }

  /** The sea albedo `get_ice_albedo` blends with. */
  function SeaFor(c: Curves, zs: seq<real>, clearSky: bool, seaAlbedo: Option<seq<real>>): seq<real>
    requires CurvesValid(c)
  {
    if seaAlbedo.Some? then seaAlbedo.value else AlbedoCurve(OceanCurve(c, clearSky), zs)
  }

  function IceCurve(h: seq<real>, temp: seq<real>, sea: seq<real>, bright: seq<real>, dark: seq<real>,
                    atan: real -> real): (r: seq<real>)
    requires atan(2.0) > 0.0
    requires |temp| == |sea| == |bright| == |dark| == |h|
    ensures |r| == |h|
  {
    seq(|h|, i requires 0 <= i < |h| => IceCell(h[i], temp[i], sea[i], bright[i], dark[i], atan))
  }

  /** `Albedos.get_ice_albedo`. When no sea albedo is given, the ocean curve
      of the same sky is used. */
  method GetIceAlbedo(c: Curves, zs: seq<real>, thickness: seq<real>, temperature: seq<real>,
                      clearSky: bool, seaAlbedo: Option<seq<real>>, atan: real -> real)
    returns (r: seq<real>)
    requires CurvesValid(c) && atan(2.0) > 0.0
    requires |thickness| == |temperature| == |zs|
    requires seaAlbedo.Some? ==> |seaAlbedo.value| == |zs|
    ensures r == IceCurve(thickness, temperature, SeaFor(c, zs, clearSky, seaAlbedo),
                          AlbedoCurve(BrightCurve(c, clearSky), zs), AlbedoCurve(DarkCurve(c, clearSky), zs), atan)
  {
    var n := |zs|;
    var sea: seq<real>;
    if seaAlbedo.Some? {
      sea := seaAlbedo.value;
    } else {
      sea := GetSeaAlbedo(c, zs, clearSky);
    }
    var bright := GetAlbedo(BrightCurve(c, clearSky), zs);
    var dark := GetAlbedo(DarkCurve(c, clearSky), zs);
    var albedo := new real[n](_ => 0.0);
    var hasMelt := seq(n, i requires 0 <= i < n => HasMelt(temperature[i]));
    var isThin := seq(n, i requires 0 <= i < n => IsThin(thickness[i]));
    var fh := ThinFractions(thickness, atan);
    var blend := seq(n, i requires 0 <= i < n => Blend(sea[i], bright[i], fh[i]));
    FillRegimes(albedo, hasMelt, isThin, dark, bright, blend);
    r := albedo[..];
    assert sea == SeaFor(c, zs, clearSky, seaAlbedo);
    ghost var spec := IceCurve(thickness, temperature, sea, bright, dark, atan);
    forall i | 0 <= i < n
      ensures r[i] == spec[i]
    {
      var f := fh[i];
      assert f == ThinFraction(thickness[i], atan);
      assert spec[i] == IceCell(thickness[i], temperature[i], sea[i], bright[i], dark[i], atan);
      assert r[i] == albedo[i];
      if isThin[i] {
        assert r[i] == blend[i] == Blend(sea[i], bright[i], f);
      } else {
        assert r[i] == if hasMelt[i] then dark[i] else bright[i];
      }
    }
  }

  // ---------------------------------------------------------------------
  // Properties of the regimes

  /** Thin ice does not depend on the temperature. */
  lemma ThinIgnoresTemperature(h: real, t0: real, t1: real, sea: real, bright: real, dark: real,
                               atan: real -> real)
    requires atan(2.0) > 0.0 && IsThin(h)
    ensures IceCell(h, t0, sea, bright, dark, atan) == IceCell(h, t1, sea, bright, dark, atan)
  {
  }

  /** Thin ice of non-negative `arctan(4 h)` lies between the sea albedo and
      the bright curve. */
  lemma ThinBetween(h: real, temp: real, sea: real, bright: real, dark: real, atan: real -> real)
    requires atan(2.0) > 0.0 && IsThin(h) && atan(4.0 * h) >= 0.0
    ensures sea <= bright ==> sea <= IceCell(h, temp, sea, bright, dark, atan) <= bright
    ensures bright <= sea ==> bright <= IceCell(h, temp, sea, bright, dark, atan) <= sea
  {
    var fh := ThinFraction(h, atan);
    assert IceCell(h, temp, sea, bright, dark, atan) == Blend(sea, bright, fh);
    BlendBetween(sea, bright, fh);
  }

  /** A blend with a fraction in [0, 1] lies between its two albedos. */
  lemma BlendBetween(sea: real, bright: real, fh: real)
    requires 0.0 <= fh <= 1.0
    ensures sea <= bright ==> sea <= Blend(sea, bright, fh) <= bright
    ensures bright <= sea ==> bright <= Blend(sea, bright, fh) <= sea
  {
    var step := fh * (bright - sea);
    assert Blend(sea, bright, fh) == sea + step by {
      assert sea * (1.0 - fh) == sea - fh * sea;
      assert step == fh * bright - fh * sea;
    }
    Seqs.WeightBounds(sea, bright, fh);
  }

  /** An albedo between 0 and 1 on every table keeps every cell's albedo
      between 0 and 1. */
  lemma IceCellInUnit(h: real, temp: real, sea: real, bright: real, dark: real, atan: real -> real)
    requires atan(2.0) > 0.0 && atan(4.0 * h) >= 0.0
    requires 0.0 <= sea <= 1.0 && 0.0 <= bright <= 1.0 && 0.0 <= dark <= 1.0
    ensures 0.0 <= IceCell(h, temp, sea, bright, dark, atan) <= 1.0
  {
    if IsThin(h) {
      ThinBetween(h, temp, sea, bright, dark, atan);
    }
  }
}
