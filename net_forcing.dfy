/** The shortwave flux the Arctic surface absorbs, its integration over one
    year in chunks of at most a day, and the radiative forcing that results
    (net_forcing.py). Query times are seconds after the data set's common
    start date; dates are seconds since the epoch. */
module NetForcing {
  import opened Wrappers
  import opened Seqs
  import opened Samples
  import opened Cycle
  import opened Cmip5Grid
  import opened Cmip5
  import opened Albedos
  import opened DataSets
  import opened Environment

  // ---------------------------------------------------------------------
  // The flux of one cell

  /** The solar constant `S`, in W/m^2. */
  const SolarConstant: real := 1365.0

  /** `phi + beta + omega + xi`: the fraction of the incoming light a cell
      absorbs. Each of the four surface and sky regimes is weighted by its
      share of the cell and absorbs one minus its albedo. */
  function Absorbed(ice: real, cloud: real, aIcld: real, aIclr: real, aOcld: real, aOclr: real): real {
    (1.0 - aIcld) * (ice * cloud) + (1.0 - aIclr) * (ice * (1.0 - cloud))
    + (1.0 - aOcld) * ((1.0 - ice) * cloud) + (1.0 - aOclr) * ((1.0 - ice) * (1.0 - cloud))
  }

  /** The four regime weights share the whole cell between them. */
  lemma RegimeWeights(ice: real, cloud: real)
    ensures ice * cloud + ice * (1.0 - cloud) + (1.0 - ice) * cloud + (1.0 - ice) * (1.0 - cloud) == 1.0
  {
    assert ice * (1.0 - cloud) == ice - ice * cloud;
    assert (1.0 - ice) * cloud == cloud - ice * cloud;
    assert (1.0 - ice) * (1.0 - cloud) == 1.0 - ice - cloud + ice * cloud;
  }

  /** Under one albedo everywhere a cell absorbs one minus that albedo,
      whatever its ice and cloud cover. */
  lemma UniformAlbedo(ice: real, cloud: real, a: real)
    ensures Absorbed(ice, cloud, a, a, a, a) == 1.0 - a
  {
    var w1, w2, w3, w4 := ice * cloud, ice * (1.0 - cloud), (1.0 - ice) * cloud, (1.0 - ice) * (1.0 - cloud);
    var b := 1.0 - a;
    assert b * w1 + b * w2 + b * w3 + b * w4 == b * (w1 + w2 + w3 + w4);
    RegimeWeights(ice, cloud);
  }

  /** A cell without cloud (a masked cloud cover reads as 0) absorbs as under
      a clear sky: ice and open water weighted by the ice fraction, each
      under its clear-sky albedo. */
  lemma CloudlessCell(ice: real, aIcld: real, aIclr: real, aOcld: real, aOclr: real)
    ensures Absorbed(ice, 0.0, aIcld, aIclr, aOcld, aOclr) == (1.0 - aIclr) * ice + (1.0 - aOclr) * (1.0 - ice)
  {
  }

  /** One regime's term lies between 0 and the regime's weight. */
  lemma TermBounds(a: real, w: real)
    requires 0.0 <= a <= 1.0 && 0.0 <= w
    ensures 0.0 <= (1.0 - a) * w <= w
  {
    MulNonNegative(1.0 - a, w);
    MulNonNegative(a, w);
    assert (1.0 - a) * w == w - a * w;
  }

  /** With cover fractions and albedos between 0 and 1, a cell absorbs
      between none and all of the light. */
  lemma AbsorbedInUnit(ice: real, cloud: real, aIcld: real, aIclr: real, aOcld: real, aOclr: real)
    requires 0.0 <= ice <= 1.0 && 0.0 <= cloud <= 1.0
    requires 0.0 <= aIcld <= 1.0 && 0.0 <= aIclr <= 1.0 && 0.0 <= aOcld <= 1.0 && 0.0 <= aOclr <= 1.0
    ensures 0.0 <= Absorbed(ice, cloud, aIcld, aIclr, aOcld, aOclr) <= 1.0
  {
    MulNonNegative(ice, cloud);
    MulNonNegative(ice, 1.0 - cloud);
    MulNonNegative(1.0 - ice, cloud);
    MulNonNegative(1.0 - ice, 1.0 - cloud);
    RegimeWeights(ice, cloud);
    MixInUnit(aIcld, aIclr, aOcld, aOclr, ice * cloud, ice * (1.0 - cloud), (1.0 - ice) * cloud, (1.0 - ice) * (1.0 - cloud));
  }

  /** Four albedos between 0 and 1 under non-negative weights summing to 1
      absorb between none and all of the light. */
  lemma MixInUnit(a1: real, a2: real, a3: real, a4: real, w1: real, w2: real, w3: real, w4: real)
    requires 0.0 <= a1 <= 1.0 && 0.0 <= a2 <= 1.0 && 0.0 <= a3 <= 1.0 && 0.0 <= a4 <= 1.0
    requires 0.0 <= w1 && 0.0 <= w2 && 0.0 <= w3 && 0.0 <= w4 && w1 + w2 + w3 + w4 == 1.0
    ensures 0.0 <= (1.0 - a1) * w1 + (1.0 - a2) * w2 + (1.0 - a3) * w3 + (1.0 - a4) * w4 <= 1.0
  {
    TermBounds(a1, w1);
    TermBounds(a2, w2);
    TermBounds(a3, w3);
    TermBounds(a4, w4);
  }

  /** A share `f` in [0, 1] of the clamped cosine lies between 0 and it. */
  lemma ShareOfCosine(cz: real, f: real)
    requires 0.0 <= cz && 0.0 <= f <= 1.0
    ensures 0.0 <= cz * f <= cz
  {
    MulNonNegative(cz, f);
    MulNonNegative(cz, 1.0 - f);
    assert cz * (1.0 - f) == cz - cz * f;
  }

  // ---------------------------------------------------------------------
  // The flux at one query time

  /** `cos_zeniths` after line 12 of net_forcing.py: the cosine of every
      zenith angle, 0 where the sun is below the horizon. */
  function ClampedCos(z: seq<real>, cosDeg: real -> real): (cz: seq<real>)
    ensures |cz| == |z|
    ensures forall j :: 0 <= j < |z| ==> 0.0 <= cz[j] && cosDeg(z[j]) <= cz[j]
    ensures forall j :: 0 <= j < |z| && 0.0 <= cosDeg(z[j]) ==> cz[j] == cosDeg(z[j])
  {
    seq(|z|, j requires 0 <= j < |z| => if cosDeg(z[j]) < 0.0 then 0.0 else cosDeg(z[j]))
  }

  /** `cloud_data` after line 19: a masked cell reads as cloud-free. */
  function ClearedCloud(s: Sample): (r: seq<real>)
    requires |s.mask| == |s.values|
    ensures |r| == |s.values|
    ensures forall j :: 0 <= j < |r| ==> r[j] == if s.mask[j] then 0.0 else s.values[j]
  {
    seq(|s.values|, j requires 0 <= j < |s.values| => if s.mask[j] then 0.0 else s.values[j])
  }

  /** Lines 11-60 of `_get_E` once the fields have been read: the flux from
      the zenith angles, the sea-ice concentration, the cloud cover, the ice
      thickness and the air temperature of every cell. The albedos come
      from the thickness and temperature of every cell, masked or not, as
      numpy compares the raw values under a mask. A cell where the sea-ice
      concentration is masked keeps the value numpy leaves under the mask
      of a product, the clamped cosine itself; the result carries the mask
      of the ice thickness. */
  function Radiation(z: seq<real>, ice: Sample, cloud: Sample, h: Sample, temp: Sample, c: Curves,
                     env: Physics): (e: Sample)
    requires CurvesValid(c) && env.atan(2.0) > 0.0
    requires Shaped(ice, |z|) && Shaped(cloud, |z|) && Shaped(h, |z|) && Shaped(temp, |z|)
    ensures Shaped(e, |z|)
  {
    var n := |z|;
    var cz := ClampedCos(z, env.cosDeg);
    var cl := ClearedCloud(cloud);
    var aOcld, aOclr := AlbedoCurve(OceanCurve(c, false), z), AlbedoCurve(OceanCurve(c, true), z);
    var aIcld := IceCurve(h.values, temp.values, aOcld, AlbedoCurve(BrightCurve(c, false), z),
                          AlbedoCurve(DarkCurve(c, false), z), env.atan);
    var aIclr := IceCurve(h.values, temp.values, aOclr, AlbedoCurve(BrightCurve(c, true), z),
                          AlbedoCurve(DarkCurve(c, true), z), env.atan);
    Sample(
      seq(n, j requires 0 <= j < n =>
        if ice.mask[j] then cz[j]
        else cz[j] * Absorbed(ice.values[j], cl[j], aIcld[j], aIclr[j], aOcld[j], aOclr[j])),
      h.mask)
  }

  /** `_get_E` at one query time `t`: the flux from the four fields read at
      `t` and the zenith angles of the grid at `t`. */
  function Flux(ds: DataSet, c: Curves, env: Physics, t: int): (e: Sample)
    reads ds.sic, ds.sit, ds.tas, ds.clt
    requires ds.Valid() && CurvesValid(c) && env.atan(2.0) > 0.0
    ensures Shaped(e, ds.cells)
  {
    Radiation(ds.Zeniths(t, env), ds.sic.DataAt(t), ds.clt.DataAt(t), ds.sit.DataAt(t), ds.tas.DataAt(t), c, env)
  }

  /** The flux carries the ice-thickness mask (line 58), and at a cell with
      a masked sea-ice concentration it is the clamped cosine. */
  lemma RadiationMask(z: seq<real>, ice: Sample, cloud: Sample, h: Sample, temp: Sample, c: Curves,
                      env: Physics, j: nat)
    requires CurvesValid(c) && env.atan(2.0) > 0.0 && j < |z|
    requires Shaped(ice, |z|) && Shaped(cloud, |z|) && Shaped(h, |z|) && Shaped(temp, |z|)
    ensures Radiation(z, ice, cloud, h, temp, c, env).mask == h.mask
    ensures ice.mask[j] ==> Radiation(z, ice, cloud, h, temp, c, env).values[j] == ClampedCos(z, env.cosDeg)[j]
  {
  }

  /** The flux of one cell whose sea-ice concentration is not masked, from
      its clamped cosine, its ice and cloud fractions, its ice thickness and
      air temperature and its zenith angle `x` (lines 34-56). */
  function CellFlux(cz: real, ice: real, cloud: real, h: real, temp: real, x: real, c: Curves,
                    atan: real -> real): real
    requires CurvesValid(c) && atan(2.0) > 0.0
  {
    var oCld, oClr := AlbedoAt(OceanCurve(c, false), x), AlbedoAt(OceanCurve(c, true), x);
    var iCld := IceCell(h, temp, oCld, AlbedoAt(BrightCurve(c, false), x), AlbedoAt(DarkCurve(c, false), x), atan);
    var iClr := IceCell(h, temp, oClr, AlbedoAt(BrightCurve(c, true), x), AlbedoAt(DarkCurve(c, true), x), atan);
    cz * Absorbed(ice, cloud, iCld, iClr, oCld, oClr)
  }

  /** Where the sea-ice concentration is not masked, the flux of a cell is
      its cell flux: the array operations of lines 34-56 act cell by cell. */
  lemma RadiationIsCellFlux(z: seq<real>, ice: Sample, cloud: Sample, h: Sample, temp: Sample, c: Curves,
                            env: Physics, j: nat)
    requires CurvesValid(c) && env.atan(2.0) > 0.0 && j < |z|
    requires Shaped(ice, |z|) && Shaped(cloud, |z|) && Shaped(h, |z|) && Shaped(temp, |z|)
    requires !ice.mask[j]
    ensures Radiation(z, ice, cloud, h, temp, c, env).values[j]
            == CellFlux(ClampedCos(z, env.cosDeg)[j], ice.values[j], ClearedCloud(cloud)[j],
                        h.values[j], temp.values[j], z[j], c, env.atan)
  {
    CellFluxUnfold(ClampedCos(z, env.cosDeg)[j], ice.values[j], ClearedCloud(cloud)[j],
                   h.values[j], temp.values[j], z[j], c, env.atan);
  }

  lemma CellFluxUnfold(cz: real, ice: real, cloud: real, h: real, temp: real, x: real, c: Curves,
                       atan: real -> real)
    requires CurvesValid(c) && atan(2.0) > 0.0
    ensures var oCld, oClr := AlbedoAt(OceanCurve(c, false), x), AlbedoAt(OceanCurve(c, true), x);
            CellFlux(cz, ice, cloud, h, temp, x, c, atan)
            == cz * Absorbed(ice, cloud,
                             IceCell(h, temp, oCld, AlbedoAt(BrightCurve(c, false), x), AlbedoAt(DarkCurve(c, false), x), atan),
                             IceCell(h, temp, oClr, AlbedoAt(BrightCurve(c, true), x), AlbedoAt(DarkCurve(c, true), x), atan),
                             oCld, oClr)
  {
  }

  /** With fractions between 0 and 1, albedo tables between 0 and 1 and a
      non-negative `arctan(4 h)`, a cell's flux lies between 0 and its
      clamped cosine. */
  lemma CellFluxBounds(cz: real, ice: real, cloud: real, h: real, temp: real, x: real, c: Curves,
                       atan: real -> real)
    requires CurvesValid(c) && CurvesInUnit(c) && atan(2.0) > 0.0 && atan(4.0 * h) >= 0.0
    requires 0.0 <= cz && 0.0 <= ice <= 1.0 && 0.0 <= cloud <= 1.0
    ensures 0.0 <= CellFlux(cz, ice, cloud, h, temp, x, c, atan) <= cz
  {
    var oCld, oClr := AlbedoAt(OceanCurve(c, false), x), AlbedoAt(OceanCurve(c, true), x);
    var iCld := IceCell(h, temp, oCld, AlbedoAt(BrightCurve(c, false), x), AlbedoAt(DarkCurve(c, false), x), atan);
    var iClr := IceCell(h, temp, oClr, AlbedoAt(BrightCurve(c, true), x), AlbedoAt(DarkCurve(c, true), x), atan);
    CellAlbedosInUnit(h, temp, x, c, atan);
    CellFluxUnfold(cz, ice, cloud, h, temp, x, c, atan);
    AbsorbedShare(cz, ice, cloud, iCld, iClr, oCld, oClr);
  }

  /** The six albedos of a cell, and the two ice albedos made from them, lie
      between 0 and 1 when the tables do. */
  lemma CellAlbedosInUnit(h: real, temp: real, x: real, c: Curves, atan: real -> real)
    requires CurvesValid(c) && CurvesInUnit(c) && atan(2.0) > 0.0 && atan(4.0 * h) >= 0.0
    ensures var oCld, oClr := AlbedoAt(OceanCurve(c, false), x), AlbedoAt(OceanCurve(c, true), x);
            && 0.0 <= oCld <= 1.0 && 0.0 <= oClr <= 1.0
            && 0.0 <= IceCell(h, temp, oCld, AlbedoAt(BrightCurve(c, false), x), AlbedoAt(DarkCurve(c, false), x), atan) <= 1.0
            && 0.0 <= IceCell(h, temp, oClr, AlbedoAt(BrightCurve(c, true), x), AlbedoAt(DarkCurve(c, true), x), atan) <= 1.0
  {
    var oCld, oClr := AlbedoAt(OceanCurve(c, false), x), AlbedoAt(OceanCurve(c, true), x);
    var bCld, bClr := AlbedoAt(BrightCurve(c, false), x), AlbedoAt(BrightCurve(c, true), x);
    var dCld, dClr := AlbedoAt(DarkCurve(c, false), x), AlbedoAt(DarkCurve(c, true), x);
    AlbedoInUnit(OceanCurve(c, false), x);
    AlbedoInUnit(OceanCurve(c, true), x);
    AlbedoInUnit(BrightCurve(c, false), x);
    AlbedoInUnit(BrightCurve(c, true), x);
    AlbedoInUnit(DarkCurve(c, false), x);
    AlbedoInUnit(DarkCurve(c, true), x);
    IceCellInUnit(h, temp, oCld, bCld, dCld, atan);
    IceCellInUnit(h, temp, oClr, bClr, dClr, atan);
  }

  /** With fractions and albedos between 0 and 1, the absorbed share of the
      clamped cosine lies between 0 and it. */
  lemma AbsorbedShare(cz: real, ice: real, cloud: real, aIcld: real, aIclr: real, aOcld: real, aOclr: real)
    requires 0.0 <= cz && 0.0 <= ice <= 1.0 && 0.0 <= cloud <= 1.0
    requires 0.0 <= aIcld <= 1.0 && 0.0 <= aIclr <= 1.0 && 0.0 <= aOcld <= 1.0 && 0.0 <= aOclr <= 1.0
    ensures 0.0 <= cz * Absorbed(ice, cloud, aIcld, aIclr, aOcld, aOclr) <= cz
  {
    AbsorbedInUnit(ice, cloud, aIcld, aIclr, aOcld, aOclr);
    ShareOfCosine(cz, Absorbed(ice, cloud, aIcld, aIclr, aOcld, aOclr));
  }

  /** With sea-ice and cloud fractions between 0 and 1, albedo tables
      between 0 and 1 and a non-negative `arctan(4 h)`, the flux of a cell
      lies between 0 and the clamped cosine of its zenith angle. */
  lemma RadiationBounds(z: seq<real>, ice: Sample, cloud: Sample, h: Sample, temp: Sample, c: Curves,
                        env: Physics, j: nat)
    requires CurvesValid(c) && CurvesInUnit(c) && env.atan(2.0) > 0.0 && j < |z|
    requires Shaped(ice, |z|) && Shaped(cloud, |z|) && Shaped(h, |z|) && Shaped(temp, |z|)
    requires 0.0 <= ice.values[j] <= 1.0 && 0.0 <= cloud.values[j] <= 1.0
    requires env.atan(4.0 * h.values[j]) >= 0.0
    ensures 0.0 <= Radiation(z, ice, cloud, h, temp, c, env).values[j] <= ClampedCos(z, env.cosDeg)[j]
  {
    if !ice.mask[j] {
      RadiationIsCellFlux(z, ice, cloud, h, temp, c, env, j);
      CellFluxBounds(ClampedCos(z, env.cosDeg)[j], ice.values[j], ClearedCloud(cloud)[j],
                     h.values[j], temp.values[j], z[j], c, env.atan);
    }
  }

  /** The flux at every query time of a batch. */
  function FluxSeries(ds: DataSet, c: Curves, env: Physics, ts: seq<int>): (es: seq<Sample>)
    reads ds.sic, ds.sit, ds.tas, ds.clt
    requires ds.Valid() && CurvesValid(c) && env.atan(2.0) > 0.0
    ensures |es| == |ts| && AllShaped(es, ds.cells)
  {
    seq(|ts|, k reads ds.sic, ds.sit, ds.tas, ds.clt
                requires 0 <= k < |ts| && ds.Valid() && CurvesValid(c) && env.atan(2.0) > 0.0 =>
                Flux(ds, c, env, ts[k]))
  }

  // ---------------------------------------------------------------------
  // The date checks of `_get_E`

  /** The model fields, anchored at the common start date, report that
      date plus the query time. */
  lemma ModelDates(ds: DataSet, t: int)
    requires ds.Valid()
    ensures ds.sic.DateAt(t) == ds.startDate + t
    ensures ds.sit.DateAt(t) == ds.startDate + t
    ensures ds.tas.DateAt(t) == ds.startDate + t
  {
  }

  /** Lines 21-32 as written: sit, tas and clt must each report sic's dates
      (lines 22-26), and clt's day, month, hour, minute and second must be
      sic's (lines 27-32). */
  predicate DatesAgreeAsWritten(ds: DataSet, cal: Calendar, ts: seq<int>)
    reads ds.sic, ds.sit, ds.tas, ds.clt
    requires ds.Valid()
  {
    forall k :: 0 <= k < |ts| ==>
      var d := ds.sic.DateAt(ts[k]);
      && ds.sit.DateAt(ts[k]) == d && ds.tas.DateAt(ts[k]) == d && ds.clt.DateAt(ts[k]) == d
      && cal.stamp(ds.clt.DateAt(ts[k])) == cal.stamp(d)
  }

  /** The check the lines evidently intend, which the rest of the model
      uses: sit and tas report sic's dates, and the cloud cover, which
      answers with a date of its 4-year cycle, agrees with sic on the
      calendar fields only. */
  predicate DatesAgree(ds: DataSet, cal: Calendar, ts: seq<int>)
    reads ds.sic, ds.sit, ds.tas, ds.clt
    requires ds.Valid()
  {
    forall k :: 0 <= k < |ts| ==>
      var d := ds.sic.DateAt(ts[k]);
      && ds.sit.DateAt(ts[k]) == d && ds.tas.DateAt(ts[k]) == d
      && cal.stamp(ds.clt.DateAt(ts[k])) == cal.stamp(d)
  }

  /** As written, the check rejects every batch holding a query time whose
      date lies past the cloud cover's cycle: the cloud cover never reports
      a date that late. */
  lemma AsWrittenRejectsLaterDates(ds: DataSet, cal: Calendar, ts: seq<int>, k: nat)
    requires ds.Valid() && k < |ts|
    requires ds.startDate + ts[k] > ds.clt.startDate + ds.clt.times[|ds.clt.times| - 1]
    requires ds.startDate + ts[k] >= ds.clt.startDate + Period
    ensures !DatesAgreeAsWritten(ds, cal, ts)
  {
    CyclicDateInCycle(ds.clt, ts[k]);
    ModelDates(ds, ts[k]);
    assert ds.clt.DateAt(ts[k]) < ds.sic.DateAt(ts[k]);
  }

  /** Calendar fields repeat every 4-year period. */
  ghost predicate StampPeriodic(cal: Calendar) {
    forall d, e :: (d - e) % Period == 0 ==> cal.stamp(d) == cal.stamp(e)
  }

  lemma DivisibleSum(a: int, b: int, m: int)
    requires m > 0 && a % m == 0 && b % m == 0
    ensures (a + b) % m == 0 && (a - b) % m == 0
  {
    var qa, qb := a / m, b / m;
    assert a == m * qa;
    assert b == m * qb;
    assert a + b == m * (qa + qb);
    assert a - b == m * (qa - qb);
    DivModUnique(a + b, m, qa + qb, 0);
    DivModUnique(a - b, m, qa - qb, 0);
  }

  /** The corrected check passes at every query time when the calendar
      repeats every period and the cloud cycle starts a whole number of
      periods from its anchor year. */
  lemma CorrectedDatesAgree(ds: DataSet, cal: Calendar, ts: seq<int>)
    requires ds.Valid() && StampPeriodic(cal)
    requires (ds.clt.startDate - ds.clt.refLeapYear.value) % Period == 0
    ensures DatesAgree(ds, cal, ts)
  {
    forall k | 0 <= k < |ts|
      ensures cal.stamp(ds.clt.DateAt(ts[k])) == cal.stamp(ds.sic.DateAt(ts[k]))
    {
      var t := ts[k];
      CyclicDateInCycle(ds.clt, t);
      ModelDates(ds, t);
      var r := ds.clt.DateAt(t) - ds.clt.startDate;
      var a := ds.startDate + t - ds.clt.refLeapYear.value - r;
      var b := ds.clt.refLeapYear.value - ds.clt.startDate;
      assert b % Period == 0 by {
        DivisibleSum(0, ds.clt.startDate - ds.clt.refLeapYear.value, Period);
      }
      DivisibleSum(a, b, Period);
      assert ds.sic.DateAt(t) - ds.clt.DateAt(t) == a + b;
    }
    forall k | 0 <= k < |ts|
      ensures ds.sit.DateAt(ts[k]) == ds.sic.DateAt(ts[k]) && ds.tas.DateAt(ts[k]) == ds.sic.DateAt(ts[k])
    {
      ModelDates(ds, ts[k]);
    }
  }

  /** The sea-ice concentration is masked at every cell of every query time,
      so the flux is masked everywhere before line 58 replaces its mask. */
  predicate SicMaskedThroughout(ds: DataSet, ts: seq<int>)
    reads ds.sic, ds.sit, ds.tas, ds.clt
    requires ds.Valid()
  {
    forall k, j :: 0 <= k < |ts| && 0 <= j < ds.cells ==> ds.sic.DataAt(ts[k]).mask[j]
  }

  /** `_get_E` on a batch of query times: the flux at every time, unless the
      dates disagree (lines 21-32, the corrected check) or the flux is
      masked everywhere (line 57). */
  function ChunkFlux(ds: DataSet, c: Curves, env: Physics, cal: Calendar, ts: seq<int>): (r: Result<seq<Sample>>)
    reads ds.sic, ds.sit, ds.tas, ds.clt
    requires ds.Valid() && CurvesValid(c) && env.atan(2.0) > 0.0
    ensures r.Ok? ==> |r.value| == |ts| && AllShaped(r.value, ds.cells)
  {
    if !DatesAgree(ds, cal, ts) then Err(DateMismatch)
    else if SicMaskedThroughout(ds, ts) then Err(FluxAllMasked)
    else Ok(FluxSeries(ds, c, env, ts))
  }

  // ---------------------------------------------------------------------
  // Sample times of a chunk

  /** `q` and `r` are the quotient and the remainder of `a` by `b`. */
  lemma DivModUnique(a: int, b: int, q: int, r: int)
    requires b > 0 && a == b * q + r && 0 <= r < b
    ensures a / b == q && a % b == r
  {
    var q0, r0 := a / b, a % b;
    assert a == b * q0 + r0;
    if q0 < q {
      assert b * (q - q0) == r0 - r;
      MulAtLeast(b, q - q0);
    } else if q0 > q {
      assert b * (q0 - q) == r - r0;
      MulAtLeast(b, q0 - q);
    }
  }

  lemma MulAtLeast(b: int, d: int)
    requires b > 0 && d >= 1
    ensures b * d >= b
  {
    assert b * d == b + b * (d - 1);
  }

  function ArangeLength(start: int, stop: int, step: int): nat
    requires step > 0
  {
    if stop <= start then 0 else (stop - start + step - 1) / step
  }

  /** `np.arange(start, stop, step)` for a positive whole step. */
  function Arange(start: int, stop: int, step: int): (ts: seq<int>)
    requires step > 0
    ensures |ts| == ArangeLength(start, stop, step)
  {
    seq(ArangeLength(start, stop, step), k requires 0 <= k => start + k * step)
  }

  /** The count of samples of a non-empty range: `n` steps reach the end of
      the range, `n - 1` steps stay inside it. */
  lemma ArangeSpan(start: int, stop: int, step: int)
    requires step > 0 && start < stop
    ensures var n := ArangeLength(start, stop, step);
            n >= 1 && step * (n - 1) < stop - start <= step * n
  {
    var len := stop - start;
    var n := (len + step - 1) / step;
    var rem := (len + step - 1) % step;
    assert len + step - 1 == step * n + rem;
    assert step * (n - 1) == step * n - step;
  }

  /** Multiplying by a positive step keeps the order. */
  lemma MulLe(step: int, a: int, b: int)
    requires step > 0
    ensures a <= b ==> a * step <= b * step
  {
    if a < b {
      MulAtLeast(step, b - a);
      assert step * (b - a) == b * step - a * step;
    }
  }

  /** `np.arange` yields its points in increasing order. */
  lemma ArangeIncreasing(start: int, stop: int, step: int)
    requires step > 0
    ensures forall i, j :: 0 <= i < j < |Arange(start, stop, step)| ==>
              Arange(start, stop, step)[i] < Arange(start, stop, step)[j]
  {
    var ts := Arange(start, stop, step);
    forall i, j | 0 <= i < j < |ts|
      ensures ts[i] < ts[j]
    {
      MulLe(step, i + 1, j);
      assert (i + 1) * step == i * step + step;
    }
  }

  /** `np.arange` yields exactly the points of the range that lie a whole
      number of steps after its start. */
  lemma ArangeMembers(start: int, stop: int, step: int, x: int)
    requires step > 0
    ensures x in Arange(start, stop, step) <==> start <= x < stop && (x - start) % step == 0
  {
    if x in Arange(start, stop, step) {
      ArangeMemberOnGrid(start, stop, step, x);
    }
    if start <= x < stop && (x - start) % step == 0 {
      ArangeGridIsMember(start, stop, step, x);
    }
  }

  lemma ArangeMemberOnGrid(start: int, stop: int, step: int, x: int)
    requires step > 0 && x in Arange(start, stop, step)
    ensures start <= x < stop && (x - start) % step == 0
  {
    var ts := Arange(start, stop, step);
    var k :| 0 <= k < |ts| && ts[k] == x;
    ArangeSpan(start, stop, step);
    var n := |ts|;
    MulLe(step, 0, k);
    MulLe(step, k, n - 1);
    assert step * (n - 1) == (n - 1) * step;
    DivModUnique(x - start, step, k, 0);
  }

  lemma ArangeGridIsMember(start: int, stop: int, step: int, x: int)
    requires step > 0 && start <= x < stop && (x - start) % step == 0
    ensures x in Arange(start, stop, step)
  {
    var ts := Arange(start, stop, step);
    ArangeSpan(start, stop, step);
    var n := |ts|;
    var k := (x - start) / step;
    assert x - start == step * k;
    MulLe(step, k, -1);
    MulLe(step, n, k);
    assert step * n == n * step;
    assert ts[k] == x;
  }

  /** The samples of a chunk `[time, time + chunk]` (line 84) run from
      `time` to the first whole step at or after the chunk's end, which is
      the end itself exactly when `dt` divides the chunk; otherwise the
      chunk's samples reach past its end. */
  lemma ChunkLastSample(time: int, chunk: int, dt: int)
    requires dt > 0 && chunk >= 0
    ensures var ts := Arange(time, time + chunk + dt, dt);
            && |ts| >= 1 && ts[0] == time
            && time + chunk <= ts[|ts| - 1] < time + chunk + dt
            && (ts[|ts| - 1] == time + chunk <==> chunk % dt == 0)
  {
    var ts := Arange(time, time + chunk + dt, dt);
    ArangeSpan(time, time + chunk + dt, dt);
    var n := |ts|;
    assert ts[n - 1] == time + dt * (n - 1);
    var q := n - 1;
    DivModUnique(dt * q, dt, q, 0);
    if chunk % dt == 0 {
      var c := chunk / dt;
      assert chunk == dt * c;
      DivModUnique(dt * q, dt, c, dt * q - chunk);
    }
    if ts[n - 1] == time + chunk {
      DivModUnique(chunk, dt, q, 0);
    }
  }

  /** A range of whole steps holds one sample per step plus its start. */
  lemma ArangeOnGrid(start: int, span: int, dt: int)
    requires dt > 0 && span >= 0 && span % dt == 0
    ensures |Arange(start, start + span + dt, dt)| == span / dt + 1
  {
    var q := span / dt;
    assert span == dt * q;
    DivModUnique(span + dt + dt - 1, dt, q + 1, dt - 1);
  }

  /** Splitting a range of whole steps at a whole step: the first part's
      samples are the range's first samples, and the second part starts at
      the first part's last sample. */
  lemma ArangeSplit(time: int, chunk: int, rest: int, dt: int)
    requires dt > 0 && chunk >= 0 && rest >= 0 && chunk % dt == 0 && rest % dt == 0
    ensures var w := Arange(time, time + chunk + rest + dt, dt);
            var k := chunk / dt;
            && k < |w|
            && w[..k + 1] == Arange(time, time + chunk + dt, dt)
            && w[k..] == Arange(time + chunk, time + chunk + rest + dt, dt)
  {
    SplitLengths(time, chunk, rest, dt);
    ArangePrefix(time, time + chunk + rest + dt, time + chunk + dt, dt);
    ArangeSuffix(time, chunk, rest, dt);
  }

  /** The sample counts of a range of whole steps and of its two parts. */
  lemma SplitLengths(time: int, chunk: int, rest: int, dt: int)
    requires dt > 0 && chunk >= 0 && rest >= 0 && chunk % dt == 0 && rest % dt == 0
    ensures |Arange(time, time + chunk + rest + dt, dt)| == chunk / dt + rest / dt + 1
    ensures |Arange(time, time + chunk + dt, dt)| == chunk / dt + 1
    ensures |Arange(time + chunk, time + chunk + rest + dt, dt)| == rest / dt + 1
    ensures rest / dt >= 0
  {
    var q1, q2 := chunk / dt, rest / dt;
    assert rest == dt * q2;
    MulLe(dt, q2, -1);
    assert chunk + rest == dt * (q1 + q2) by {
      assert chunk == dt * q1 && rest == dt * q2;
    }
    DivModUnique(chunk + rest, dt, q1 + q2, 0);
    ArangeOnGrid(time, chunk + rest, dt);
    ArangeOnGrid(time, chunk, dt);
    ArangeOnGrid(time + chunk, rest, dt);
  }

  /** A range from the same start with a nearer end yields a prefix of the
      samples. */
  lemma ArangePrefix(start: int, stop: int, stop': int, step: int)
    requires step > 0 && |Arange(start, stop', step)| <= |Arange(start, stop, step)|
    ensures Arange(start, stop, step)[..|Arange(start, stop', step)|] == Arange(start, stop', step)
  {
  }

  /** The samples of a range of whole steps from a whole step on are the
      samples of the range starting there. */
  lemma ArangeSuffix(time: int, chunk: int, rest: int, dt: int)
    requires dt > 0 && chunk >= 0 && chunk % dt == 0
    requires |Arange(time, time + chunk + rest + dt, dt)|
             == chunk / dt + |Arange(time + chunk, time + chunk + rest + dt, dt)|
    ensures Arange(time, time + chunk + rest + dt, dt)[chunk / dt..]
            == Arange(time + chunk, time + chunk + rest + dt, dt)
  {
    var q1 := chunk / dt;
    var w := Arange(time, time + chunk + rest + dt, dt);
    var b := Arange(time + chunk, time + chunk + rest + dt, dt);
    assert chunk == dt * q1;
    forall i | 0 <= i < |b|
      ensures w[q1 + i] == b[i]
    {
      assert (q1 + i) * dt == q1 * dt + i * dt;
    }
  }

  // ---------------------------------------------------------------------
  // Trapezoids and masked sums

  /** One trapezoid of `np.trapz` at cell `j`, `dt * (y1 + y0) / 2`, or
      nothing when either sample is masked there: the masked sum skips it. */
  function PairArea(y0: Sample, y1: Sample, dt: int, j: nat): real
    requires j < |y0.values| && j < |y0.mask| && j < |y1.values| && j < |y1.mask|
  {
    if y0.mask[j] || y1.mask[j] then 0.0 else (dt as real) * (y1.values[j] + y0.values[j]) / 2.0
  }

  /** The trapezoidal sum over consecutive samples at cell `j`. */
  function TrapzCell(es: seq<Sample>, dt: int, cells: nat, j: nat): real
    requires AllShaped(es, cells) && j < cells
    decreases |es|
  {
    if |es| < 2 then 0.0
    else TrapzCell(es[..|es| - 1], dt, cells, j) + PairArea(es[|es| - 2], es[|es| - 1], dt, j)
  }

  predicate PairUnmasked(es: seq<Sample>, cells: nat, i: nat, j: nat)
    requires AllShaped(es, cells) && i + 1 < |es| && j < cells
  {
    !es[i].mask[j] && !es[i + 1].mask[j]
  }

  /** Some pair of consecutive samples is unmasked at cell `j`. */
  predicate HasPair(es: seq<Sample>, cells: nat, j: nat)
    requires AllShaped(es, cells) && j < cells
  {
    exists i: nat :: i + 1 < |es| && PairUnmasked(es, cells, i, j)
  }

  /** `np.trapz(E, dx=dt, axis=0)` on a masked array: the trapezoidal sum at
      every cell, masked where every pair is masked. */
  function Trapz(es: seq<Sample>, dt: int, cells: nat): (r: Sample)
    requires AllShaped(es, cells)
    ensures Shaped(r, cells)
  {
    Sample(seq(cells, j requires 0 <= j < cells => TrapzCell(es, dt, cells, j)),
           seq(cells, j requires 0 <= j < cells => !HasPair(es, cells, j)))
  }

  /** The trapezoidal sum splits at any sample: the two parts share it, and
      the whole has an unmasked pair exactly when one of the parts does. */
  lemma TrapzSplit(es: seq<Sample>, dt: int, cells: nat, j: nat, k: nat)
    requires AllShaped(es, cells) && j < cells && k < |es|
    ensures TrapzCell(es, dt, cells, j) == TrapzCell(es[..k + 1], dt, cells, j) + TrapzCell(es[k..], dt, cells, j)
    ensures HasPair(es, cells, j) <==> HasPair(es[..k + 1], cells, j) || HasPair(es[k..], cells, j)
  {
    TrapzCellSplit(es, dt, cells, j, k);
    HasPairSplit(es, cells, j, k);
  }

  lemma {:induction false} TrapzCellSplit(es: seq<Sample>, dt: int, cells: nat, j: nat, k: nat)
    requires AllShaped(es, cells) && j < cells && k < |es|
    ensures TrapzCell(es, dt, cells, j) == TrapzCell(es[..k + 1], dt, cells, j) + TrapzCell(es[k..], dt, cells, j)
    decreases |es|
  {
    if |es| == k + 1 {
      assert es[..k + 1] == es;
      assert |es[k..]| == 1;
    } else {
      var init := es[..|es| - 1];
      TrapzCellSplit(init, dt, cells, j, k);
      assert init[..k + 1] == es[..k + 1];
      var tail := es[k..];
      assert tail[..|tail| - 1] == init[k..];
      assert tail[|tail| - 2] == es[|es| - 2] && tail[|tail| - 1] == es[|es| - 1];
    }
  }

  lemma HasPairSplit(es: seq<Sample>, cells: nat, j: nat, k: nat)
    requires AllShaped(es, cells) && j < cells && k < |es|
    ensures HasPair(es, cells, j) <==> HasPair(es[..k + 1], cells, j) || HasPair(es[k..], cells, j)
  {
    if HasPair(es, cells, j) {
      var i: nat :| i + 1 < |es| && PairUnmasked(es, cells, i, j);
      if i < k {
        assert PairUnmasked(es[..k + 1], cells, i, j);
      } else {
        assert PairUnmasked(es[k..], cells, i - k, j);
      }
    }
    if HasPair(es[..k + 1], cells, j) {
      var i: nat :| i + 1 < k + 1 && PairUnmasked(es[..k + 1], cells, i, j);
      assert PairUnmasked(es, cells, i, j);
    }
    if HasPair(es[k..], cells, j) {
      var i: nat :| i + 1 < |es| - k && PairUnmasked(es[k..], cells, i, j);
      assert PairUnmasked(es, cells, i + k, j);
    }
  }

  /** `a + b` on masked arrays: masked where either is; a masked cell keeps
      `a`'s value. */
  function MaskedAdd(a: Sample, b: Sample): (r: Sample)
    requires |a.values| == |a.mask| == |b.values| == |b.mask|
    ensures Shaped(r, |a.values|)
  {
    var n := |a.values|;
    Sample(seq(n, j requires 0 <= j < n => if a.mask[j] || b.mask[j] then a.values[j] else a.values[j] + b.values[j]),
           seq(n, j requires 0 <= j < n => a.mask[j] || b.mask[j]))
  }

  /** Every chunk series has a sample per query time of the chunk's shape. */
  predicate SeriesShaped(series: seq<seq<Sample>>, cells: nat) {
    forall i :: 0 <= i < |series| ==> AllShaped(series[i], cells)
  }

  lemma SeriesShapedTail(series: seq<seq<Sample>>, cells: nat)
    requires series != [] && SeriesShaped(series, cells)
    ensures SeriesShaped(series[1..], cells)
  {
    forall i | 0 <= i < |series| - 1
      ensures AllShaped(series[1..][i], cells)
    {
      assert series[1..][i] == series[i + 1];
    }
  }

  /** Lines 92-93 over a list of chunk series: each chunk's `np.trapz`
      added to the running integral in turn. */
  function Accumulate(acc: Sample, series: seq<seq<Sample>>, dt: int, cells: nat): (r: Sample)
    requires Shaped(acc, cells) && SeriesShaped(series, cells)
    ensures Shaped(r, cells)
    decreases |series|
  {
    if series == [] then acc
    else
      SeriesShapedTail(series, cells);
      Accumulate(MaskedAdd(acc, Trapz(series[0], dt, cells)), series[1..], dt, cells)
  }

  /** Consecutive chunk series that share their boundary samples and
      together make up the series `w`. */
  predicate Chained(series: seq<seq<Sample>>, w: seq<Sample>)
    decreases |series|
  {
    if series == [] then |w| == 1
    else 1 <= |series[0]| <= |w| && series[0] == w[..|series[0]|] && Chained(series[1..], w[|series[0]| - 1..])
  }

  /** A window whose first `k + 1` samples are `head` and whose samples
      from `k` on are chained by `tail` is chained by `[head] + tail`. */
  lemma ChainCons(head: seq<Sample>, tail: seq<seq<Sample>>, w: seq<Sample>, k: nat)
    requires k < |w| && head == w[..k + 1] && Chained(tail, w[k..])
    ensures Chained([head] + tail, w)
  {
    assert ([head] + tail)[0] == head && ([head] + tail)[1..] == tail;
  }

  /** A cell once masked in the running integral stays masked. */
  lemma {:induction false} AccumulateKeepsMask(acc: Sample, series: seq<seq<Sample>>, dt: int, cells: nat, j: nat)
    requires Shaped(acc, cells) && SeriesShaped(series, cells) && j < cells
    ensures acc.mask[j] ==> Accumulate(acc, series, dt, cells).mask[j]
    decreases |series|
  {
    if series != [] {
      SeriesShapedTail(series, cells);
      AccumulateKeepsMask(MaskedAdd(acc, Trapz(series[0], dt, cells)), series[1..], dt, cells, j);
    }
  }

  /** Adding chained chunk sums is one trapezoidal sum over the series they
      make up, at every cell the result does not mask. */
  lemma {:induction false} AccumulateIsWindow(acc: Sample, series: seq<seq<Sample>>, w: seq<Sample>, dt: int,
                                              cells: nat, j: nat)
    requires Shaped(acc, cells) && SeriesShaped(series, cells) && AllShaped(w, cells) && j < cells
    requires Chained(series, w)
    requires !Accumulate(acc, series, dt, cells).mask[j]
    ensures Accumulate(acc, series, dt, cells).values[j] == acc.values[j] + TrapzCell(w, dt, cells, j)
    decreases |series|
  {
    if series != [] {
      var acc1 := MaskedAdd(acc, Trapz(series[0], dt, cells));
      var k := |series[0]| - 1;
      SeriesShapedTail(series, cells);
      assert AllShaped(w[k..], cells) by {
        forall i | 0 <= i < |w| - k
          ensures Shaped(w[k..][i], cells)
        {
          assert w[k..][i] == w[k + i];
        }
      }
      AccumulateKeepsMask(acc1, series[1..], dt, cells, j);
      AccumulateIsWindow(acc1, series[1..], w[k..], dt, cells, j);
      TrapzSplit(w, dt, cells, j, k);
      assert w[..k + 1] == series[0];
    }
  }

  /** Lines 100-103: `E_integral * S * areas`, summed over the unmasked
      cells. */
  function Total(acc: Sample, areas: seq<real>): real
    requires Shaped(acc, |areas|)
  {
    var n := |areas|;
    Sum(Compress(seq(n, j requires 0 <= j < n => acc.values[j] * SolarConstant * areas[j]),
                 seq(n, j requires 0 <= j < n => !acc.mask[j])))
  }

  /** The total reads nothing under the mask. */
  lemma TotalIgnoresMasked(a: Sample, b: Sample, areas: seq<real>)
    requires Shaped(a, |areas|) && Shaped(b, |areas|) && a.mask == b.mask
    requires forall j :: 0 <= j < |areas| && !a.mask[j] ==> a.values[j] == b.values[j]
    ensures Total(a, areas) == Total(b, areas)
  {
    var n := |areas|;
    var pa := seq(n, j requires 0 <= j < n => a.values[j] * SolarConstant * areas[j]);
    var pb := seq(n, j requires 0 <= j < n => b.values[j] * SolarConstant * areas[j]);
    var keep := seq(n, j requires 0 <= j < n => !a.mask[j]);
    var idx := Where(keep);
    assert Compress(pa, keep) == Compress(pb, keep) by {
      forall i | 0 <= i < |idx|
        ensures pa[idx[i]] == pb[idx[i]]
      {
        assert keep[idx[i]];
      }
    }
  }

  // ---------------------------------------------------------------------
  // The chunk schedule and the year's integral

  /** `default_chunk_size`: one day, in seconds. */
  const DayChunk: int := 86400

  /** Lines 79-83: the rest of the window, at most one day. */
  function ChunkSize(remaining: int): int {
    if remaining < DayChunk then remaining else DayChunk
  }

  /** The chunk sizes the loop of lines 78-98 takes over a window of
      `remaining` seconds. */
  function Schedule(remaining: int): seq<nat>
    decreases remaining
  {
    if remaining <= 0 then [] else [ChunkSize(remaining)] + Schedule(remaining - ChunkSize(remaining))
  }

  /** The chunks cover the window exactly: they sum to its length, each
      lies in (0, 86400], and all but the last are whole days. */
  lemma {:induction false} ScheduleCovers(remaining: int)
    requires remaining >= 0
    ensures var s := Schedule(remaining);
            && SumNat(s) == remaining
            && (forall i :: 0 <= i < |s| ==> 0 < s[i] <= DayChunk)
            && (forall i :: 0 <= i < |s| - 1 ==> s[i] == DayChunk)
    decreases remaining
  {
    if remaining > 0 {
      ScheduleCovers(remaining - ChunkSize(remaining));
      var s := Schedule(remaining);
      assert s[1..] == Schedule(remaining - ChunkSize(remaining));
      if remaining < DayChunk {
        assert Schedule(remaining - ChunkSize(remaining)) == [];
      }
    }
  }

  /** Every chunk is a whole number of steps. */
  predicate AllOnGrid(chunks: seq<nat>, dt: int)
    requires dt > 0
  {
    forall i :: 0 <= i < |chunks| ==> chunks[i] % dt == 0
  }

  lemma OnGridTail(chunks: seq<nat>, dt: int)
    requires dt > 0 && chunks != [] && AllOnGrid(chunks, dt)
    ensures chunks[0] % dt == 0 && AllOnGrid(chunks[1..], dt)
  {
    forall i | 0 <= i < |chunks| - 1
      ensures chunks[1..][i] % dt == 0
    {
      assert chunks[1..][i] == chunks[i + 1];
    }
  }

  /** When `dt` divides a day and the window, it divides every chunk. */
  lemma {:induction false} ScheduleOnGrid(remaining: int, dt: int)
    requires dt > 0 && DayChunk % dt == 0 && remaining % dt == 0
    ensures AllOnGrid(Schedule(remaining), dt)
    decreases remaining
  {
    if remaining > 0 {
      var ch := ChunkSize(remaining);
      DivisibleSum(remaining, ch, dt);
      ScheduleOnGrid(remaining - ch, dt);
      assert Schedule(remaining)[1..] == Schedule(remaining - ch);
    }
  }

  lemma {:induction false} SumOnGrid(chunks: seq<nat>, dt: int)
    requires dt > 0 && AllOnGrid(chunks, dt)
    ensures SumNat(chunks) % dt == 0
  {
    if chunks != [] {
      OnGridTail(chunks, dt);
      SumOnGrid(chunks[1..], dt);
      DivisibleSum(chunks[0], SumNat(chunks[1..]), dt);
    }
  }

  /** The integral the loop accumulates from `acc` over the given chunks,
      starting at query time `time`. */
  function Integrate(ds: DataSet, c: Curves, env: Physics, cal: Calendar, dt: int,
                     time: int, chunks: seq<nat>, acc: Sample): (r: Result<Sample>)
    reads ds.sic, ds.sit, ds.tas, ds.clt
    requires ds.Valid() && CurvesValid(c) && env.atan(2.0) > 0.0 && dt > 0 && Shaped(acc, ds.cells)
    ensures r.Ok? ==> Shaped(r.value, ds.cells)
    decreases |chunks|
  {
    if chunks == [] then Ok(acc)
    else
      match ChunkFlux(ds, c, env, cal, Arange(time, time + chunks[0] + dt, dt))
      case Err(e) => Err(e)
      case Ok(es) => Integrate(ds, c, env, cal, dt, time + chunks[0], chunks[1..], MaskedAdd(acc, Trapz(es, dt, ds.cells)))
  }

  /** A slice of the flux series is the flux series of the slice. */
  lemma FluxSeriesSlice(ds: DataSet, c: Curves, env: Physics, ts: seq<int>, lo: nat, hi: nat)
    requires ds.Valid() && CurvesValid(c) && env.atan(2.0) > 0.0 && lo <= hi <= |ts|
    ensures FluxSeries(ds, c, env, ts)[lo..hi] == FluxSeries(ds, c, env, ts[lo..hi])
  {
  }

  /** A batch that passes both checks yields the flux series. */
  lemma ChunkFluxOk(ds: DataSet, c: Curves, env: Physics, cal: Calendar, ts: seq<int>)
    requires ds.Valid() && CurvesValid(c) && env.atan(2.0) > 0.0
    requires ChunkFlux(ds, c, env, cal, ts).Ok?
    ensures ChunkFlux(ds, c, env, cal, ts).value == FluxSeries(ds, c, env, ts)
  {
  }

  /** One step of the loop: the integral over the chunks is the integral
      over the rest from the accumulator after the first chunk. */
  lemma IntegrateStep(ds: DataSet, c: Curves, env: Physics, cal: Calendar, dt: int,
                      time: int, chunks: seq<nat>, acc: Sample)
    requires ds.Valid() && CurvesValid(c) && env.atan(2.0) > 0.0 && dt > 0 && Shaped(acc, ds.cells)
    requires chunks != [] && Integrate(ds, c, env, cal, dt, time, chunks, acc).Ok?
    ensures var ts := Arange(time, time + chunks[0] + dt, dt);
            && ChunkFlux(ds, c, env, cal, ts).Ok?
            && Integrate(ds, c, env, cal, dt, time, chunks, acc)
               == Integrate(ds, c, env, cal, dt, time + chunks[0], chunks[1..],
                            MaskedAdd(acc, Trapz(FluxSeries(ds, c, env, ts), dt, ds.cells)))
  {
    ChunkFluxOk(ds, c, env, cal, Arange(time, time + chunks[0] + dt, dt));
  }

  /** One pass of the loop of lines 78-98 over a window of `remaining > 0`
      seconds: the first chunk's batch either fails, and so does the whole
      integration, or its trapezoid is added and the rest of the window
      follows. */
  lemma IntegrateChunk(ds: DataSet, c: Curves, env: Physics, cal: Calendar, dt: int,
                       time: int, remaining: int, acc: Sample)
    requires ds.Valid() && CurvesValid(c) && env.atan(2.0) > 0.0 && dt > 0 && Shaped(acc, ds.cells)
    requires remaining > 0
    ensures ChunkFlux(ds, c, env, cal, ChunkTimes(time, remaining, dt)).Err? ==>
              Integrate(ds, c, env, cal, dt, time, Schedule(remaining), acc)
              == Err(ChunkFlux(ds, c, env, cal, ChunkTimes(time, remaining, dt)).error)
    ensures ChunkFlux(ds, c, env, cal, ChunkTimes(time, remaining, dt)).Ok? ==>
              Integrate(ds, c, env, cal, dt, time, Schedule(remaining), acc)
              == Integrate(ds, c, env, cal, dt, time + ChunkSize(remaining), Schedule(remaining - ChunkSize(remaining)),
                           MaskedAdd(acc, Trapz(ChunkFlux(ds, c, env, cal, ChunkTimes(time, remaining, dt)).value,
                                                dt, ds.cells)))
  {
    var chunks, size := Schedule(remaining), ChunkSize(remaining);
    assert chunks[0] == size && chunks[1..] == Schedule(remaining - size);
    var ts := ChunkTimes(time, remaining, dt);
    assert ts == Arange(time, time + chunks[0] + dt, dt);
    var cf := ChunkFlux(ds, c, env, cal, ts);
    if cf.Ok? {
      assert Integrate(ds, c, env, cal, dt, time, chunks, acc)
             == Integrate(ds, c, env, cal, dt, time + size, chunks[1..], MaskedAdd(acc, Trapz(cf.value, dt, ds.cells)));
    } else {
      assert Integrate(ds, c, env, cal, dt, time, chunks, acc) == Err(cf.error);
    }
  }

  /** Line 84: the sample times of the chunk that starts the window of
      `remaining` seconds at `time`. */
  function ChunkTimes(time: int, remaining: int, dt: int): seq<int>
    requires dt > 0
  {
    Arange(time, time + ChunkSize(remaining) + dt, dt)
  }

  /** The state of the loop of lines 78-98 at `date`, `time` and `acc`, with
      the year ending at `endDate`, is on track to give the year's integral:
      integrating the rest of the year from it gives what integrating the
      whole year from the start gives. */
  ghost predicate OnTrack(ds: DataSet, c: Curves, env: Physics, cal: Calendar, startDate: int, endDate: int, dt: int,
                          time: int, date: int, acc: Sample)
    reads ds.sic, ds.sit, ds.tas, ds.clt
    requires ds.Valid() && CurvesValid(c) && env.atan(2.0) > 0.0 && dt > 0
  {
    && Shaped(acc, ds.cells)
    && time - (startDate - ds.startDate) == date - startDate
    && Integrate(ds, c, env, cal, dt, time, Schedule(endDate - date), acc)
       == YearIntegral(ds, c, env, cal, startDate, dt)
  }

  /** Lines 67-74: the loop starts on track. */
  lemma TrackStart(ds: DataSet, c: Curves, env: Physics, cal: Calendar, startDate: int, dt: int)
    requires ds.Valid() && CurvesValid(c) && env.atan(2.0) > 0.0 && dt > 0
    ensures OnTrack(ds, c, env, cal, startDate, cal.addYear(startDate), dt, startDate - ds.startDate, startDate,
                    InitialIntegral(ds))
  {
  }

  /** One pass of the loop keeps it on track, unless the chunk's batch fails,
      in which case so does the year. */
  lemma TrackStep(ds: DataSet, c: Curves, env: Physics, cal: Calendar, startDate: int, endDate: int, dt: int,
                  time: int, date: int, acc: Sample, e: Result<seq<Sample>>, nextTime: int, nextDate: int)
    requires ds.Valid() && CurvesValid(c) && env.atan(2.0) > 0.0 && dt > 0
    requires OnTrack(ds, c, env, cal, startDate, endDate, dt, time, date, acc) && date < endDate
    requires e == ChunkFlux(ds, c, env, cal, ChunkTimes(time, endDate - date, dt))
    requires nextTime == time + ChunkSize(endDate - date) && nextDate == date + ChunkSize(endDate - date)
    ensures e.Err? ==> YearIntegral(ds, c, env, cal, startDate, dt) == Err(e.error)
    ensures e.Ok? ==> OnTrack(ds, c, env, cal, startDate, endDate, dt, nextTime, nextDate,
                              MaskedAdd(acc, Trapz(e.value, dt, ds.cells)))
  {
    var remaining := endDate - date;
    var size := ChunkSize(remaining);
    IntegrateChunk(ds, c, env, cal, dt, time, remaining, acc);
    if e.Ok? {
      var next := MaskedAdd(acc, Trapz(e.value, dt, ds.cells));
      assert Shaped(next, ds.cells);
      var before := Integrate(ds, c, env, cal, dt, time, Schedule(remaining), acc);
      var after := Integrate(ds, c, env, cal, dt, time + size, Schedule(remaining - size), next);
      assert before == YearIntegral(ds, c, env, cal, startDate, dt);
      assert after == before;
      assert Schedule(endDate - nextDate) == Schedule(remaining - size);
    }
  }

  /** When the loop ends on track, its accumulator is the year's integral. */
  lemma TrackEnd(ds: DataSet, c: Curves, env: Physics, cal: Calendar, startDate: int, endDate: int, dt: int,
                 time: int, date: int, acc: Sample)
    requires ds.Valid() && CurvesValid(c) && env.atan(2.0) > 0.0 && dt > 0
    requires OnTrack(ds, c, env, cal, startDate, endDate, dt, time, date, acc) && date >= endDate
    ensures YearIntegral(ds, c, env, cal, startDate, dt) == Ok(acc)
  {
  }

  /** The flux series of each chunk of the loop, in order (lines 84-90). */
  function ChunkSeries(ds: DataSet, c: Curves, env: Physics, dt: int, time: int, chunks: seq<nat>): (r: seq<seq<Sample>>)
    reads ds.sic, ds.sit, ds.tas, ds.clt
    requires ds.Valid() && CurvesValid(c) && env.atan(2.0) > 0.0 && dt > 0
    ensures |r| == |chunks| && SeriesShaped(r, ds.cells)
    decreases |chunks|
  {
    if chunks == [] then []
    else [FluxSeries(ds, c, env, Arange(time, time + chunks[0] + dt, dt))]
         + ChunkSeries(ds, c, env, dt, time + chunks[0], chunks[1..])
  }

  /** When the loop completes, its integral is the running sum of the chunk
      integrals of every chunk's flux series. */
  lemma {:induction false} IntegrateIsAccumulate(ds: DataSet, c: Curves, env: Physics, cal: Calendar, dt: int,
                                                 time: int, chunks: seq<nat>, acc: Sample)
    requires ds.Valid() && CurvesValid(c) && env.atan(2.0) > 0.0 && dt > 0 && Shaped(acc, ds.cells)
    requires Integrate(ds, c, env, cal, dt, time, chunks, acc).Ok?
    ensures Integrate(ds, c, env, cal, dt, time, chunks, acc).value
            == Accumulate(acc, ChunkSeries(ds, c, env, dt, time, chunks), dt, ds.cells)
    decreases |chunks|
  {
    if chunks != [] {
      var es := FluxSeries(ds, c, env, Arange(time, time + chunks[0] + dt, dt));
      var acc1 := MaskedAdd(acc, Trapz(es, dt, ds.cells));
      IntegrateStep(ds, c, env, cal, dt, time, chunks, acc);
      IntegrateIsAccumulate(ds, c, env, cal, dt, time + chunks[0], chunks[1..], acc1);
      var series := ChunkSeries(ds, c, env, dt, time, chunks);
      assert series[0] == es && series[1..] == ChunkSeries(ds, c, env, dt, time + chunks[0], chunks[1..]);
    }
  }

  /** The flux series of a window of whole steps splits at the end of its
      first `chunk` seconds into the series of the chunk and that of the
      rest, which share the sample at the split. */
  lemma WindowSplit(ds: DataSet, c: Curves, env: Physics, time: int, chunk: int, rest: int, dt: int)
    requires ds.Valid() && CurvesValid(c) && env.atan(2.0) > 0.0
    requires dt > 0 && chunk >= 0 && rest >= 0 && chunk % dt == 0 && rest % dt == 0
    ensures var fw := FluxSeries(ds, c, env, Arange(time, time + chunk + rest + dt, dt));
            var k := chunk / dt;
            && k < |fw|
            && fw[..k + 1] == FluxSeries(ds, c, env, Arange(time, time + chunk + dt, dt))
            && fw[k..] == FluxSeries(ds, c, env, Arange(time + chunk, time + chunk + rest + dt, dt))
  {
    var w := Arange(time, time + chunk + rest + dt, dt);
    var k := chunk / dt;
    ArangeSplit(time, chunk, rest, dt);
    FluxSeriesSlice(ds, c, env, w, 0, k + 1);
    FluxSeriesSlice(ds, c, env, w, k, |w|);
    assert w[0..k + 1] == w[..k + 1] && w[k..|w|] == w[k..];
    var fw := FluxSeries(ds, c, env, w);
    assert fw[0..k + 1] == fw[..k + 1] && fw[k..|w|] == fw[k..];
  }

  /** Chunks of whole steps yield chained flux series that make up the flux
      series of the whole window: each chunk's samples run from its start to
      its end, and the next chunk starts at that end (line 95's comment). */
  lemma {:induction false} ChunksChained(ds: DataSet, c: Curves, env: Physics, dt: int, time: int, chunks: seq<nat>)
    requires ds.Valid() && CurvesValid(c) && env.atan(2.0) > 0.0 && dt > 0 && AllOnGrid(chunks, dt)
    ensures Chained(ChunkSeries(ds, c, env, dt, time, chunks),
                    FluxSeries(ds, c, env, Arange(time, time + SumNat(chunks) + dt, dt)))
    decreases |chunks|
  {
    if chunks == [] {
      ArangeOnGrid(time, 0, dt);
    } else {
      var ch, rest := chunks[0], SumNat(chunks[1..]);
      OnGridTail(chunks, dt);
      SumOnGrid(chunks[1..], dt);
      ChunksChained(ds, c, env, dt, time + ch, chunks[1..]);
      var w := Arange(time, time + ch + rest + dt, dt);
      var k := ch / dt;
      WindowSplit(ds, c, env, time, ch, rest, dt);
      var fw := FluxSeries(ds, c, env, w);
      var tail := ChunkSeries(ds, c, env, dt, time + ch, chunks[1..]);
      ChainCons(fw[..k + 1], tail, fw, k);
      assert ChunkSeries(ds, c, env, dt, time, chunks) == [fw[..k + 1]] + tail;
      assert SumNat(chunks) == ch + rest;
    }
  }

  /** `np.zeros(n)`. */
  function Zeros(n: nat): (r: seq<real>)
    ensures |r| == n && forall j :: 0 <= j < n ==> r[j] == 0.0
  {
    seq(n, _ => 0.0)
  }

  /** `E_integral` before the loop: zeros under the sea-ice mask, the cells
      masked at every stored timestep (lines 71-74). */
  function InitialIntegral(ds: DataSet): (r: Sample)
    reads ds.sic, ds.sit, ds.tas, ds.clt
    requires ds.Valid()
    ensures Shaped(r, ds.cells)
  {
    Sample(Zeros(ds.cells), MaskedEverywhere(ds.sic.data, ds.cells))
  }

  /** `E_integral` after the loop of `_get_E_tot` for the year from
      `startDate`. */
  function YearIntegral(ds: DataSet, c: Curves, env: Physics, cal: Calendar, startDate: int, dt: int): (r: Result<Sample>)
    reads ds.sic, ds.sit, ds.tas, ds.clt
    requires ds.Valid() && CurvesValid(c) && env.atan(2.0) > 0.0 && dt > 0
    ensures r.Ok? ==> Shaped(r.value, ds.cells)
  {
    Integrate(ds, c, env, cal, dt, startDate - ds.startDate, Schedule(cal.addYear(startDate) - startDate),
              InitialIntegral(ds))
  }

  /** A cell masked in the sea-ice concentration at every stored timestep
      is left out of the year's total. */
  lemma YearExcludesSicMask(ds: DataSet, c: Curves, env: Physics, cal: Calendar, startDate: int, dt: int, j: nat)
    requires ds.Valid() && CurvesValid(c) && env.atan(2.0) > 0.0 && dt > 0 && j < ds.cells
    requires YearIntegral(ds, c, env, cal, startDate, dt).Ok?
    requires forall k :: 0 <= k < |ds.sic.data| ==> ds.sic.data[k].mask[j]
    ensures YearIntegral(ds, c, env, cal, startDate, dt).value.mask[j]
  {
    var acc := InitialIntegral(ds);
    assert acc.mask[j];
    YearIsAccumulate(ds, c, env, cal, startDate, dt);
    AccumulateKeepsMask(acc, YearChunkSeries(ds, c, env, cal, startDate, dt), dt, ds.cells, j);
  }

  /** The flux over the whole year from `startDate`, sampled every `dt`
      seconds from its start to its end. */
  function YearSeries(ds: DataSet, c: Curves, env: Physics, cal: Calendar, startDate: int, dt: int): (es: seq<Sample>)
    reads ds.sic, ds.sit, ds.tas, ds.clt
    requires ds.Valid() && CurvesValid(c) && env.atan(2.0) > 0.0 && dt > 0
    ensures AllShaped(es, ds.cells)
  {
    var t0, len := startDate - ds.startDate, cal.addYear(startDate) - startDate;
    FluxSeries(ds, c, env, Arange(t0, t0 + len + dt, dt))
  }

  /** The flux series of each chunk of the year from `startDate`. */
  function YearChunkSeries(ds: DataSet, c: Curves, env: Physics, cal: Calendar, startDate: int, dt: int)
    : (r: seq<seq<Sample>>)
    reads ds.sic, ds.sit, ds.tas, ds.clt
    requires ds.Valid() && CurvesValid(c) && env.atan(2.0) > 0.0 && dt > 0
    ensures SeriesShaped(r, ds.cells)
  {
    ChunkSeries(ds, c, env, dt, startDate - ds.startDate, Schedule(cal.addYear(startDate) - startDate))
  }

  /** When `dt` divides a day and the year, the year's integral at every
      cell it keeps is the single trapezoidal sum over the whole year,
      sampled every `dt` seconds. */
  lemma YearIsOneTrapezoid(ds: DataSet, c: Curves, env: Physics, cal: Calendar, startDate: int, dt: int, j: nat)
    requires ds.Valid() && CurvesValid(c) && env.atan(2.0) > 0.0 && dt > 0 && j < ds.cells
    requires DayChunk % dt == 0
    requires cal.addYear(startDate) >= startDate && (cal.addYear(startDate) - startDate) % dt == 0
    requires YearIntegral(ds, c, env, cal, startDate, dt).Ok?
    requires !YearIntegral(ds, c, env, cal, startDate, dt).value.mask[j]
    ensures YearIntegral(ds, c, env, cal, startDate, dt).value.values[j]
            == TrapzCell(YearSeries(ds, c, env, cal, startDate, dt), dt, ds.cells, j)
  {
    var acc, series := InitialIntegral(ds), YearChunkSeries(ds, c, env, cal, startDate, dt);
    YearIsAccumulate(ds, c, env, cal, startDate, dt);
    YearChained(ds, c, env, cal, startDate, dt);
    AccumulateIsWindow(acc, series, YearSeries(ds, c, env, cal, startDate, dt), dt, ds.cells, j);
    assert acc.values[j] == 0.0;
  }

  /** The year's integral is the running sum of its chunks' integrals. */
  lemma YearIsAccumulate(ds: DataSet, c: Curves, env: Physics, cal: Calendar, startDate: int, dt: int)
    requires ds.Valid() && CurvesValid(c) && env.atan(2.0) > 0.0 && dt > 0
    requires YearIntegral(ds, c, env, cal, startDate, dt).Ok?
    ensures YearIntegral(ds, c, env, cal, startDate, dt).value
            == Accumulate(InitialIntegral(ds), YearChunkSeries(ds, c, env, cal, startDate, dt), dt, ds.cells)
  {
    var t0, len := startDate - ds.startDate, cal.addYear(startDate) - startDate;
    IntegrateIsAccumulate(ds, c, env, cal, dt, t0, Schedule(len), InitialIntegral(ds));
  }

  /** When `dt` divides a day and the year, the year's chunks make up the
      year's flux series. */
  lemma YearChained(ds: DataSet, c: Curves, env: Physics, cal: Calendar, startDate: int, dt: int)
    requires ds.Valid() && CurvesValid(c) && env.atan(2.0) > 0.0 && dt > 0
    requires DayChunk % dt == 0
    requires cal.addYear(startDate) >= startDate && (cal.addYear(startDate) - startDate) % dt == 0
    ensures Chained(YearChunkSeries(ds, c, env, cal, startDate, dt), YearSeries(ds, c, env, cal, startDate, dt))
  {
    var t0, len := startDate - ds.startDate, cal.addYear(startDate) - startDate;
    var chunks := Schedule(len);
    ScheduleCovers(len);
    ScheduleOnGrid(len, dt);
    ChunksChained(ds, c, env, dt, t0, chunks);
    var series := ChunkSeries(ds, c, env, dt, t0, chunks);
    var whole := FluxSeries(ds, c, env, Arange(t0, t0 + SumNat(chunks) + dt, dt));
    assert series == YearChunkSeries(ds, c, env, cal, startDate, dt);
    assert whole == YearSeries(ds, c, env, cal, startDate, dt);
  }

  /** `_get_E_tot` as a value. */
  function ETotal(ds: DataSet, c: Curves, env: Physics, cal: Calendar, startDate: int, dt: int): Result<real>
    reads ds.sic, ds.sit, ds.tas, ds.clt
    requires ds.Valid() && CurvesValid(c) && env.atan(2.0) > 0.0 && dt > 0
  {
    match YearIntegral(ds, c, env, cal, startDate, dt)
    case Err(e) => Err(e)
    case Ok(acc) => Ok(Total(acc, Flatten(ds.areas)))
  }

  // ---------------------------------------------------------------------
  // The procedures

  /** The calendar fields of a batch of dates. */
  function Stamps(cal: Calendar, dates: seq<int>): (r: seq<Stamp>)
    ensures |r| == |dates|
  {
    seq(|dates|, k requires 0 <= k < |dates| => cal.stamp(dates[k]))
  }

  /** Lines 11-12: the cosines of the zenith angles, then the negative ones
      set to 0 in place. */
  method ClampCosines(z: seq<real>, cosDeg: real -> real) returns (cz: seq<real>)
    ensures cz == ClampedCos(z, cosDeg)
  {
    var n := |z|;
    var cos := new real[n](j requires 0 <= j < n => cosDeg(z[j]));
    for j := 0 to n
      invariant forall i :: 0 <= i < j ==> cos[i] == ClampedCos(z, cosDeg)[i]
      invariant forall i :: j <= i < n ==> cos[i] == cosDeg(z[i])
    {
      if cos[j] < 0.0 {
        cos[j] := 0.0;
      }
    }
    cz := cos[..];
  }

  /** Line 19: the cloud cover of the masked cells set to 0 in place. */
  method ZeroMaskedCloud(cloud: Sample) returns (cl: seq<real>)
    requires |cloud.mask| == |cloud.values|
    ensures cl == ClearedCloud(cloud)
  {
    var n := |cloud.values|;
    var cover := new real[n](j requires 0 <= j < n => cloud.values[j]);
    for j := 0 to n
      invariant forall i :: 0 <= i < j ==> cover[i] == ClearedCloud(cloud)[i]
      invariant forall i :: j <= i < n ==> cover[i] == cloud.values[i]
    {
      if cloud.mask[j] {
        cover[j] := 0.0;
      }
    }
    cl := cover[..];
  }

  /** Lines 11-60 of `_get_E` at one query time, on the samples the fields
      report: the clamped cosines, the cleared cloud cover, the four albedo
      arrays, then the flux under the thickness mask. */
  method GetRadiation(z: seq<real>, ice: Sample, cloud: Sample, h: Sample, temp: Sample, c: Curves,
                      env: Physics) returns (e: Sample)
    requires CurvesValid(c) && env.atan(2.0) > 0.0
    requires Shaped(ice, |z|) && Shaped(cloud, |z|) && Shaped(h, |z|) && Shaped(temp, |z|)
    ensures e == Radiation(z, ice, cloud, h, temp, c, env)
  {
    var n := |z|;
    var cz := ClampCosines(z, env.cosDeg);
    var cl := ZeroMaskedCloud(cloud);
    var aOcld := GetSeaAlbedo(c, z, false);
    var aOclr := GetSeaAlbedo(c, z, true);
    var aIcld := GetIceAlbedo(c, z, h.values, temp.values, false, Some(aOcld), env.atan);
    var aIclr := GetIceAlbedo(c, z, h.values, temp.values, true, Some(aOclr), env.atan);
    var values := seq(n, j requires 0 <= j < n =>
      if ice.mask[j] then cz[j] else cz[j] * Absorbed(ice.values[j], cl[j], aIcld[j], aIclr[j], aOcld[j], aOclr[j]));
    e := Sample(values, h.mask);
  }

  /** The date check of `GetE`, on the dates the fields report, is the
      corrected check. */
  lemma DateCheck(ds: DataSet, cal: Calendar, ts: seq<int>,
                  sicDates: seq<int>, sitDates: seq<int>, tasDates: seq<int>, cltDates: seq<int>)
    requires ds.Valid()
    requires |sicDates| == |sitDates| == |tasDates| == |cltDates| == |ts|
    requires forall k :: 0 <= k < |ts| ==> sicDates[k] == ds.sic.DateAt(ts[k]) && sitDates[k] == ds.sit.DateAt(ts[k])
    requires forall k :: 0 <= k < |ts| ==> tasDates[k] == ds.tas.DateAt(ts[k]) && cltDates[k] == ds.clt.DateAt(ts[k])
    ensures (sitDates == sicDates && tasDates == sicDates && Stamps(cal, cltDates) == Stamps(cal, sicDates))
            <==> DatesAgree(ds, cal, ts)
  {
    if DatesAgree(ds, cal, ts) {
      assert sitDates == sicDates;
      assert tasDates == sicDates;
      assert Stamps(cal, cltDates) == Stamps(cal, sicDates);
    }
    if sitDates == sicDates && tasDates == sicDates && Stamps(cal, cltDates) == Stamps(cal, sicDates) {
      forall k | 0 <= k < |ts|
        ensures cal.stamp(cltDates[k]) == cal.stamp(sicDates[k])
      {
        assert Stamps(cal, cltDates)[k] == Stamps(cal, sicDates)[k];
      }
    }
  }

  /** The all-masked check of `GetE`, on the samples the sea-ice field
      reports, is `SicMaskedThroughout`. */
  lemma MaskCheck(ds: DataSet, ts: seq<int>, iceData: seq<Sample>)
    requires ds.Valid() && |iceData| == |ts|
    requires forall k :: 0 <= k < |ts| ==> iceData[k] == ds.sic.DataAt(ts[k])
    requires forall k :: 0 <= k < |ts| ==> |iceData[k].mask| == ds.cells
    ensures (forall k, j :: 0 <= k < |ts| && 0 <= j < ds.cells ==> iceData[k].mask[j])
            <==> SicMaskedThroughout(ds, ts)
  {
  }

  /** Line 57: whether the sea-ice concentration of a batch is masked at
      every cell of every time. */
  method AllMasked(ds: DataSet, ts: seq<int>, iceData: seq<Sample>) returns (masked: bool)
    requires ds.Valid() && SicSamples(ds, ts, iceData)
    ensures masked == SicMaskedThroughout(ds, ts)
  {
    assert forall k :: 0 <= k < |ts| ==> |iceData[k].mask| == ds.cells;
    MaskCheck(ds, ts, iceData);
    masked := forall k, j :: 0 <= k < |ts| && 0 <= j < ds.cells ==> iceData[k].mask[j];
  }

  /** The solar zenith angles of every query time of a batch (line 10). */
  function BatchZeniths(ds: DataSet, env: Physics, ts: seq<int>): (zs: seq<seq<real>>)
    requires GridShaped(ds.grid, ds.cells)
    ensures |zs| == |ts| && forall k :: 0 <= k < |ts| ==> zs[k] == ds.Zeniths(ts[k], env)
  {
    seq(|ts|, k requires 0 <= k < |ts| && GridShaped(ds.grid, ds.cells) => ds.Zeniths(ts[k], env))
  }

  /** The flux at every query time of a batch, from the zenith angles and the
      samples of the four fields at each time (lines 11-56, one time at a
      time). */
  method GetFluxes(zs: seq<seq<real>>, iceData: seq<Sample>, cloudData: seq<Sample>,
                   thickness: seq<Sample>, temperature: seq<Sample>, c: Curves, env: Physics)
    returns (es: seq<Sample>)
    requires CurvesValid(c) && env.atan(2.0) > 0.0
    requires |iceData| == |cloudData| == |thickness| == |temperature| == |zs|
    requires forall k :: 0 <= k < |zs| ==> Shaped(iceData[k], |zs[k]|) && Shaped(cloudData[k], |zs[k]|)
    requires forall k :: 0 <= k < |zs| ==> Shaped(thickness[k], |zs[k]|) && Shaped(temperature[k], |zs[k]|)
    ensures |es| == |zs|
    ensures forall k :: 0 <= k < |zs| ==>
              es[k] == Radiation(zs[k], iceData[k], cloudData[k], thickness[k], temperature[k], c, env)
  {
    es := [];
    for k := 0 to |zs|
      invariant |es| == k
      invariant forall i :: 0 <= i < k ==>
                  es[i] == Radiation(zs[i], iceData[i], cloudData[i], thickness[i], temperature[i], c, env)
    {
      var e := GetRadiation(zs[k], iceData[k], cloudData[k], thickness[k], temperature[k], c, env);
      es := es + [e];
    }
  }

  /** The samples the four fields report for the times of a batch (lines
      14-17). */
  ghost predicate BatchSamples(ds: DataSet, ts: seq<int>, iceData: seq<Sample>, cloudData: seq<Sample>,
                               thickness: seq<Sample>, temperature: seq<Sample>)
    reads ds.sic, ds.sit, ds.tas, ds.clt
    requires ds.Valid()
  {
    && SicSamples(ds, ts, iceData)
    && |cloudData| == |thickness| == |temperature| == |ts|
    && (forall k :: 0 <= k < |ts| ==> cloudData[k] == ds.clt.DataAt(ts[k]))
    && (forall k :: 0 <= k < |ts| ==> thickness[k] == ds.sit.DataAt(ts[k]) && temperature[k] == ds.tas.DataAt(ts[k]))
  }

  /** The samples the sea-ice concentration reports for the times of a batch
      (line 14). */
  ghost predicate SicSamples(ds: DataSet, ts: seq<int>, iceData: seq<Sample>)
    reads ds.sic, ds.sit, ds.tas, ds.clt
    requires ds.Valid()
  {
    |iceData| == |ts| && forall k :: 0 <= k < |ts| ==> iceData[k] == ds.sic.DataAt(ts[k])
  }

  /** Lines 14-17: the samples of the four fields at the times of a batch. */
  method ReadSamples(ds: DataSet, ts: seq<int>)
    returns (iceData: seq<Sample>, cloudData: seq<Sample>, thickness: seq<Sample>, temperature: seq<Sample>)
    requires ds.Valid()
    ensures BatchSamples(ds, ts, iceData, cloudData, thickness, temperature)
  {
    iceData := ds.sic.GetData(ts);
    cloudData := ds.clt.GetData(ts);
    thickness := ds.sit.GetData(ts);
    temperature := ds.tas.GetData(ts);
  }

  /** The samples the four fields report for a batch have the shape of the
      batch's zenith angles. */
  lemma BatchShaped(ds: DataSet, env: Physics, ts: seq<int>, zs: seq<seq<real>>, iceData: seq<Sample>,
                    cloudData: seq<Sample>, thickness: seq<Sample>, temperature: seq<Sample>)
    requires ds.Valid() && zs == BatchZeniths(ds, env, ts)
    requires BatchSamples(ds, ts, iceData, cloudData, thickness, temperature)
    ensures forall k :: 0 <= k < |zs| ==> Shaped(iceData[k], |zs[k]|) && Shaped(cloudData[k], |zs[k]|)
    ensures forall k :: 0 <= k < |zs| ==> Shaped(thickness[k], |zs[k]|) && Shaped(temperature[k], |zs[k]|)
  {
  }

  /** The radiation computed from the samples of a batch is the flux series
      of the batch. */
  lemma BatchFlux(ds: DataSet, c: Curves, env: Physics, ts: seq<int>, zs: seq<seq<real>>, iceData: seq<Sample>,
                  cloudData: seq<Sample>, thickness: seq<Sample>, temperature: seq<Sample>, es: seq<Sample>)
    requires ds.Valid() && CurvesValid(c) && env.atan(2.0) > 0.0 && zs == BatchZeniths(ds, env, ts)
    requires BatchSamples(ds, ts, iceData, cloudData, thickness, temperature) && |es| == |ts|
    requires forall k :: 0 <= k < |ts| ==>
               Shaped(iceData[k], |zs[k]|) && Shaped(cloudData[k], |zs[k]|)
    requires forall k :: 0 <= k < |ts| ==>
               Shaped(thickness[k], |zs[k]|) && Shaped(temperature[k], |zs[k]|)
    requires forall k :: 0 <= k < |ts| ==>
               es[k] == Radiation(zs[k], iceData[k], cloudData[k], thickness[k], temperature[k], c, env)
    ensures es == FluxSeries(ds, c, env, ts)
  {
    forall k | 0 <= k < |ts|
      ensures es[k] == FluxSeries(ds, c, env, ts)[k]
    {
      assert es[k] == Flux(ds, c, env, ts[k]);
    }
  }

  /** Lines 21-32, corrected: whether the dates the four fields report for
      a batch agree. */
  method CheckDates(ds: DataSet, cal: Calendar, ts: seq<int>) returns (ok: bool)
    requires ds.Valid()
    ensures ok == DatesAgree(ds, cal, ts)
  {
    var sicDates := ds.sic.GetDate(ts);
    var sitDates := ds.sit.GetDate(ts);
    var tasDates := ds.tas.GetDate(ts);
    var cltDates := ds.clt.GetDate(ts);
    DateCheck(ds, cal, ts, sicDates, sitDates, tasDates, cltDates);
    ok := sitDates == sicDates && tasDates == sicDates && Stamps(cal, cltDates) == Stamps(cal, sicDates);
  }

  /** Lines 10-20 and 34-57: the flux at every time of a batch, and whether
      the sea-ice concentration is masked throughout the batch. */
  method BatchRadiation(ds: DataSet, c: Curves, env: Physics, ts: seq<int>) returns (es: seq<Sample>, masked: bool)
    requires ds.Valid() && CurvesValid(c) && env.atan(2.0) > 0.0
    ensures es == FluxSeries(ds, c, env, ts)
    ensures masked == SicMaskedThroughout(ds, ts)
  {
    var iceData;
    es, iceData := ReadFluxes(ds, c, env, ts);
    masked := AllMasked(ds, ts, iceData);
  }

  /** Lines 10-20 and 34-56: the samples of the batch and the flux at
      every time of it. */
  method ReadFluxes(ds: DataSet, c: Curves, env: Physics, ts: seq<int>) returns (es: seq<Sample>, iceData: seq<Sample>)
    requires ds.Valid() && CurvesValid(c) && env.atan(2.0) > 0.0
    ensures es == FluxSeries(ds, c, env, ts)
    ensures SicSamples(ds, ts, iceData)
  {
    var cloudData, thickness, temperature;
    iceData, cloudData, thickness, temperature := ReadSamples(ds, ts);
    es := FluxesOf(ds, c, env, ts, iceData, cloudData, thickness, temperature);
  }

  /** The flux series of a batch, from its zenith angles and samples. */
  method FluxesOf(ds: DataSet, c: Curves, env: Physics, ts: seq<int>, iceData: seq<Sample>,
                  cloudData: seq<Sample>, thickness: seq<Sample>, temperature: seq<Sample>)
    returns (es: seq<Sample>)
    requires ds.Valid() && CurvesValid(c) && env.atan(2.0) > 0.0
    requires BatchSamples(ds, ts, iceData, cloudData, thickness, temperature)
    ensures es == FluxSeries(ds, c, env, ts)
  {
    var zs := BatchZeniths(ds, env, ts);
    BatchShaped(ds, env, ts, zs, iceData, cloudData, thickness, temperature);
    es := GetFluxes(zs, iceData, cloudData, thickness, temperature, c, env);
    BatchFlux(ds, c, env, ts, zs, iceData, cloudData, thickness, temperature, es);
  }

  /** `_get_E` on a batch of query times, with the corrected date check. */
  method GetE(ds: DataSet, c: Curves, env: Physics, cal: Calendar, ts: seq<int>) returns (r: Result<seq<Sample>>)
    requires ds.Valid() && CurvesValid(c) && env.atan(2.0) > 0.0
    ensures r == ChunkFlux(ds, c, env, cal, ts)
  {
    var ok := CheckDates(ds, cal, ts);
    if !ok {
      return Err(DateMismatch);
    }
    var es, masked := BatchRadiation(ds, c, env, ts);
    if masked {
      return Err(FluxAllMasked);
    }
    r := Ok(es);
  }

  /** Lines 71-74: zeros, masked where the sea-ice concentration is masked
      at every stored timestep. */
  method InitialAccumulator(ds: DataSet) returns (acc: Sample)
    requires ds.Valid()
    ensures acc == InitialIntegral(ds)
  {
    var sicMask := ds.sic.Mask();
    acc := Sample(Zeros(ds.cells), sicMask);
  }

  /** One pass of the loop of lines 78-98 from `date`, `time` and `acc`:
      the chunk's flux (lines 79-90), the accumulator after its trapezoid is
      added (lines 92-93), and the date and time a chunk later (lines
      95-96). */
  method IntegrateChunkStep(ds: DataSet, c: Curves, env: Physics, cal: Calendar, startDate: int, endDate: int, dt: int,
                            time: int, date: int, acc: Sample)
    returns (r: Result<Sample>, nextTime: int, nextDate: int)
    requires ds.Valid() && CurvesValid(c) && env.atan(2.0) > 0.0 && dt > 0
    requires OnTrack(ds, c, env, cal, startDate, endDate, dt, time, date, acc) && date < endDate
    ensures nextTime == time + ChunkSize(endDate - date) && nextDate == date + ChunkSize(endDate - date)
    ensures r.Err? ==> YearIntegral(ds, c, env, cal, startDate, dt) == Err(r.error)
    ensures r.Ok? ==> OnTrack(ds, c, env, cal, startDate, endDate, dt, nextTime, nextDate, r.value)
  {
    var chunk := ChunkSize(endDate - date);
    var ts := ChunkTimes(time, endDate - date, dt);
    var e := GetE(ds, c, env, cal, ts);
    nextTime, nextDate := time + chunk, date + chunk;
    TrackStep(ds, c, env, cal, startDate, endDate, dt, time, date, acc, e, nextTime, nextDate);
    if e.Err? {
      return Err(e.error), nextTime, nextDate;
    }
    r := Ok(MaskedAdd(acc, Trapz(e.value, dt, ds.cells)));
  }

  /** `_get_E_tot`: the year's absorbed energy from `startDate`, one chunk of
      at most a day at a time. */
  method GetETot(ds: DataSet, c: Curves, env: Physics, cal: Calendar, startDate: int, dt: int)
    returns (r: Result<real>)
    requires ds.Valid() && CurvesValid(c) && env.atan(2.0) > 0.0 && dt > 0
    ensures r == ETotal(ds, c, env, cal, startDate, dt)
  {
    var integral := InitialAccumulator(ds);
    var year := IntegrateYear(ds, c, env, cal, startDate, dt, integral);
    if year.Err? {
      return Err(year.error);
    }
    r := Ok(Total(year.value, Flatten(ds.areas)));
  }

  /** Lines 64-98: the loop of `_get_E_tot` from the zero accumulator
      `integral` over the year from `startDate`, a chunk of at most a day at
      a time. */
  method IntegrateYear(ds: DataSet, c: Curves, env: Physics, cal: Calendar, startDate: int, dt: int, integral: Sample)
    returns (r: Result<Sample>)
    requires ds.Valid() && CurvesValid(c) && env.atan(2.0) > 0.0 && dt > 0
    requires integral == InitialIntegral(ds)
    ensures r == YearIntegral(ds, c, env, cal, startDate, dt)
  {
    TrackStart(ds, c, env, cal, startDate, dt);
    r := IntegrateRest(ds, c, env, cal, startDate, cal.addYear(startDate), dt,
                       startDate - ds.startDate, startDate, integral);
  }

  /** Lines 78-98 from a state on track: the rest of the loop gives the
      year's integral. */
  method IntegrateRest(ds: DataSet, c: Curves, env: Physics, cal: Calendar, startDate: int, endDate: int, dt: int,
                       time0: int, date0: int, acc0: Sample)
    returns (r: Result<Sample>)
    requires ds.Valid() && CurvesValid(c) && env.atan(2.0) > 0.0 && dt > 0
    requires OnTrack(ds, c, env, cal, startDate, endDate, dt, time0, date0, acc0)
    ensures r == YearIntegral(ds, c, env, cal, startDate, dt)
  {
    var time, date, acc := time0, date0, acc0;
    while date < endDate
      invariant OnTrack(ds, c, env, cal, startDate, endDate, dt, time, date, acc)
      decreases endDate - date
    {
      var next, nextTime, nextDate := IntegrateChunkStep(ds, c, env, cal, startDate, endDate, dt, time, date, acc);
      if next.Err? {
        return Err(next.error);
      }
      acc, time, date := next.value, nextTime, nextDate;
    }
    TrackEnd(ds, c, env, cal, startDate, endDate, dt, time, date, acc);
    r := Ok(acc);
  }

  /** Line 119: energy `eTot` spread evenly over `area` square metres and
      `secs` seconds. */
  function Forcing(eTot: real, area: real, secs: real): (f: real)
    requires area > 0.0 && secs > 0.0
    ensures f * (area * secs) == eTot
    ensures eTot >= 0.0 ==> f >= 0.0
  {
    eTot / (area * secs)
  }

  /** `get_radiative_forcing`: the year's absorbed energy spread over the
      whole earth's surface and the seconds of the year. */
  method GetRadiativeForcing(ds: DataSet, c: Curves, env: Physics, cal: Calendar, startDate: int, dt: int)
    returns (r: Result<real>)
    requires ds.Valid() && CurvesValid(c) && Sound(env) && dt > 0
    requires cal.addYear(startDate) > startDate
    ensures ETotal(ds, c, env, cal, startDate, dt).Err? ==> r == Err(ETotal(ds, c, env, cal, startDate, dt).error)
    ensures ETotal(ds, c, env, cal, startDate, dt).Ok? ==>
              r == Ok(Forcing(ETotal(ds, c, env, cal, startDate, dt).value, SphereArea(env),
                              (cal.addYear(startDate) - startDate) as real))
  {
    var eTot := GetETot(ds, c, env, cal, startDate, dt);
    if eTot.Err? {
      return Err(eTot.error);
    }
    var yearSecs := (cal.addYear(startDate) - startDate) as real;
    var area := LatLonArea(-90.0, 90.0, 0.0, 360.0, env);
    EarthSurface(env);
    r := Ok(Forcing(eTot.value, area, yearSecs));
  }
}
