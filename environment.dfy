/** What the system takes from libraries the model does not contain: numpy's
    trigonometry in degrees, pysolar's solar altitude, and the calendar of
    the date library. Dates are seconds since a fixed epoch (UTC). */
module Environment {

  /** Trigonometry and the position of the sun. */
  datatype Physics = Physics(
    pi: real,
    /** `np.sin(np.deg2rad(x))` */
    sinDeg: real -> real,
    /** `np.cos(np.deg2rad(x))` */
    cosDeg: real -> real,
    /** `np.arctan(x)` */
    atan: real -> real,
    /** `pysolar.solar.get_altitude_fast(lat, lon, date)` in degrees */
    altitude: (real, real, int) -> real)

  /** The values of sine and arctangent the model relies on. */
  predicate Sound(env: Physics) {
    && env.pi > 0.0
    && env.sinDeg(90.0) == 1.0
    && env.sinDeg(-90.0) == -1.0
    && env.atan(2.0) > 0.0
  }

  /** The calendar fields of a date that `pandas` exposes. */
  datatype Stamp = Stamp(month: int, day: int, hour: int, minute: int, second: int)

  datatype Calendar = Calendar(
    /** the year a date falls in */
    yearOf: int -> int,
    /** the first second of a year */
    yearStart: int -> int,
    /** the calendar fields of a date */
    stamp: int -> Stamp,
    /** the same date one year later (`relativedelta(years=1)`) */
    addYear: int -> int)
}
