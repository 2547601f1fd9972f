/** The floating-point primitives the drone service and the web client rely on,
    kept abstract.  The source computes great-circle distances with the
    haversine formula, planar lengths with `math.Sqrt` and headings with
    `math.Atan2`; the model only assumes the ranges those functions have. */
module Geo {

  /** A distance in metres between (lat1, lon1) and (lat2, lon2); only its
      non-negativity is assumed (the haversine body is not modelled). */
  type Metric = f: (real, real, real, real) -> real
    | forall lat1, lon1, lat2, lon2 :: f(lat1, lon1, lat2, lon2) >= 0.0
    witness (lat1: real, lon1: real, lat2: real, lon2: real) => 0.0

  /** sqrt(x*x + y*y): a non-negative planar length. */
  type Norm = f: (real, real) -> real
    | forall x, y :: f(x, y) >= 0.0
    witness (x: real, y: real) => 0.0

  /** atan2(y, x) converted to degrees: always within [-180, 180]. */
  type Bearing = f: (real, real) -> real
    | forall y, x :: -180.0 <= f(y, x) <= 180.0
    witness (y: real, x: real) => 0.0

  /** The configured cruise speed in metres per second (FLIGHT_SPEED_MS). */
  type Speed = s: real | s > 0.0 witness 15.0

  /** Everything the flight simulation reads besides its own state. */
  datatype Physics = Physics(dist: Metric, hypot: Norm, bearing: Bearing, speed: Speed)
}
