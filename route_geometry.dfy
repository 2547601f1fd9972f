/** The geometry helpers of the flight processor
    (drones/internal/processor/proccessor.go): the two-point route from the
    base, the distance from a zone centre to a route segment, the length of
    a route, the progress along it and one simulation step toward a
    waypoint.  Degrees are treated as planar coordinates where
    proccessor.go does so. */
module RouteGeometry {
  import opened Geo
  import opened Structures

  /** The hard-coded take-off point of every flight. */
  const BaseLatitude: real := 51.15545
  const BaseLongitude: real := 71.41216

  /** Metres per degree used to turn the cruise speed into degrees per tick. */
  const MetresPerDegree: real := 111320.0

  /** The route actually flown: from the base to the requested destination. */
  function CreateFullRoute(destination: RoutePoint): (route: seq<RoutePoint>)
    ensures |route| == 2
    ensures route[0].Id == 0 && route[0].PointOrder == 0
    ensures route[0].Latitude == BaseLatitude && route[0].Longitude == BaseLongitude
    ensures route[0].Altitude == 0.0
    ensures route[1].PointOrder == 1
    ensures route[1].(PointOrder := destination.PointOrder) == destination
    ensures route[0].ApplicationId == destination.ApplicationId
    ensures route[1].ApplicationId == destination.ApplicationId
  {
    var base := RoutePoint(0, BaseLatitude, BaseLongitude, 0.0, 0, destination.ApplicationId);
    [base, destination.(PointOrder := 1)]
  }

  // ---------------------------------------------------------------------
  // Distance from a point to a segment

  /** The point of the segment (x1, y1)-(x2, y2) at parameter t. */
  function PointAt(x1: real, y1: real, x2: real, y2: real, t: real): (real, real)
  {
    (x1 + t * (x2 - x1), y1 + t * (y2 - y1))
  }

  /** Squared planar distance between two coordinate pairs. */
  function SquaredGap(ax: real, ay: real, qx: real, qy: real): (r: real)
    ensures r >= 0.0
  {
    (ax - qx) * (ax - qx) + (ay - qy) * (ay - qy)
  }

  /** Squared length of the segment. */
  function SegmentLengthSq(x1: real, y1: real, x2: real, y2: real): real
  {
    (x2 - x1) * (x2 - x1) + (y2 - y1) * (y2 - y1)
  }

  /** Projection parameter of (px, py) on the line through the segment. */
  function ProjectionParam(px: real, py: real, x1: real, y1: real, x2: real, y2: real): real
    requires SegmentLengthSq(x1, y1, x2, y2) != 0.0
  {
    ((px - x1) * (x2 - x1) + (py - y1) * (y2 - y1)) / SegmentLengthSq(x1, y1, x2, y2)
  }

  function Clamp01(t: real): (r: real)
    ensures 0.0 <= r <= 1.0
    ensures 0.0 <= t <= 1.0 ==> r == t
  {
    if t < 0.0 then 0.0 else if t > 1.0 then 1.0 else t
  }

  /** The point of a non-degenerate segment distanceFromPointToLineSegment measures to. */
  function NearestOnSegment(px: real, py: real, x1: real, y1: real, x2: real, y2: real): (real, real)
    requires SegmentLengthSq(x1, y1, x2, y2) != 0.0
  {
    NearestAt(x1, y1, x2, y2, ProjectionParam(px, py, x1, y1, x2, y2))
  }

  /** distanceFromPointToLineSegment: the distance from (px, py) to the
      segment, measured with `dist` to the nearest point of the segment. */
  function DistanceToSegment(dist: Metric, px: real, py: real, x1: real, y1: real, x2: real, y2: real): (r: real)
    ensures r >= 0.0
    ensures x1 == x2 && y1 == y2 ==> r == dist(px, py, x1, y1)
  {
    SegmentLengthSqBasics(x1, y1, x2, y2);
    if SegmentLengthSq(x1, y1, x2, y2) == 0.0 then dist(px, py, x1, y1)
    else
      var nearest := NearestOnSegment(px, py, x1, y1, x2, y2);
      dist(px, py, nearest.0, nearest.1)
  }

  /** A segment whose ends coincide has length 0, and no segment has a
      negative squared length. */
  lemma SegmentLengthSqBasics(x1: real, y1: real, x2: real, y2: real)
    ensures SegmentLengthSq(x1, y1, x2, y2) >= 0.0
    ensures x1 == x2 && y1 == y2 ==> SegmentLengthSq(x1, y1, x2, y2) == 0.0
  {
    SquareNonNegative(x2 - x1);
    SquareNonNegative(y2 - y1);
  }

  lemma SquareNonNegative(x: real)
    ensures x * x >= 0.0
    ensures x == 0.0 ==> x * x == 0.0
  {
    if x < 0.0 {
      assert x * x == (-x) * (-x);
    }
  }

  /** The nearest point for a given projection parameter, as
      distanceFromPointToLineSegment chooses it: the start below 0, the end above 1, the projection between. */
  function NearestAt(x1: real, y1: real, x2: real, y2: real, param: real): (real, real)
  {
    if param < 0.0 then (x1, y1)
    else if param > 1.0 then (x2, y2)
    else (x1 + param * (x2 - x1), y1 + param * (y2 - y1))
  }

  /** The three branches of distanceFromPointToLineSegment are one formula: the projection
      parameter clamped to [0, 1]. */
  lemma NearestIsClampedProjection(x1: real, y1: real, x2: real, y2: real, param: real)
    ensures NearestAt(x1, y1, x2, y2, param) == PointAt(x1, y1, x2, y2, Clamp01(param))
  {
    if param < 0.0 {
      calc {
        PointAt(x1, y1, x2, y2, Clamp01(param));
        (x1 + 0.0 * (x2 - x1), y1 + 0.0 * (y2 - y1));
        (x1, y1);
      }
    } else if param > 1.0 {
      calc {
        PointAt(x1, y1, x2, y2, Clamp01(param));
        (x1 + 1.0 * (x2 - x1), y1 + 1.0 * (y2 - y1));
        (x2, y2);
      }
    } else {
      assert Clamp01(param) == param;
    }
  }

  /** The degenerate segment is a point; otherwise the distance is the one to
      the point at the clamped projection parameter. */
  lemma DistanceToSegmentIsToClampedProjection(dist: Metric, px: real, py: real, x1: real, y1: real, x2: real, y2: real)
    ensures SegmentLengthSq(x1, y1, x2, y2) == 0.0 ==>
      DistanceToSegment(dist, px, py, x1, y1, x2, y2) == dist(px, py, x1, y1)
    ensures SegmentLengthSq(x1, y1, x2, y2) != 0.0 ==>
      var q := PointAt(x1, y1, x2, y2, Clamp01(ProjectionParam(px, py, x1, y1, x2, y2)));
      DistanceToSegment(dist, px, py, x1, y1, x2, y2) == dist(px, py, q.0, q.1)
  {
    if SegmentLengthSq(x1, y1, x2, y2) != 0.0 {
      NearestIsClampedProjection(x1, y1, x2, y2, ProjectionParam(px, py, x1, y1, x2, y2));
    }
  }

  /** Squared gap from (px, py) to the point at parameter t, expanded as a
      quadratic in t. */
  lemma GapQuadratic(px: real, py: real, x1: real, y1: real, x2: real, y2: real, t: real,
                     len: real, dot: real, k: real)
    requires len == SegmentLengthSq(x1, y1, x2, y2)
    requires dot == (px - x1) * (x2 - x1) + (py - y1) * (y2 - y1)
    requires k == (px - x1) * (px - x1) + (py - y1) * (py - y1)
    ensures var q := PointAt(x1, y1, x2, y2, t);
      SquaredGap(px, py, q.0, q.1) == t * t * len - 2.0 * t * dot + k
  {
    var a, b, c, d := px - x1, py - y1, x2 - x1, y2 - y1;
    var q := PointAt(x1, y1, x2, y2, t);
    assert px - q.0 == a - t * c && py - q.1 == b - t * d;
    SquareOfDifference(a, t, c);
    SquareOfDifference(b, t, d);
    calc {
      SquaredGap(px, py, q.0, q.1);
      (a - t * c) * (a - t * c) + (b - t * d) * (b - t * d);
      a * a - 2.0 * t * (a * c) + t * t * (c * c) + b * b - 2.0 * t * (b * d) + t * t * (d * d);
      { Distribute(t * t, c * c, d * d); Distribute(2.0 * t, a * c, b * d); }
      t * t * (c * c + d * d) - 2.0 * t * (a * c + b * d) + (a * a + b * b);
    }
  }

  lemma Distribute(x: real, y: real, z: real)
    ensures x * (y + z) == x * y + x * z
  {
  }

  lemma SquareOfDifference(a: real, t: real, c: real)
    ensures (a - t * c) * (a - t * c) == a * a - 2.0 * t * (a * c) + t * t * (c * c)
  {
  }

  /** The quadratic t*t*len - 2*t*dot over [0, 1] (len > 0) is smallest at
      the clamped vertex dot / len. */
  lemma ClampedVertexIsMinimum(len: real, dot: real, p: real, s: real, t: real)
    requires len > 0.0 && 0.0 <= t <= 1.0
    requires p == dot / len && s == Clamp01(p)
    ensures s * s * len - 2.0 * s * dot <= t * t * len - 2.0 * t * dot
  {
    assert dot == p * len;
    if p < 0.0 {
      ClampLow(len, dot, p, t);
    } else if p > 1.0 {
      ClampHigh(len, dot, p, t);
    } else {
      Vertex(len, dot, p, t);
    }
  }

  lemma ClampLow(len: real, dot: real, p: real, t: real)
    requires len > 0.0 && 0.0 <= t && p < 0.0 && dot == p * len
    ensures 0.0 * 0.0 * len - 2.0 * 0.0 * dot <= t * t * len - 2.0 * t * dot
  {
    assert dot < 0.0;
    assert t * t >= 0.0;
    assert t * t * len >= 0.0;
    assert t * dot <= 0.0;
  }

  lemma ClampHigh(len: real, dot: real, p: real, t: real)
    requires len > 0.0 && t <= 1.0 && p > 1.0 && dot == p * len
    ensures 1.0 * 1.0 * len - 2.0 * 1.0 * dot <= t * t * len - 2.0 * t * dot
  {
    var u, v := 1.0 - t, 2.0 * dot - len - t * len;
    assert dot > len;
    assert v > 0.0;
    assert u * v >= 0.0;
    calc {
      (t * t * len - 2.0 * t * dot) - (len - 2.0 * dot);
      t * t * len - len - 2.0 * t * dot + 2.0 * dot;
      (1.0 - t) * (2.0 * dot) - (1.0 - t) * (len + t * len);
      u * v;
    }
  }

  lemma Vertex(len: real, dot: real, p: real, t: real)
    requires len > 0.0 && dot == p * len
    ensures p * p * len - 2.0 * p * dot <= t * t * len - 2.0 * t * dot
  {
    SquareNonNegative(t - p);
    assert len * ((t - p) * (t - p)) >= 0.0;
    calc {
      (t * t * len - 2.0 * t * dot) - (p * p * len - 2.0 * p * dot);
      t * t * len - 2.0 * t * (p * len) - p * p * len + 2.0 * p * (p * len);
      len * (t * t - 2.0 * t * p + p * p);
      len * ((t - p) * (t - p));
    }
  }

  /** The point distanceFromPointToLineSegment measures to is the nearest point of the segment in
      the plane of (latitude, longitude): no point of the segment is closer. */
  lemma NearestMinimisesPlanarGap(px: real, py: real, x1: real, y1: real, x2: real, y2: real, t: real)
    requires SegmentLengthSq(x1, y1, x2, y2) != 0.0
    requires 0.0 <= t <= 1.0
    ensures var n := NearestOnSegment(px, py, x1, y1, x2, y2);
      var q := PointAt(x1, y1, x2, y2, t);
      SquaredGap(px, py, n.0, n.1) <= SquaredGap(px, py, q.0, q.1)
  {
    var len := SegmentLengthSq(x1, y1, x2, y2);
    var dot := (px - x1) * (x2 - x1) + (py - y1) * (y2 - y1);
    var k := (px - x1) * (px - x1) + (py - y1) * (py - y1);
    SegmentLengthSqBasics(x1, y1, x2, y2);
    var param := ProjectionParam(px, py, x1, y1, x2, y2);
    assert param == dot / len;
    var s := Clamp01(param);
    NearestIsClampedProjection(x1, y1, x2, y2, param);
    var n, qs, qt := NearestOnSegment(px, py, x1, y1, x2, y2), PointAt(x1, y1, x2, y2, s), PointAt(x1, y1, x2, y2, t);
    assert n == qs;
    GapQuadratic(px, py, x1, y1, x2, y2, t, len, dot, k);
    GapQuadratic(px, py, x1, y1, x2, y2, s, len, dot, k);
    ClampedVertexIsMinimum(len, dot, param, s, t);
    calc {
      SquaredGap(px, py, n.0, n.1);
      SquaredGap(px, py, qs.0, qs.1);
      s * s * len - 2.0 * s * dot + k;
    <=
      t * t * len - 2.0 * t * dot + k;
      SquaredGap(px, py, qt.0, qt.1);
    }
  }

  // ---------------------------------------------------------------------
  // Route length and progress

  /** The great-circle length of one leg. */
  function Leg(dist: Metric, from: RoutePoint, to: RoutePoint): real
  {
    dist(from.Latitude, from.Longitude, to.Latitude, to.Longitude)
  }

  /** The length of a route: the sum of its consecutive legs, 0 for a route
      of fewer than two points. */
  function PathLength(dist: Metric, route: seq<RoutePoint>): (total: real)
    ensures total >= 0.0
    decreases |route|
  {
    if |route| < 2 then 0.0
    else PathLength(dist, route[..|route| - 1]) + Leg(dist, route[|route| - 2], route[|route| - 1])
  }

  /** A prefix of a route is never longer than the route. */
  lemma {:induction false} PathLengthPrefix(dist: Metric, route: seq<RoutePoint>, k: nat)
    requires k <= |route|
    ensures PathLength(dist, route[..k]) <= PathLength(dist, route)
    decreases |route|
  {
    if k < |route| {
      var shorter := route[..|route| - 1];
      assert shorter[..k] == route[..k];
      PathLengthPrefix(dist, shorter, k);
    } else {
      assert route[..k] == route;
    }
  }

  /** The length of the base-to-destination route is that of its one leg. */
  lemma FullRouteLength(dist: Metric, destination: RoutePoint)
    ensures PathLength(dist, CreateFullRoute(destination))
         == dist(BaseLatitude, BaseLongitude, destination.Latitude, destination.Longitude)
  {
    var route := CreateFullRoute(destination);
    assert route[..1][..0] == [];
  }

  /** calculateRouteProgress: the straight-line distance from the first route
      point to the position, as a percentage of the route length. */
  function RouteProgress(dist: Metric, route: seq<RoutePoint>, position: DronePosition): (progress: real)
    ensures 0.0 <= progress <= 100.0
    ensures |route| < 2 || PathLength(dist, route) <= 0.0 ==> progress == 100.0
  {
    var total := PathLength(dist, route);
    if |route| < 2 || total <= 0.0 then 100.0
    else
      var covered := dist(route[0].Latitude, route[0].Longitude, position.Latitude, position.Longitude);
      var p := (covered / total) * 100.0;
      if p < 0.0 then 0.0 else if p > 100.0 then 100.0 else p
  }

  /** The straight-line distance from the start. */
  function Covered(dist: Metric, route: seq<RoutePoint>, position: DronePosition): real
    requires |route| > 0
  {
    dist(route[0].Latitude, route[0].Longitude, position.Latitude, position.Longitude)
  }

  /** On a route of positive length, progress is 100 exactly when the
      straight-line distance from the start has reached the route length, and
      0 exactly when the drone is at distance 0 from the start. */
  lemma ProgressEnds(dist: Metric, route: seq<RoutePoint>, position: DronePosition)
    requires |route| >= 2 && PathLength(dist, route) > 0.0
    ensures RouteProgress(dist, route, position) == 100.0
        <==> Covered(dist, route, position) >= PathLength(dist, route)
    ensures RouteProgress(dist, route, position) == 0.0 <==> Covered(dist, route, position) == 0.0
  {
    var total, covered := PathLength(dist, route), Covered(dist, route, position);
    RatioFacts(covered, total);
  }

  lemma RatioFacts(x: real, y: real)
    requires x >= 0.0 && y > 0.0
    ensures x / y >= 0.0
    ensures x >= y <==> (x / y) * 100.0 >= 100.0
    ensures x == 0.0 <==> (x / y) * 100.0 == 0.0
  {
    var q := x / y;
    assert x == q * y;
    if q < 1.0 {
      MulSign(1.0 - q, y);
      assert x - y == -((1.0 - q) * y);
    } else {
      MulSign(q - 1.0, y);
      assert x - y == (q - 1.0) * y;
    }
  }

  lemma MulSign(a: real, b: real)
    requires b > 0.0
    ensures a >= 0.0 ==> a * b >= 0.0
    ensures a > 0.0 ==> a * b > 0.0
  {
  }

  /** Progress never decreases as the drone gets farther from the start. */
  lemma ProgressMonotone(dist: Metric, route: seq<RoutePoint>, a: DronePosition, b: DronePosition)
    requires |route| > 0
    requires Covered(dist, route, a) <= Covered(dist, route, b)
    ensures RouteProgress(dist, route, a) <= RouteProgress(dist, route, b)
  {
    var total := PathLength(dist, route);
    if |route| >= 2 && total > 0.0 {
      var ca, cb := Covered(dist, route, a), Covered(dist, route, b);
      DivideMonotone(ca, cb, total);
    }
  }

  lemma DivideMonotone(x: real, y: real, t: real)
    requires x <= y && t > 0.0
    ensures x / t <= y / t
  {
    assert y / t - x / t == (y - x) / t;
    MulSign(y - x, 1.0 / t);
    assert (y - x) / t == (y - x) * (1.0 / t);
  }

  // ---------------------------------------------------------------------
  // One simulation step

  /** The cruise speed in degrees per tick. */
  function StepDegrees(p: Physics): (s: real)
    ensures s > 0.0
  {
    p.speed / MetresPerDegree
  }

  /** calculateNewPosition: move one tick toward `target`.  Within one step
      the drone lands on the target, keeping its heading; otherwise it moves
      `StepDegrees` along the straight line (latitude, longitude and altitude
      scaled alike) and faces the target.  The progress field is reset to 0,
      as calculateNewPosition's record literal leaves it unset. */
  function NewPosition(p: Physics, current: DronePosition, target: RoutePoint, now: int): (next: DronePosition)
    ensures next.ApplicationId == current.ApplicationId && next.DroneId == current.DroneId
    ensures next.Speed == p.speed && next.Timestamp == now && next.RouteProgress == 0.0
    ensures 0.0 <= current.Heading < 360.0 ==> 0.0 <= next.Heading < 360.0
  {
    var dLat := target.Latitude - current.Latitude;
    var dLon := target.Longitude - current.Longitude;
    var dAlt := target.Altitude - current.Altitude;
    var distance := p.hypot(dLat, dLon);
    var step := StepDegrees(p);
    if distance < step then
      DronePosition(current.ApplicationId, current.DroneId, target.Latitude, target.Longitude,
                    target.Altitude, p.speed, current.Heading, now, 0.0)
    else
      var ratio := step / distance;
      var heading := p.bearing(dLon, dLat);
      DronePosition(current.ApplicationId, current.DroneId,
                    current.Latitude + dLat * ratio, current.Longitude + dLon * ratio,
                    current.Altitude + dAlt * ratio, p.speed,
                    if heading < 0.0 then heading + 360.0 else heading, now, 0.0)
  }

  /** The share of the remaining offset to the target that is still left
      after one step: 0 when the drone lands on the target. */
  function RemainingShare(p: Physics, current: DronePosition, target: RoutePoint): (k: real)
    ensures 0.0 <= k < 1.0
  {
    var distance := p.hypot(target.Latitude - current.Latitude, target.Longitude - current.Longitude);
    var step := StepDegrees(p);
    if distance < step then 0.0
    else
      DivideAtMostOne(step, distance);
      1.0 - step / distance
  }

  lemma DivideAtMostOne(a: real, b: real)
    requires 0.0 < a <= b
    ensures 0.0 < a / b <= 1.0
  {
    var q := a / b;
    assert q * b == a;
    if q > 1.0 {
      MulSign(q - 1.0, b);
      assert a - b == (q - 1.0) * b;
    }
  }

  /** A step never passes the target: afterwards the offset from the new
      position to the target is the old offset scaled by the remaining share,
      in latitude, longitude and altitude alike. */
  lemma NewPositionApproachesTarget(p: Physics, current: DronePosition, target: RoutePoint, now: int)
    ensures var next := NewPosition(p, current, target, now);
      var k := RemainingShare(p, current, target);
      && target.Latitude - next.Latitude == k * (target.Latitude - current.Latitude)
      && target.Longitude - next.Longitude == k * (target.Longitude - current.Longitude)
      && target.Altitude - next.Altitude == k * (target.Altitude - current.Altitude)
  {
    var dLat := target.Latitude - current.Latitude;
    var dLon := target.Longitude - current.Longitude;
    var dAlt := target.Altitude - current.Altitude;
    var distance := p.hypot(dLat, dLon);
    var step := StepDegrees(p);
    var next := NewPosition(p, current, target, now);
    if distance >= step {
      var ratio := step / distance;
      var k := 1.0 - ratio;
      assert target.Latitude - next.Latitude == k * dLat;
      assert target.Longitude - next.Longitude == k * dLon;
      assert target.Altitude - next.Altitude == k * dAlt;
    }
  }
}
