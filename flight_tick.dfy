/** One simulation tick of one active flight (updateSingleFlight with
    checkDemoPause, pauseFlight, resumeFlight, checkRestrictedZoneProximity
    and the state change of completeFlight in
    drones/internal/processor/proccessor.go), as a function from the flight's
    changing state to its next state and the effect the processor acts on. */
module FlightTick {
  import opened Wrappers
  import opened Geo
  import opened Structures
  import opened RouteGeometry

  /** One second in nanoseconds. */
  const Second: int := 1_000_000_000
  /** A demonstration flight pauses when between 30 and 31 seconds have
      passed since take-off, and resumes 10 seconds after pausing. */
  const DemoPauseFrom: int := 30 * Second
  const DemoPauseUntil: int := 31 * Second
  const DemoPauseLength: int := 10 * Second
  /** A waypoint counts as reached below this many metres. */
  const WaypointRadius: real := 10.0
  /** A flight is stopped this close (in metres) to a zone border. */
  const StopDistance: real := 100.0

  /** What the processor does after the tick. */
  datatype Effect =
    | Held                                       // nothing changed
    | DemoPaused                                 // the demonstration pause began
    | DemoResumed                                // the demonstration pause ended
    | Moved                                      // a new position is published
    | Arrived                                    // the flight reached its destination
    | Stopped(zone: RestrictedZone, distanceToBorder: real)  // too close to a zone

  datatype TickResult = TickResult(view: FlightView, effect: Effect)

  /** pauseFlight: held in place with zero speed since `now`. */
  function PausedAt(v: FlightView, now: int): (w: FlightView)
    ensures w.State == FlightState.Paused && w.PauseStartTime == Some(now)
    ensures w.CurrentPosition == v.CurrentPosition.(Speed := 0.0)
    ensures w.(State := v.State, PauseStartTime := v.PauseStartTime,
               CurrentPosition := v.CurrentPosition) == v
  {
    v.(State := FlightState.Paused, PauseStartTime := Some(now),
       CurrentPosition := v.CurrentPosition.(Speed := 0.0))
  }

  /** resumeFlight: moving again at cruise speed since `now`. */
  function ResumedAt(v: FlightView, now: int, speed: Speed): (w: FlightView)
    ensures w.State == FlightState.Active && w.PauseEndTime == Some(now)
    ensures w.CurrentPosition == v.CurrentPosition.(Speed := speed)
    ensures w.(State := v.State, PauseEndTime := v.PauseEndTime,
               CurrentPosition := v.CurrentPosition) == v
  {
    v.(State := FlightState.Active, PauseEndTime := Some(now),
       CurrentPosition := v.CurrentPosition.(Speed := speed))
  }

  /** checkDemoPause: the new state when the demonstration pause starts or
      ends at `now`, None when it does neither. */
  function DemoStep(v: FlightView, flightStart: int, now: int, speed: Speed): (r: Option<FlightView>)
    ensures !v.DemoMode ==> r.None?
    ensures r.Some? && v.State == FlightState.Active ==>
      && DemoPauseFrom <= now - flightStart < DemoPauseUntil
      && r.value == PausedAt(v, now)
    ensures r.Some? && v.State == FlightState.Paused ==>
      && v.PauseStartTime.Some? && now - v.PauseStartTime.value >= DemoPauseLength
      && r.value == ResumedAt(v, now, speed).(DemoMode := false)
    ensures r.None? && v.DemoMode && v.State == FlightState.Active ==>
      !(DemoPauseFrom <= now - flightStart < DemoPauseUntil)
    ensures (v.DemoMode && v.State == FlightState.Paused && v.PauseStartTime.Some?
             && now - v.PauseStartTime.value >= DemoPauseLength) ==> r.Some?
  {
    if !v.DemoMode then None
    else
      var elapsed := now - flightStart;
      if DemoPauseFrom <= elapsed < DemoPauseUntil && v.State == FlightState.Active then
        Some(PausedAt(v, now))
      else if v.State == FlightState.Paused && v.PauseStartTime.Some?
              && now - v.PauseStartTime.value >= DemoPauseLength then
        Some(ResumedAt(v, now, speed).(DemoMode := false))
      else None
  }

  /** The drone is within the stop distance of the zone's border (or inside). */
  predicate TooClose(dist: Metric, position: DronePosition, zone: RestrictedZone)
  {
    BorderDistance(dist, position, zone) <= StopDistance
  }

  function BorderDistance(dist: Metric, position: DronePosition, zone: RestrictedZone): real
  {
    dist(position.Latitude, position.Longitude, zone.Latitude, zone.Longtitude) - zone.Radius as real
  }

  /** checkRestrictedZoneProximity: the first zone, in list order, whose
      border the drone is too close to. */
  function FirstStopZone(dist: Metric, position: DronePosition, zones: seq<RestrictedZone>): (k: Option<nat>)
    ensures k.Some? ==> k.value < |zones| && TooClose(dist, position, zones[k.value])
    ensures k.Some? ==> forall j :: 0 <= j < k.value ==> !TooClose(dist, position, zones[j])
    ensures k.None? <==> forall j :: 0 <= j < |zones| ==> !TooClose(dist, position, zones[j])
    decreases |zones|
  {
    if zones == [] then None
    else if TooClose(dist, position, zones[0]) then Some(0)
    else match FirstStopZone(dist, position, zones[1..])
      case None => None
      case Some(k) => Some(k + 1)
  }

  /** A zone the drone is too close to, after a run of zones it is not too
      close to, is the first stop zone. */
  lemma FirstStopZoneIs(dist: Metric, position: DronePosition, zones: seq<RestrictedZone>, k: nat)
    requires k < |zones| && TooClose(dist, position, zones[k])
    requires forall j :: 0 <= j < k ==> !TooClose(dist, position, zones[j])
    ensures FirstStopZone(dist, position, zones) == Some(k)
  {
  }

  /** completeFlight's change to the flight: progress 100. */
  function Complete(v: FlightView): (w: FlightView)
    ensures w.CurrentPosition.RouteProgress == 100.0
    ensures w.(CurrentPosition := v.CurrentPosition) == v
    ensures w.CurrentPosition.(RouteProgress := v.CurrentPosition.RouteProgress) == v.CurrentPosition
  {
    v.(CurrentPosition := v.CurrentPosition.(RouteProgress := 100.0))
  }

  /** updateSingleFlight at time `now`, for a flight on `route` that took off
      at `flightStart`, with the current list of zones.  Demonstration
      pausing comes first, a paused flight stays put, a flight past its last
      waypoint completes; otherwise the drone moves toward the current
      waypoint, steps to the next waypoint when the new position is within
      10 m of it (completing, without taking the new position, when that was
      the last one), recomputes its progress and is stopped when it is too
      close to a zone. */
  function Tick(p: Physics, route: seq<RoutePoint>, flightStart: int, v: FlightView,
                zones: seq<RestrictedZone>, now: int): (r: TickResult)
    // the waypoint index never goes back and advances by at most one
    ensures v.CurrentWaypoint <= r.view.CurrentWaypoint <= v.CurrentWaypoint + 1
    // a completed flight is past its last waypoint with progress 100 and
    // has not moved in this tick
    ensures r.effect == Arrived ==>
      && r.view.CurrentWaypoint >= |route|
      && r.view.CurrentPosition.RouteProgress == 100.0
      && r.view.CurrentPosition.(RouteProgress := v.CurrentPosition.RouteProgress) == v.CurrentPosition
    // a flight that moves or is stopped was active, is still before its last
    // waypoint, has taken one step toward the waypoint it was heading for and
    // carries a progress in [0, 100]
    ensures r.effect.Moved? || r.effect.Stopped? ==>
      && v.State == FlightState.Active
      && v.CurrentWaypoint < |route|
      && r.view.CurrentWaypoint < |route|
      && r.view.CurrentPosition.(RouteProgress := 0.0)
         == NewPosition(p, v.CurrentPosition, route[v.CurrentWaypoint], now)
      && 0.0 <= r.view.CurrentPosition.RouteProgress <= 100.0
    // only the demonstration pause and resume change the mode fields
    ensures r.effect != DemoPaused && r.effect != DemoResumed ==>
      && r.view.State == v.State && r.view.DemoMode == v.DemoMode
      && r.view.PauseStartTime == v.PauseStartTime && r.view.PauseEndTime == v.PauseEndTime
    // a paused flight that is not due to resume is left exactly as it was
    ensures (DemoStep(v, flightStart, now, p.speed).None? && v.State == FlightState.Paused) ==>
      r == TickResult(v, Held)
    ensures v.State == FlightState.Paused && r.effect != DemoResumed ==> r == TickResult(v, Held)
    // an arrival past the last waypoint leaves the waypoint index alone
    ensures (DemoStep(v, flightStart, now, p.speed).None? && v.State == FlightState.Active
             && v.CurrentWaypoint >= |route|) ==>
      r.view == Complete(v)
    ensures r.effect == DemoPaused ==> v.DemoMode && r.view.State == FlightState.Paused
    ensures r.effect == DemoResumed ==> !r.view.DemoMode && r.view.State == FlightState.Active
    // after a move the drone is farther than the stop distance from every
    // zone border; a stop names a zone of the list it is too close to
    ensures r.effect == Moved ==>
      forall j :: 0 <= j < |zones| ==> BorderDistance(p.dist, r.view.CurrentPosition, zones[j]) > StopDistance
    ensures r.effect.Stopped? ==>
      && r.effect.zone in zones
      && r.effect.distanceToBorder == BorderDistance(p.dist, r.view.CurrentPosition, r.effect.zone)
      && r.effect.distanceToBorder <= StopDistance
    // the stop is at the first zone, in list order, that is too close
    ensures r.effect.Stopped? ==>
      var k := FirstStopZone(p.dist, r.view.CurrentPosition, zones);
      k.Some? && r.effect.zone == zones[k.value]
    // a moved or stopped flight carries the progress of its new position
    ensures r.effect.Moved? || r.effect.Stopped? ==>
      r.view.CurrentPosition.RouteProgress == RouteProgress(p.dist, route, r.view.CurrentPosition)
    // a demonstration step, when due, is all that happens
    ensures DemoStep(v, flightStart, now, p.speed).Some? ==>
      && r.view == DemoStep(v, flightStart, now, p.speed).value
      && (r.effect == DemoPaused || r.effect == DemoResumed)
    // otherwise an active flight past its last waypoint completes, and one
    // before it moves, completes or is stopped
    ensures DemoStep(v, flightStart, now, p.speed).None? && v.State == FlightState.Active ==>
      && (v.CurrentWaypoint >= |route| ==> r.effect == Arrived)
      && (v.CurrentWaypoint < |route| ==> r.effect == Arrived || r.effect == Moved || r.effect.Stopped?)
    // the waypoint advances exactly when the new position is within 10 m of
    // it, and the flight arrives exactly when that was the last waypoint
    ensures (DemoStep(v, flightStart, now, p.speed).None? && v.State == FlightState.Active
             && v.CurrentWaypoint < |route|) ==>
      var target := route[v.CurrentWaypoint];
      var next := NewPosition(p, v.CurrentPosition, target, now);
      && (r.view.CurrentWaypoint == v.CurrentWaypoint + 1
          <==> p.dist(next.Latitude, next.Longitude, target.Latitude, target.Longitude) < WaypointRadius)
      && (r.effect == Arrived <==> r.view.CurrentWaypoint == |route|)
  {
    var demo := DemoStep(v, flightStart, now, p.speed);
    if demo.Some? then
      TickResult(demo.value, if v.State == FlightState.Active then DemoPaused else DemoResumed)
    else if v.State == FlightState.Paused then TickResult(v, Held)
    else if v.CurrentWaypoint >= |route| then TickResult(Complete(v), Arrived)
    else Advance(p, route, v, zones, now)
  }

  /** The moving part of a tick, for a flight before its last waypoint. */
  function Advance(p: Physics, route: seq<RoutePoint>, v: FlightView,
                   zones: seq<RestrictedZone>, now: int): (r: TickResult)
    requires v.CurrentWaypoint < |route|
    ensures v.CurrentWaypoint <= r.view.CurrentWaypoint <= v.CurrentWaypoint + 1
    ensures r.effect == Arrived || r.effect == Moved || r.effect.Stopped?
    ensures r.effect == Arrived ==>
      && r.view.CurrentWaypoint >= |route|
      && r.view.CurrentPosition.RouteProgress == 100.0
      && r.view.CurrentPosition.(RouteProgress := v.CurrentPosition.RouteProgress) == v.CurrentPosition
    ensures r.effect.Moved? || r.effect.Stopped? ==>
      && r.view.CurrentWaypoint < |route|
      && r.view.CurrentPosition.(RouteProgress := 0.0)
         == NewPosition(p, v.CurrentPosition, route[v.CurrentWaypoint], now)
      && 0.0 <= r.view.CurrentPosition.RouteProgress <= 100.0
    ensures r.view.State == v.State && r.view.DemoMode == v.DemoMode
    ensures r.view.PauseStartTime == v.PauseStartTime && r.view.PauseEndTime == v.PauseEndTime
    ensures r.effect == Moved ==>
      forall j :: 0 <= j < |zones| ==> BorderDistance(p.dist, r.view.CurrentPosition, zones[j]) > StopDistance
    ensures r.effect.Stopped? ==>
      && r.effect.zone in zones
      && r.effect.distanceToBorder == BorderDistance(p.dist, r.view.CurrentPosition, r.effect.zone)
      && r.effect.distanceToBorder <= StopDistance
    ensures r.effect.Stopped? ==>
      var k := FirstStopZone(p.dist, r.view.CurrentPosition, zones);
      k.Some? && r.effect.zone == zones[k.value]
    ensures r.effect.Moved? || r.effect.Stopped? ==>
      r.view.CurrentPosition.RouteProgress == RouteProgress(p.dist, route, r.view.CurrentPosition)
    ensures var target := route[v.CurrentWaypoint];
      var next := NewPosition(p, v.CurrentPosition, target, now);
      && (r.view.CurrentWaypoint == v.CurrentWaypoint + 1
          <==> p.dist(next.Latitude, next.Longitude, target.Latitude, target.Longitude) < WaypointRadius)
      && (r.effect == Arrived <==> r.view.CurrentWaypoint == |route|)
  {
    var target := route[v.CurrentWaypoint];
    var next := NewPosition(p, v.CurrentPosition, target, now);
    var reached := p.dist(next.Latitude, next.Longitude, target.Latitude, target.Longitude) < WaypointRadius;
    var waypoint := if reached then v.CurrentWaypoint + 1 else v.CurrentWaypoint;
    if waypoint >= |route| then
      TickResult(Complete(v.(CurrentWaypoint := waypoint)), Arrived)
    else
      var position := next.(RouteProgress := RouteProgress(p.dist, route, next));
      var w := v.(CurrentWaypoint := waypoint, CurrentPosition := position);
      match FirstStopZone(p.dist, position, zones)
      case Some(k) => TickResult(w, Stopped(zones[k], BorderDistance(p.dist, position, zones[k])))
      case None => TickResult(w, Moved)
  }

  // ---------------------------------------------------------------------
  // A run of ticks

  /** The inputs of one tick: the time and the zones loaded at that time. */
  datatype Moment = Moment(now: int, zones: seq<RestrictedZone>)

  function IsFinal(e: Effect): bool
  {
    e == Arrived || e.Stopped?
  }

  /** The number of demonstration pauses in a run of ticks, up to the tick at
      which the flight completes or is stopped. */
  function DemoPauseCount(p: Physics, route: seq<RoutePoint>, flightStart: int, v: FlightView,
                          moments: seq<Moment>): nat
    decreases |moments|
  {
    if moments == [] then 0
    else
      var r := Tick(p, route, flightStart, v, moments[0].zones, moments[0].now);
      var here := if r.effect == DemoPaused then 1 else 0;
      if IsFinal(r.effect) then here
      else here + DemoPauseCount(p, route, flightStart, r.view, moments[1..])
  }

  /** Pauses still possible: one for an active flight in demonstration
      mode, none otherwise. */
  function PauseBudget(v: FlightView): (n: nat)
    ensures n <= 1
  {
    if v.DemoMode && v.State == FlightState.Active then 1 else 0
  }

  /** Whatever the timing, a flight pauses for demonstration at most once,
      and never when it starts outside demonstration mode. */
  lemma {:induction false} DemoPausesAtMostOnce(p: Physics, route: seq<RoutePoint>, flightStart: int,
                                                v: FlightView, moments: seq<Moment>)
    ensures DemoPauseCount(p, route, flightStart, v, moments) <= PauseBudget(v)
    decreases |moments|
  {
    if moments != [] {
      var r := Tick(p, route, flightStart, v, moments[0].zones, moments[0].now);
      DemoPausesAtMostOnce(p, route, flightStart, r.view, moments[1..]);
    }
  }
}
