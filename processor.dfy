/** The flight processor of the drone service
    (drones/internal/processor/proccessor.go): it validates flight plans
    against the cached restricted zones, keeps the flights in progress keyed
    by application id, advances them tick by tick and clears the alerts of
    finished flights.  Of its effects on the outside world only the
    application status updates it writes to the database are recorded, in
    `statusLog`; notifications, logging and position saves are not
    modelled. */
module Processor {
  import opened Wrappers
  import opened Geo
  import opened Structures
  import opened RouteGeometry
  import opened ZoneRules
  import opened FlightTick
  import opened Alerts

  /** The explanation stored with a status update. */
  datatype Note =
    | NoNote
    | Forced(reason: string)                              // forceCompleteFlight's reason
    | ZoneStop(zone: RestrictedZone, distanceToBorder: real)  // stopped near a zone

  /** One call of the repository's UpdateApplicationStatus. */
  datatype StatusChange = StatusChange(applicationId: int, status: Status, note: Note)

  /** forceCompleteFlight: a shutdown or a zone stop cancels the flight, any
      other reason completes it. */
  function ForceCompletion(reason: string): (status: Status)
    ensures status == Cancelled <==> reason == "system_shutdown" || reason == "restricted_zone"
    ensures status == Cancelled || status == Completed
  {
    match reason
    case "system_shutdown" => Cancelled
    case "restricted_zone" => Cancelled
    case _ => Completed
  }

  class FlightProcessor {
    /** The configured distance, geometry and cruise speed. */
    const phys: Physics
    var activeFlights: map<int, ActiveFlight>
    var restrictedZones: seq<RestrictedZone>
    var sentAlerts: map<seq<byte>, bool>
    var statusLog: seq<StatusChange>

    /** New: no flights, no zones, no alerts. */
    constructor (phys: Physics)
      ensures this.phys == phys
      ensures activeFlights == map[] && restrictedZones == [] && sentAlerts == map[] && statusLog == []
    {
      this.phys := phys;
      activeFlights := map[];
      restrictedZones := [];
      sentAlerts := map[];
      statusLog := [];
    }

    /** loadRestrictedZones: the cache is replaced by what the repository
        returned, and kept when the read failed (None). */
    method LoadRestrictedZones(loaded: Option<seq<RestrictedZone>>)
      modifies this
      ensures restrictedZones == if loaded.Some? then loaded.value else old(restrictedZones)
      ensures activeFlights == old(activeFlights) && sentAlerts == old(sentAlerts)
      ensures statusLog == old(statusLog)
    {
      if loaded.Some? {
        restrictedZones := loaded.value;
      }
    }

    /** checkLineIntersection: whether some segment of the route comes within
        the zone radius; never for a route of fewer than two points. */
    method CheckLineIntersection(route: seq<RoutePoint>, zone: RestrictedZone) returns (hit: bool)
      ensures hit <==> LineIntersects(phys.dist, route, zone)
      ensures |route| < 2 ==> !hit
    {
      if |route| < 2 {
        return false;
      }
      var zoneRadius := zone.Radius as real;
      var i := 1;
      while i < |route|
        invariant 1 <= i <= |route|
        invariant forall j :: 1 <= j < i ==> SegmentGap(phys.dist, route, j, zone) > zoneRadius
      {
        var start, end := route[i - 1], route[i];
        var minDistance := DistanceToSegment(phys.dist, zone.Latitude, zone.Longtitude,
                                             start.Latitude, start.Longitude, end.Latitude, end.Longitude);
        if minDistance <= zoneRadius {
          assert SegmentGap(phys.dist, route, i, zone) <= zoneRadius;
          return true;
        }
        i := i + 1;
      }
      return false;
    }

    /** checkRouteAgainstZones: zone by zone, every point and then every
        segment; the first failure is the verdict. */
    method CheckRouteAgainstZones(route: seq<RoutePoint>, zones: seq<RestrictedZone>) returns (v: Verdict)
      ensures v == RouteVerdict(phys.dist, route, zones)
    {
      var z := 0;
      while z < |zones|
        invariant 0 <= z <= |zones|
        invariant forall j :: 0 <= j < z ==> ZoneClear(phys.dist, route, zones[j])
      {
        var zone := zones[z];
        var i := 0;
        while i < |route|
          invariant 0 <= i <= |route|
          invariant forall j :: 0 <= j < i ==> !PointInZone(phys.dist, route[j], zone)
        {
          var point := route[i];
          var distance := phys.dist(point.Latitude, point.Longitude, zone.Latitude, zone.Longtitude);
          if distance <= zone.Radius as real {
            FirstBlockingZoneIs(phys.dist, route, zones, z);
            return Reject(PointInside(zone));
          }
          i := i + 1;
        }
        var crosses := CheckLineIntersection(route, zone);
        if crosses {
          FirstBlockingZoneIs(phys.dist, route, zones, z);
          return Reject(PathCrosses(zone));
        }
        z := z + 1;
      }
      return Accept;
    }

    /** validateFlight, given what the repository returned for the
        application's route points (None when the read failed). */
    method ValidateFlight(destinations: Option<seq<RoutePoint>>) returns (v: Verdict)
      ensures v == ValidationVerdict(phys.dist, destinations, restrictedZones)
    {
      if destinations.None? {
        return Reject(RouteUnavailable);
      }
      var points := destinations.value;
      if |points| == 0 {
        return Reject(NoDestination);
      }
      var destination := points[0];
      if destination.Altitude < MinAltitude || destination.Altitude > MaxAltitude {
        return Reject(InvalidAltitude(destination.Altitude));
      }
      var fullRoute := CreateFullRoute(destination);
      v := CheckRouteAgainstZones(fullRoute, restrictedZones);
    }

    /** calculateRouteDistanceMeters: the legs summed in order. */
    method CalculateRouteDistanceMeters(route: seq<RoutePoint>) returns (total: real)
      ensures total == PathLength(phys.dist, route)
    {
      if |route| < 2 {
        return 0.0;
      }
      total := 0.0;
      var i := 1;
      assert route[..1][..0] == [];
      while i < |route|
        invariant 1 <= i <= |route|
        invariant total == PathLength(phys.dist, route[..i])
      {
        assert route[..i + 1][..i] == route[..i];
        total := total + Leg(phys.dist, route[i - 1], route[i]);
        i := i + 1;
      }
      assert route[..i] == route;
    }

    /** calculateRouteProgress for the flight's current position. */
    method CalculateRouteProgress(flight: ActiveFlight) returns (progress: real)
      ensures progress == RouteProgress(phys.dist, flight.Route, flight.CurrentPosition)
    {
      if |flight.Route| < 2 {
        return 100.0;
      }
      var totalDistance := CalculateRouteDistanceMeters(flight.Route);
      if totalDistance <= 0.0 {
        return 100.0;
      }
      var startPoint := flight.Route[0];
      var fromStart := phys.dist(startPoint.Latitude, startPoint.Longitude,
                                 flight.CurrentPosition.Latitude, flight.CurrentPosition.Longitude);
      progress := (fromStart / totalDistance) * 100.0;
      if progress < 0.0 {
        progress := 0.0;
      }
      if progress > 100.0 {
        progress := 100.0;
      }
    }

    /** pauseFlight at time `now`. */
    method PauseFlight(flight: ActiveFlight, now: int)
      modifies flight
      ensures flight.View() == PausedAt(old(flight.View()), now)
      ensures flight.Status == old(flight.Status) && flight.EstimatedEndTime == old(flight.EstimatedEndTime)
    {
      flight.State := FlightState.Paused;
      flight.PauseStartTime := Some(now);
      flight.CurrentPosition := flight.CurrentPosition.(Speed := 0.0);
    }

    /** resumeFlight at time `now`: back to cruise speed. */
    method ResumeFlight(flight: ActiveFlight, now: int)
      modifies flight
      ensures flight.View() == ResumedAt(old(flight.View()), now, phys.speed)
      ensures flight.Status == old(flight.Status) && flight.EstimatedEndTime == old(flight.EstimatedEndTime)
    {
      flight.State := FlightState.Active;
      flight.PauseEndTime := Some(now);
      flight.CurrentPosition := flight.CurrentPosition.(Speed := phys.speed);
    }

    /** checkDemoPause at time `now`: whether the demonstration pause began
        or ended, with the flight changed accordingly. */
    method CheckDemoPause(flight: ActiveFlight, now: int) returns (acted: bool)
      modifies flight
      ensures var step := DemoStep(old(flight.View()), flight.FlightStartTime, now, phys.speed);
        && acted == step.Some?
        && flight.View() == step.GetOr(old(flight.View()))
      ensures flight.Status == old(flight.Status) && flight.EstimatedEndTime == old(flight.EstimatedEndTime)
    {
      if !flight.DemoMode {
        return false;
      }
      var sinceStart := now - flight.FlightStartTime;
      if DemoPauseFrom <= sinceStart < DemoPauseUntil && flight.State == FlightState.Active {
        PauseFlight(flight, now);
        return true;
      }
      if flight.State == FlightState.Paused && flight.PauseStartTime.Some? {
        var sincePause := now - flight.PauseStartTime.value;
        if sincePause >= DemoPauseLength {
          ResumeFlight(flight, now);
          flight.DemoMode := false;
          return true;
        }
      }
      return false;
    }

    /** forceCompleteFlight: records the cancelled or completed status with
        the reason; the flight stays in the table. */
    method ForceCompleteFlight(flight: ActiveFlight, reason: string)
      modifies this
      ensures statusLog == old(statusLog)
        + [StatusChange(flight.ApplicationId, ForceCompletion(reason), Forced(reason))]
      ensures activeFlights == old(activeFlights) && sentAlerts == old(sentAlerts)
      ensures restrictedZones == old(restrictedZones)
    {
      var status := ForceCompletion(reason);
      statusLog := statusLog + [StatusChange(flight.ApplicationId, status, Forced(reason))];
    }

    /** clearAlertsForFlight: every key that belongs to the application is
        deleted and every other key is kept with its value. */
    method ClearAlertsForFlight(applicationId: int)
      modifies this
      ensures sentAlerts == ClearedAlerts(old(sentAlerts), applicationId)
      ensures activeFlights == old(activeFlights) && statusLog == old(statusLog)
      ensures restrictedZones == old(restrictedZones)
    {
      var pending := sentAlerts.Keys;
      while pending != {}
        invariant pending <= old(sentAlerts).Keys
        invariant forall key :: key in sentAlerts <==>
          key in old(sentAlerts) && (key in pending || !BelongsTo(key, applicationId))
        invariant forall key :: key in sentAlerts ==> sentAlerts[key] == old(sentAlerts)[key]
        invariant activeFlights == old(activeFlights) && statusLog == old(statusLog)
        invariant restrictedZones == old(restrictedZones)
        decreases pending
      {
        var key :| key in pending;
        if |key| > 0 && key[..1] == EncodeRune(Int32(applicationId)) {
          sentAlerts := sentAlerts - {key};
        }
        pending := pending - {key};
      }
      assert sentAlerts.Keys == ClearedAlerts(old(sentAlerts), applicationId).Keys;
    }

    /** stopFlightAndRemoveApplication: the application is cancelled with the
        zone and the distance to its border, and the flight leaves the
        table. */
    method StopFlightAndRemoveApplication(flight: ActiveFlight, zone: RestrictedZone, distanceToBorder: real)
      modifies this
      ensures statusLog == old(statusLog)
        + [StatusChange(flight.ApplicationId, Cancelled, ZoneStop(zone, distanceToBorder))]
      ensures activeFlights == old(activeFlights) - {flight.ApplicationId}
      ensures sentAlerts == old(sentAlerts) && restrictedZones == old(restrictedZones)
    {
      statusLog := statusLog + [StatusChange(flight.ApplicationId, Cancelled, ZoneStop(zone, distanceToBorder))];
      activeFlights := activeFlights - {flight.ApplicationId};
    }

    /** checkRestrictedZoneProximity: stops the flight at the first zone
        whose border is within the stop distance, and reports whether it
        did. */
    method CheckRestrictedZoneProximity(flight: ActiveFlight) returns (stopped: bool)
      modifies this
      ensures var k := FirstStopZone(phys.dist, flight.CurrentPosition, old(restrictedZones));
        && stopped == k.Some?
        && (k.Some? ==>
              && statusLog == old(statusLog) + [StatusChange(flight.ApplicationId, Cancelled,
                   ZoneStop(old(restrictedZones)[k.value],
                            BorderDistance(phys.dist, flight.CurrentPosition, old(restrictedZones)[k.value])))]
              && activeFlights == old(activeFlights) - {flight.ApplicationId})
        && (k.None? ==> statusLog == old(statusLog) && activeFlights == old(activeFlights))
      ensures sentAlerts == old(sentAlerts) && restrictedZones == old(restrictedZones)
    {
      var zones := restrictedZones;
      var i := 0;
      while i < |zones|
        invariant 0 <= i <= |zones|
        invariant forall j :: 0 <= j < i ==> !TooClose(phys.dist, flight.CurrentPosition, zones[j])
        invariant statusLog == old(statusLog) && activeFlights == old(activeFlights)
        invariant sentAlerts == old(sentAlerts) && restrictedZones == old(restrictedZones)
      {
        var zone := zones[i];
        var distanceToCenter := phys.dist(flight.CurrentPosition.Latitude, flight.CurrentPosition.Longitude,
                                          zone.Latitude, zone.Longtitude);
        var distanceToBorder := distanceToCenter - zone.Radius as real;
        if distanceToBorder <= StopDistance {
          FirstStopZoneIs(phys.dist, flight.CurrentPosition, zones, i);
          StopFlightAndRemoveApplication(flight, zone, distanceToBorder);
          return true;
        }
        i := i + 1;
      }
      return false;
    }

    /** completeFlight: progress 100, the application's alerts cleared, the
        application completed and the flight out of the table. */
    method CompleteFlight(flight: ActiveFlight)
      modifies this, flight
      ensures flight.View() == Complete(old(flight.View()))
      ensures flight.Status == old(flight.Status) && flight.EstimatedEndTime == old(flight.EstimatedEndTime)
      ensures sentAlerts == ClearedAlerts(old(sentAlerts), flight.ApplicationId)
      ensures statusLog == old(statusLog) + [StatusChange(flight.ApplicationId, Completed, NoNote)]
      ensures activeFlights == old(activeFlights) - {flight.ApplicationId}
      ensures restrictedZones == old(restrictedZones)
    {
      flight.CurrentPosition := flight.CurrentPosition.(RouteProgress := 100.0);
      ClearAlertsForFlight(flight.ApplicationId);
      statusLog := statusLog + [StatusChange(flight.ApplicationId, Completed, NoNote)];
      activeFlights := activeFlights - {flight.ApplicationId};
    }

    /** The tables after a tick of flight `id` with effect `e`, given the
        tables before it: an arrival completes the application, clears its
        alerts and removes the flight; a stop cancels the application and
        removes the flight; anything else leaves them alone. */
    predicate TablesAfter(e: Effect, id: int, log: seq<StatusChange>,
                          flights: map<int, ActiveFlight>, alerts: map<seq<byte>, bool>)
      reads this
    {
      match e
      case Arrived =>
        && statusLog == log + [StatusChange(id, Completed, NoNote)]
        && activeFlights == flights - {id}
        && sentAlerts == ClearedAlerts(alerts, id)
      case Stopped(zone, distanceToBorder) =>
        && statusLog == log + [StatusChange(id, Cancelled, ZoneStop(zone, distanceToBorder))]
        && activeFlights == flights - {id}
        && sentAlerts == alerts
      case _ =>
        statusLog == log && activeFlights == flights && sentAlerts == alerts
    }

    /** The moving part of updateSingleFlight, for a flight that is active
        and before its last waypoint. */
    method AdvanceFlight(flight: ActiveFlight, now: int)
      requires flight.CurrentWaypoint < |flight.Route|
      modifies this, flight
      ensures var r := Advance(phys, flight.Route, old(flight.View()), old(restrictedZones), now);
        && flight.View() == r.view
        && TablesAfter(r.effect, flight.ApplicationId, old(statusLog), old(activeFlights), old(sentAlerts))
      ensures flight.Status == old(flight.Status) && flight.EstimatedEndTime == old(flight.EstimatedEndTime)
      ensures restrictedZones == old(restrictedZones)
    {
      var target := flight.Route[flight.CurrentWaypoint];
      var newPosition := NewPosition(phys, flight.CurrentPosition, target, now);
      var distance := phys.dist(newPosition.Latitude, newPosition.Longitude, target.Latitude, target.Longitude);
      if distance < WaypointRadius {
        flight.CurrentWaypoint := flight.CurrentWaypoint + 1;
        if flight.CurrentWaypoint >= |flight.Route| {
          CompleteFlight(flight);
          return;
        }
      }
      flight.CurrentPosition := newPosition;
      var progress := CalculateRouteProgress(flight);
      flight.CurrentPosition := flight.CurrentPosition.(RouteProgress := progress);
      var stopped := CheckRestrictedZoneProximity(flight);
    }

    /** updateSingleFlight at time `now`: the flight's new state is the one
        `Tick` gives, and its effect decides the tables (`TablesAfter`). */
    method UpdateSingleFlight(flight: ActiveFlight, now: int)
      modifies this, flight
      ensures var r := Tick(phys, flight.Route, flight.FlightStartTime, old(flight.View()), old(restrictedZones), now);
        && flight.View() == r.view
        && TablesAfter(r.effect, flight.ApplicationId, old(statusLog), old(activeFlights), old(sentAlerts))
      ensures flight.Status == old(flight.Status) && flight.EstimatedEndTime == old(flight.EstimatedEndTime)
      ensures restrictedZones == old(restrictedZones)
    {
      if flight.DemoMode {
        var acted := CheckDemoPause(flight, now);
        if acted {
          return;
        }
      }
      if flight.State == FlightState.Paused {
        return;
      }
      if flight.CurrentWaypoint >= |flight.Route| {
        CompleteFlight(flight);
        return;
      }
      AdvanceFlight(flight, now);
    }

    /** startFlight, given what the repository returned for the
        application's route points: nothing happens without a destination;
        otherwise a fresh flight from the base to the first destination is
        entered under the application id, due after the route length at
        cruise speed (whole seconds, truncated), its alerts are cleared and
        the application is marked executing. */
    method StartFlight(app: Application, destinations: Option<seq<RoutePoint>>, now: int)
      modifies this
      ensures destinations.None? || |destinations.value| == 0 ==>
        && activeFlights == old(activeFlights) && statusLog == old(statusLog)
        && sentAlerts == old(sentAlerts)
      ensures destinations.Some? && |destinations.value| > 0 ==>
        && app.Id in activeFlights
        && var flight := activeFlights[app.Id];
        && fresh(flight)
        && activeFlights == old(activeFlights)[app.Id := flight]
        && flight.ApplicationId == app.Id
        && flight.DroneId == app.DroneId && flight.PilotId == app.PilotId
        && flight.Route == CreateFullRoute(destinations.value[0])
        && flight.StartTime == now && flight.FlightStartTime == now
        && flight.Status == Executing
        && flight.CurrentPosition
           == DronePosition(app.Id, app.DroneId, BaseLatitude, BaseLongitude, 0.0, 0.0, 0.0, now, 0.0)
        && flight.PauseStartTime.None? && flight.PauseEndTime.None?
        && flight.EstimatedEndTime
           == now + (PathLength(phys.dist, flight.Route) / phys.speed).Floor * Second
        && flight.CurrentWaypoint == 0 && flight.State == FlightState.Active
        && (flight.DemoMode <==> app.Tested == 1)
        && sentAlerts == ClearedAlerts(old(sentAlerts), app.Id)
        && statusLog == old(statusLog) + [StatusChange(app.Id, Executing, NoNote)]
      ensures restrictedZones == old(restrictedZones)
    {
      if destinations.None? || |destinations.value| == 0 {
        return;
      }
      var fullRoute := CreateFullRoute(destinations.value[0]);
      var flight := new ActiveFlight(app, fullRoute, now);
      var totalDistance := CalculateRouteDistanceMeters(fullRoute);
      var flightSeconds := totalDistance / phys.speed;
      flight.EstimatedEndTime := now + flightSeconds.Floor * Second;
      activeFlights := activeFlights[app.Id := flight];
      ClearAlertsForFlight(app.Id);
      statusLog := statusLog + [StatusChange(app.Id, Executing, NoNote)];
    }
  }
}
