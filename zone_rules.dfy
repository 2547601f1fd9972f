/** The decision whether a flight plan may be approved
    (validateFlight, checkRouteAgainstZones and checkLineIntersection in
    drones/internal/processor/proccessor.go), as specification functions.
    The zones are examined in list order; for each zone the route points are
    tested before the route segments, and the first zone that fails decides
    the rejection reason.  The boundary counts as inside. */
module ZoneRules {
  import opened Wrappers
  import opened Geo
  import opened Structures
  import opened RouteGeometry

  /** The lowest and highest destination altitude accepted, in metres. */
  const MinAltitude: real := 0.0
  const MaxAltitude: real := 500.0

  /** Why a flight plan was rejected; each case carries the values its
      message interpolates. */
  datatype Reason =
    | RouteUnavailable                    // the route could not be loaded
    | NoDestination                       // the plan has no route point
    | InvalidAltitude(altitude: real)     // outside [0, 500] metres
    | PointInside(zone: RestrictedZone)   // a route point lies in the zone
    | PathCrosses(zone: RestrictedZone)   // a route segment comes within the radius

  datatype Verdict = Accept | Reject(reason: Reason)

  /** A route point lies inside (or on the border of) a zone. */
  predicate PointInZone(dist: Metric, point: RoutePoint, zone: RestrictedZone)
  {
    dist(point.Latitude, point.Longitude, zone.Latitude, zone.Longtitude) <= zone.Radius as real
  }

  predicate AnyPointInZone(dist: Metric, route: seq<RoutePoint>, zone: RestrictedZone)
  {
    exists i :: 0 <= i < |route| && PointInZone(dist, route[i], zone)
  }

  /** The distance from the zone centre to segment i-1 .. i of the route. */
  function SegmentGap(dist: Metric, route: seq<RoutePoint>, i: int, zone: RestrictedZone): real
    requires 1 <= i < |route|
  {
    DistanceToSegment(dist, zone.Latitude, zone.Longtitude,
                      route[i - 1].Latitude, route[i - 1].Longitude,
                      route[i].Latitude, route[i].Longitude)
  }

  /** Some consecutive segment of the route comes within the zone radius. */
  predicate LineIntersects(dist: Metric, route: seq<RoutePoint>, zone: RestrictedZone)
  {
    exists i :: 1 <= i < |route| && SegmentGap(dist, route, i, zone) <= zone.Radius as real
  }

  /** A zone the route neither enters nor crosses. */
  predicate ZoneClear(dist: Metric, route: seq<RoutePoint>, zone: RestrictedZone)
  {
    !AnyPointInZone(dist, route, zone) && !LineIntersects(dist, route, zone)
  }

  /** The verdict of one zone: the point test takes precedence. */
  function ZoneVerdict(dist: Metric, route: seq<RoutePoint>, zone: RestrictedZone): (v: Verdict)
    ensures v == Accept <==> ZoneClear(dist, route, zone)
    ensures v.Reject? ==> v.reason.PointInside? || v.reason.PathCrosses?
    ensures v.Reject? ==> v.reason.zone == zone
    ensures v.Reject? ==> (v.reason.PointInside? <==> AnyPointInZone(dist, route, zone))
  {
    if AnyPointInZone(dist, route, zone) then Reject(PointInside(zone))
    else if LineIntersects(dist, route, zone) then Reject(PathCrosses(zone))
    else Accept
  }

  /** The index of the first zone, in list order, that the route is not
      clear of. */
  function FirstBlockingZone(dist: Metric, route: seq<RoutePoint>, zones: seq<RestrictedZone>): (k: Option<nat>)
    ensures k.Some? ==> k.value < |zones| && !ZoneClear(dist, route, zones[k.value])
    ensures k.Some? ==> forall j :: 0 <= j < k.value ==> ZoneClear(dist, route, zones[j])
    ensures k.None? <==> forall j :: 0 <= j < |zones| ==> ZoneClear(dist, route, zones[j])
    decreases |zones|
  {
    if zones == [] then None
    else if !ZoneClear(dist, route, zones[0]) then Some(0)
    else match FirstBlockingZone(dist, route, zones[1..])
      case None => None
      case Some(k) => Some(k + 1)
  }

  /** A zone that fails after a run of clear ones is the first blocking zone. */
  lemma FirstBlockingZoneIs(dist: Metric, route: seq<RoutePoint>, zones: seq<RestrictedZone>, k: nat)
    requires k < |zones| && !ZoneClear(dist, route, zones[k])
    requires forall j :: 0 <= j < k ==> ZoneClear(dist, route, zones[j])
    ensures FirstBlockingZone(dist, route, zones) == Some(k)
  {
  }

  /** checkRouteAgainstZones.  A route is accepted exactly when it is clear
      of every zone; a rejection names the first zone of the list that the
      route is not clear of, and it is a "point inside" rejection exactly
      when some route point lies in that zone. */
  function RouteVerdict(dist: Metric, route: seq<RoutePoint>, zones: seq<RestrictedZone>): (v: Verdict)
    ensures v == Accept <==> forall j :: 0 <= j < |zones| ==> ZoneClear(dist, route, zones[j])
    ensures v.Reject? ==> v.reason.PointInside? || v.reason.PathCrosses?
    ensures v.Reject? ==>
      (exists k :: 0 <= k < |zones| && v.reason.zone == zones[k]
        && !ZoneClear(dist, route, zones[k])
        && (forall j :: 0 <= j < k ==> ZoneClear(dist, route, zones[j]))
        && (v.reason.PointInside? <==> AnyPointInZone(dist, route, zones[k])))
  {
    match FirstBlockingZone(dist, route, zones)
    case None => Accept
    case Some(k) => ZoneVerdict(dist, route, zones[k])
  }

  /** Checking a list in two parts: the first part decides unless it is all
      clear, in which case the second part does. */
  lemma {:induction false} RouteVerdictAppend(dist: Metric, route: seq<RoutePoint>,
                                              first: seq<RestrictedZone>, rest: seq<RestrictedZone>)
    ensures RouteVerdict(dist, route, first + rest)
         == if RouteVerdict(dist, route, first).Reject? then RouteVerdict(dist, route, first)
            else RouteVerdict(dist, route, rest)
    decreases |first|
  {
    if first == [] {
      assert first + rest == rest;
    } else {
      assert (first + rest)[1..] == first[1..] + rest;
      assert (first + rest)[0] == first[0];
      if ZoneClear(dist, route, first[0]) {
        RouteVerdictAppend(dist, route, first[1..], rest);
        RouteVerdictTail(dist, route, first);
        RouteVerdictTail(dist, route, first + rest);
      }
    }
  }

  /** When the first zone is clear, the verdict is that of the rest. */
  lemma RouteVerdictTail(dist: Metric, route: seq<RoutePoint>, zones: seq<RestrictedZone>)
    requires zones != [] && ZoneClear(dist, route, zones[0])
    ensures RouteVerdict(dist, route, zones) == RouteVerdict(dist, route, zones[1..])
  {
    match FirstBlockingZone(dist, route, zones[1..])
    case None =>
    case Some(k) =>
      assert zones[k + 1] == zones[1..][k];
  }

  /** A route of fewer than two points has no segment to cross a zone. */
  lemma ShortRouteNeverIntersects(dist: Metric, route: seq<RoutePoint>, zone: RestrictedZone)
    requires |route| < 2
    ensures !LineIntersects(dist, route, zone)
  {
  }

  /** validateFlight, given the outcome of loading the plan's route points
      (None when the database read failed) and the current zones. */
  function ValidationVerdict(dist: Metric, destinations: Option<seq<RoutePoint>>, zones: seq<RestrictedZone>): (v: Verdict)
    ensures v == Reject(RouteUnavailable) <==> destinations.None?
    ensures v == Reject(NoDestination) <==> destinations.Some? && |destinations.value| == 0
    ensures v.Reject? && v.reason.InvalidAltitude? <==>
      destinations.Some? && |destinations.value| > 0
      && !(MinAltitude <= destinations.value[0].Altitude <= MaxAltitude)
    ensures v == Accept <==>
      destinations.Some? && |destinations.value| > 0
      && MinAltitude <= destinations.value[0].Altitude <= MaxAltitude
      && forall j :: 0 <= j < |zones| ==> ZoneClear(dist, CreateFullRoute(destinations.value[0]), zones[j])
    ensures (destinations.Some? && |destinations.value| > 0
             && MinAltitude <= destinations.value[0].Altitude <= MaxAltitude) ==>
      v == RouteVerdict(dist, CreateFullRoute(destinations.value[0]), zones)
  {
    match destinations
    case None => Reject(RouteUnavailable)
    case Some(points) =>
      if |points| == 0 then Reject(NoDestination)
      else if points[0].Altitude < MinAltitude || points[0].Altitude > MaxAltitude then
        Reject(InvalidAltitude(points[0].Altitude))
      else RouteVerdict(dist, CreateFullRoute(points[0]), zones)
  }

  /** An approved plan has a first point within the altitude range, and both
      the base and that point lie outside every zone, as does the straight
      leg between them. */
  lemma ApprovedPlanIsSafe(dist: Metric, destinations: Option<seq<RoutePoint>>, zones: seq<RestrictedZone>)
    requires ValidationVerdict(dist, destinations, zones) == Accept
    ensures destinations.Some? && |destinations.value| > 0
    ensures MinAltitude <= destinations.value[0].Altitude <= MaxAltitude
    ensures forall j :: 0 <= j < |zones| ==>
      var route := CreateFullRoute(destinations.value[0]);
      && !PointInZone(dist, route[0], zones[j])
      && !PointInZone(dist, destinations.value[0], zones[j])
      && SegmentGap(dist, route, 1, zones[j]) > zones[j].Radius as real
  {
    var route := CreateFullRoute(destinations.value[0]);
    forall j | 0 <= j < |zones|
      ensures !PointInZone(dist, route[0], zones[j])
      ensures !PointInZone(dist, destinations.value[0], zones[j])
      ensures SegmentGap(dist, route, 1, zones[j]) > zones[j].Radius as real
    {
      assert ZoneClear(dist, route, zones[j]);
      assert !PointInZone(dist, route[1], zones[j]);
    }
  }
}
