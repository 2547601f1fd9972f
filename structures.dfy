/** The records the drone service works on (drones/internal/structures).
    `ActiveFlight` is updated in place by the flight processor, so it is a
    class; the rest are values.  Times are integers in nanoseconds. */
module Structures {
  import opened Wrappers

  /** Application status as stored in the database. */
  datatype Status = Pending | Processing | Approved | Executing | Completed | Rejected | Cancelled

  /** Whether a running flight is moving or held. */
  datatype FlightState = Active | Paused

  datatype RoutePoint = RoutePoint(
    Id: int,
    Latitude: real,
    Longitude: real,
    Altitude: real,
    PointOrder: int,
    ApplicationId: int)

  /** A circular no-fly zone; the radius is an integer number of metres and
      the wire name of the longitude keeps its spelling `Longtitude`. */
  datatype RestrictedZone = RestrictedZone(
    Id: int,
    Latitude: real,
    Longtitude: real,
    Altitude: real,
    Name: string,
    Radius: int)

  datatype DronePosition = DronePosition(
    ApplicationId: int,
    DroneId: int,
    Latitude: real,
    Longitude: real,
    Altitude: real,
    Speed: real,
    Heading: real,
    Timestamp: int,
    RouteProgress: real)

  /** The fields of an application the processor reads; `Tested` selects the
      demonstration mode. */
  datatype Application = Application(Id: int, PilotId: int, DroneId: int, Tested: int)

  /** The part of an active flight that changes while it is simulated. */
  datatype FlightView = FlightView(
    CurrentPosition: DronePosition,
    CurrentWaypoint: nat,
    State: FlightState,
    DemoMode: bool,
    PauseStartTime: Option<int>,
    PauseEndTime: Option<int>)

  /** A flight in progress.  The identifiers, the route and the start times
      never change once the flight has started; the processor moves the
      position, steps the waypoint and pauses and resumes it. */
  class ActiveFlight {
    const ApplicationId: int
    const DroneId: int
    const PilotId: int
    const Route: seq<RoutePoint>
    const StartTime: int
    const FlightStartTime: int
    var EstimatedEndTime: int
    var Status: Status
    var CurrentPosition: DronePosition
    var CurrentWaypoint: nat
    var State: FlightState
    var DemoMode: bool
    var PauseStartTime: Option<int>
    var PauseEndTime: Option<int>

    /** The changing state as a value. */
    function View(): FlightView
      reads this
    {
      FlightView(CurrentPosition, CurrentWaypoint, State, DemoMode, PauseStartTime, PauseEndTime)
    }

    /** The flight record built when an approved application starts: at the
        first route point, waypoint 0, zero progress, active, and in demo
        mode exactly when the application was submitted as tested (= 1). */
    constructor (app: Application, route: seq<RoutePoint>, now: int)
      requires |route| > 0
      ensures ApplicationId == app.Id && DroneId == app.DroneId && PilotId == app.PilotId
      ensures Route == route && StartTime == now && FlightStartTime == now
      ensures EstimatedEndTime == now && Status == Executing
      ensures CurrentWaypoint == 0 && State == Active
      ensures DemoMode <==> app.Tested == 1
      ensures PauseStartTime.None? && PauseEndTime.None?
      ensures CurrentPosition.ApplicationId == app.Id && CurrentPosition.DroneId == app.DroneId
      ensures CurrentPosition.Latitude == route[0].Latitude
      ensures CurrentPosition.Longitude == route[0].Longitude
      ensures CurrentPosition.Altitude == route[0].Altitude
      ensures CurrentPosition.Timestamp == now && CurrentPosition.RouteProgress == 0.0
      ensures CurrentPosition.Speed == 0.0 && CurrentPosition.Heading == 0.0
    {
      ApplicationId := app.Id;
      DroneId := app.DroneId;
      PilotId := app.PilotId;
      Route := route;
      StartTime := now;
      FlightStartTime := now;
      EstimatedEndTime := now;
      Status := Executing;
      CurrentWaypoint := 0;
      CurrentPosition := DronePosition(app.Id, app.DroneId, route[0].Latitude, route[0].Longitude,
                                       route[0].Altitude, 0.0, 0.0, now, 0.0);
      State := Active;
      DemoMode := app.Tested == 1;
      PauseStartTime := None;
      PauseEndTime := None;
    }
  }
}
