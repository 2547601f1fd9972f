# Drone flight processor and web-client helpers, in Dafny

This project models two parts of the drone flight-management system.

**The flight processor of the drone service** (`drones/internal/processor/proccessor.go`):

- It validates a pilot's flight application against the cached restricted zones.
- The plan is a straight leg from the fixed base at 51.15545, 71.41216 to the first destination point.
- The destination altitude must lie in 0..500 m.
- No route point and no route segment may come within a zone's radius.
- It keeps the flights in progress in a table keyed by application id.
- It advances each flight once per tick: a one-time demonstration pause for tested applications, movement toward the current waypoint, waypoint stepping, completion, and a safety stop within 100 m of a zone border.
- It clears the alerts of finished flights.

**The helper library of the web client** (`frontend/src/app/components/utils/utils.js`):

- the zone check for a position picked on the map;
- the application payload;
- the wind-direction and flight-conditions classifiers;
- the icon and colour tables.

## How the model is built

- **Primitives.** Great-circle distance (haversine), planar length (`math.Sqrt`) and heading (`math.Atan2`) are abstract function values in module `Geo`. The model assumes only their ranges: distances are non-negative and headings lie within ±180°. The cruise speed is a positive real.
- **Numbers and time.** Go `float64` and JavaScript numbers are reals. Times are integer nanoseconds, passed as an explicit `now`.
- **State.** `ActiveFlight` is a class whose fields the processor updates in place. `FlightProcessor` is a class holding:
  - `activeFlights`, the flight table;
  - `restrictedZones`, the zone cache;
  - `sentAlerts`, the alert keys as byte strings;
  - `statusLog`, the sequence of application-status updates written to the database.
- **Ticks.** A tick of a flight is specified by the pure function `FlightTick.Tick`. The method `UpdateSingleFlight` is proved to produce exactly that new flight state. The tick's `Effect` decides the tables, as `TablesAfter` states.
- **Loops.** Each loop of the source is a method with invariants: route length, zone checks, the proximity check, alert clearing and the client's zone filter. Each is proved equal to a specification function, and the lemmas are proved about those functions.
- **Missing fields.** The shown `ActiveFlight` struct lacks `State`, `DemoMode`, `FlightStartTime`, `PauseStartTime` and `PauseEndTime`. The drones `Application` struct lacks `Tested`. The processor reads and writes all of them, so the model adds them.

## Model

| member | source | states |
|---|---|---|
| Structures.ActiveFlight.constructor | drones/internal/processor/proccessor.go:366-389 | A new flight sits at the first route point with waypoint 0, progress 0 and status executing. It is active, and in demo mode exactly when the application has tested = 1. |
| Processor.FlightProcessor.constructor | drones/internal/processor/proccessor.go:32-44 | A new processor has an empty flight table and alert map, and no zones. |
| Processor.FlightProcessor.LoadRestrictedZones | drones/internal/processor/proccessor.go:81-94 | The zone cache is replaced by the loaded zones. It is kept unchanged when the repository read fails. |
| RouteGeometry.CreateFullRoute | drones/internal/processor/proccessor.go:323-336 | The route has exactly two points. The first is the base at 51.15545, 71.41216, altitude 0, id 0 and order 0. The second is the destination unchanged except for order 1. Both carry the destination's application id. |
| RouteGeometry.FullRouteLength | drones/internal/processor/proccessor.go:323-336 | The full route is as long as the base-to-destination distance. |
| RouteGeometry.Clamp01 | drones/internal/processor/proccessor.go:308-317 | The projection parameter is clamped into [0, 1] and left unchanged inside it. |
| RouteGeometry.DistanceToSegment | drones/internal/processor/proccessor.go:295-321 | The distance to a segment is never negative. For a zero-length segment it is the distance to its start. |
| RouteGeometry.NearestIsClampedProjection | drones/internal/processor/proccessor.go:308-318 | The three branches (start when param < 0, end when param > 1, otherwise x1+param·C, y1+param·D) are the segment point at the clamped parameter. |
| RouteGeometry.DistanceToSegmentIsToClampedProjection | drones/internal/processor/proccessor.go:295-321 | The segment distance is measured to the start for a degenerate segment, and otherwise to the point at the clamped projection parameter. |
| RouteGeometry.NearestMinimisesPlanarGap | drones/internal/processor/proccessor.go:295-321 | The point measured to is the nearest point of the segment in the latitude/longitude plane: no point of the segment is closer. |
| RouteGeometry.PathLength | drones/internal/processor/proccessor.go:823-838 | A route's length is never negative. |
| RouteGeometry.PathLengthPrefix | drones/internal/processor/proccessor.go:823-838 | Every prefix of a route is at most as long as the route. |
| Processor.FlightProcessor.CalculateRouteDistanceMeters | drones/internal/processor/proccessor.go:823-838 | The accumulated sum equals the route length: 0 below two points, otherwise the sum of consecutive legs. |
| RouteGeometry.RouteProgress | drones/internal/processor/proccessor.go:781-807 | Progress always lies in [0, 100]. It is 100 for a route of fewer than two points or of length ≤ 0. |
| RouteGeometry.ProgressEnds | drones/internal/processor/proccessor.go:794-805 | On a route of positive length, progress is 100 exactly when the straight-line distance from the start reaches the route length, and 0 exactly when that distance is 0. |
| RouteGeometry.ProgressMonotone | drones/internal/processor/proccessor.go:794-805 | A position farther from the start never has less progress. |
| Processor.FlightProcessor.CalculateRouteProgress | drones/internal/processor/proccessor.go:781-807 | The method computes exactly `RouteProgress` of the flight's route and current position. |
| RouteGeometry.StepDegrees | drones/internal/processor/proccessor.go:744 | A tick's step, speed / 111320 degrees, is positive. |
| RouteGeometry.NewPosition | drones/internal/processor/proccessor.go:737-779 | A new position keeps the ids, moves at cruise speed and is stamped `now`. The progress field is left at 0. A heading within [0, 360) stays within [0, 360). |
| RouteGeometry.RemainingShare | drones/internal/processor/proccessor.go:742-757 | The share of the offset still left after a step lies in [0, 1). |
| RouteGeometry.NewPositionApproachesTarget | drones/internal/processor/proccessor.go:737-779 | A step never passes its target: the offset to the target shrinks by the same factor in latitude, longitude and altitude. |
| ZoneRules.ZoneVerdict | drones/internal/processor/proccessor.go:240-262 | One zone rejects exactly when the route is not clear of it. The rejection names the zone. It is a point rejection exactly when some route point lies in the zone, so the point test takes precedence over the segment test. |
| ZoneRules.FirstBlockingZone | drones/internal/processor/proccessor.go:239-265 | The result is the first zone in list order that the route is not clear of. It is absent exactly when every zone is clear. |
| ZoneRules.RouteVerdict | drones/internal/processor/proccessor.go:239-265 | A route is accepted iff no point lies within, and no segment comes within, any zone's radius (the border counts as inside). A rejection names the first failing zone. It is a point rejection exactly when some route point lies in that zone, and a path rejection otherwise. |
| ZoneRules.RouteVerdictAppend | drones/internal/processor/proccessor.go:239-265 | Checking a zone list in two parts gives the verdict of the first part unless that part is all clear, and then the verdict of the second part. |
| ZoneRules.ShortRouteNeverIntersects | drones/internal/processor/proccessor.go:267-270 | A route of fewer than two points crosses no zone. |
| Processor.FlightProcessor.CheckLineIntersection | drones/internal/processor/proccessor.go:267-293 | The loop answers true iff some consecutive segment comes within the zone radius, and false for fewer than two points. |
| Processor.FlightProcessor.CheckRouteAgainstZones | drones/internal/processor/proccessor.go:239-265 | The nested loops with early returns compute exactly `RouteVerdict`. |
| ZoneRules.ValidationVerdict | drones/internal/processor/proccessor.go:206-237 | An unreadable route and an empty route are rejected with their own reasons. A first-point altitude outside 0..500 is rejected. Otherwise the verdict is exactly `RouteVerdict` of the two-point full route: accepted iff that route is clear of every zone. |
| ZoneRules.ApprovedPlanIsSafe | drones/internal/processor/proccessor.go:206-237 | In an approved plan, the destination altitude is in range. The base and the destination lie outside every zone, and the leg between them stays farther than each zone's radius. |
| Processor.FlightProcessor.ValidateFlight | drones/internal/processor/proccessor.go:206-237 | The method computes exactly `ValidationVerdict` on the cached zones. |
| FlightTick.PausedAt | drones/internal/processor/proccessor.go:463-469 | Pausing sets state Paused, the pause start to now and speed 0, and changes nothing else. |
| FlightTick.ResumedAt | drones/internal/processor/proccessor.go:482-488 | Resuming sets state Active, the pause end to now and the cruise speed, and changes nothing else. |
| Processor.FlightProcessor.PauseFlight | drones/internal/processor/proccessor.go:463-480 | The flight's new state is `PausedAt` of its old state. |
| Processor.FlightProcessor.ResumeFlight | drones/internal/processor/proccessor.go:482-499 | The flight's new state is `ResumedAt` of its old state. |
| FlightTick.DemoStep | drones/internal/processor/proccessor.go:438-461 | Outside demo mode nothing happens. An active flight pauses only when 30 s ≤ time since take-off < 31 s. A paused flight resumes exactly when 10 s or more have passed since its pause began, and demo mode is then switched off. |
| Processor.FlightProcessor.CheckDemoPause | drones/internal/processor/proccessor.go:438-461 | The method reports whether `DemoStep` acted and leaves the flight in the state `DemoStep` gives. |
| FlightTick.FirstStopZone | drones/internal/processor/proccessor.go:675-699 | The result is the first zone whose border lies within 100 m (centre distance − radius ≤ 100). It is absent exactly when there is none. |
| Processor.FlightProcessor.CheckRestrictedZoneProximity | drones/internal/processor/proccessor.go:675-699 | The method stops the flight at `FirstStopZone`: it cancels the application with that zone and border distance, removes the flight and returns true. It returns false with nothing changed when there is no such zone. |
| Processor.FlightProcessor.StopFlightAndRemoveApplication | drones/internal/processor/proccessor.go:539-575 | The application is cancelled with the zone and distance, and the flight leaves the table. |
| FlightTick.Complete | drones/internal/processor/proccessor.go:701-704 | Completion sets progress to 100 and changes nothing else in the flight. |
| Processor.FlightProcessor.CompleteFlight | drones/internal/processor/proccessor.go:701-735 | Progress becomes 100, the application's alerts are cleared, the application is completed and the flight leaves the table. |
| FlightTick.Tick | drones/internal/processor/proccessor.go:609-673 | A due demonstration step is all that happens in its tick. A paused flight with no demonstration step due is untouched. An active flight otherwise always acts: past its last waypoint it arrives with only its progress set to 100; before it, it moves, arrives or is stopped. The waypoint advances exactly when the new position is within 10 m of it, and the flight arrives exactly when that was the last waypoint. An arrival has progress 100 and does not move. A move or stop takes one `NewPosition` step and records that position's `RouteProgress`. A moved drone is more than 100 m from every zone border. A stop names the first zone in list order that is within 100 m. |
| FlightTick.Advance | drones/internal/processor/proccessor.go:620-666 | The moving part of a tick, for a flight before its last waypoint. It always moves, arrives or stops. The waypoint advances exactly when the new position is within 10 m of it, and arrival happens exactly when that was the last waypoint. A move or stop records the new position's progress. A stop names the first zone within 100 m. State, demo mode and pause times are unchanged. |
| FlightTick.PauseBudget | drones/internal/processor/proccessor.go:438-461 | At most one demonstration pause remains for any flight. |
| FlightTick.DemoPausesAtMostOnce | drones/internal/processor/proccessor.go:438-461 | Over any run of ticks, at any times and with any zones, a flight pauses for demonstration at most once, and never unless it starts active in demo mode. |
| Processor.TablesAfter | drones/internal/processor/proccessor.go:609-735 | An arrival completes the application, clears its alerts and removes the flight. A stop cancels the application and removes the flight. Any other tick leaves the tables alone. |
| Processor.FlightProcessor.AdvanceFlight | drones/internal/processor/proccessor.go:620-666 | The moving part of the method gives the flight the state `Advance` gives, and the tables `TablesAfter` gives. |
| Processor.FlightProcessor.UpdateSingleFlight | drones/internal/processor/proccessor.go:609-673 | The flight's new state is `Tick` of its old state. The tables change as `TablesAfter` says for that tick's effect. |
| Processor.ForceCompletion | drones/internal/processor/proccessor.go:507-517 | "system_shutdown" and "restricted_zone" map to Cancelled; every other reason maps to Completed. |
| Processor.FlightProcessor.ForceCompleteFlight | drones/internal/processor/proccessor.go:501-537 | The mapped status is recorded with the reason. The flight stays in the table. |
| Processor.FlightProcessor.StartFlight | drones/internal/processor/proccessor.go:338-436 | Nothing happens without a destination. Otherwise a fresh flight on the full route is entered under the application id. It carries the application's drone and pilot, starts now, and sits at the base with zero speed, heading and progress. It is active, has waypoint 0 and no pause times, and is in demo mode exactly when tested = 1. It is due after floor(route length / speed) seconds. Its alerts are cleared and it is marked executing. |
| Alerts.Int32 | drones/internal/processor/proccessor.go:845 | `rune(id)` keeps the low 32 bits as a signed number: in range, congruent modulo 2^32, and the identity on int32 values. |
| Alerts.EncodeRune | drones/internal/processor/proccessor.go:845 | `string(rune)` has 1 to 4 bytes. It is one byte exactly for code points 0..127, and then that byte. |
| Alerts.EncodeRuneRoundTrip | drones/internal/processor/proccessor.go:845 | Decoding the encoding gives back every scalar value. Any other value gives U+FFFD. |
| Alerts.BelongsToFirstByte | drones/internal/processor/proccessor.go:844-846 | A key matches application id exactly when it is non-empty, the id cut to 32 bits is in 0..127, and the key's first byte is that number. |
| Alerts.ClearedAlerts | drones/internal/processor/proccessor.go:840-849 | Exactly the keys that do not belong to the application remain, with their values. |
| Alerts.ClearingWideIdsKeepsAll | drones/internal/processor/proccessor.go:840-849 | For an id whose 32-bit value is outside 0..127, clearing removes nothing. |
| Alerts.ClearingIsIdempotent | drones/internal/processor/proccessor.go:840-849 | Clearing twice is clearing once. |
| Alerts.ClearingIsPeriodic | drones/internal/processor/proccessor.go:840-849 | Ids 2^32 apart clear the same keys. |
| Processor.FlightProcessor.ClearAlertsForFlight | drones/internal/processor/proccessor.go:840-849 | The deletion loop over the keys leaves exactly `ClearedAlerts`. |
| FrontendUtils.ZonesContaining | frontend/src/app/components/utils/utils.js:15-21 | A zone is in the result iff it is in the list and contains the position (distance ≤ radius). The result is no longer than the list. |
| FrontendUtils.ZonesContainingAppend | frontend/src/app/components/utils/utils.js:15-21 | Filtering keeps the input order: filtering a concatenation concatenates the filtered parts. |
| FrontendUtils.CheckIntersectionWithZones | frontend/src/app/components/utils/utils.js:6-28 | There is no result exactly when there is no position. Otherwise the zones containing the position are returned in order, flagged iff there are any, with the position echoed. |
| FrontendUtils.JsRound | frontend/src/app/components/utils/utils.js:89 | `Math.round` gives the integer n with n − ½ ≤ x < n + ½. |
| FrontendUtils.JsRem | frontend/src/app/components/utils/utils.js:89 | `%` on integers gives the value that differs from the dividend by a multiple of the divisor, lies strictly between minus and plus the divisor, and has the dividend's sign. |
| FrontendUtils.WindDirection | frontend/src/app/components/utils/utils.js:87-91 | A label exists for every direction ≥ −22.5°, and every label is one of the eight compass labels. |
| FrontendUtils.WindDirectionNearest | frontend/src/app/components/utils/utils.js:87-91 | From −22.5° on, the label is that of the multiple of 45° within 22.5°, counted modulo 8. |
| FrontendUtils.WindDirectionNorth | frontend/src/app/components/utils/utils.js:87-91 | Both 0° and 360° give "С". |
| FrontendUtils.WindDirectionPeriodic | frontend/src/app/components/utils/utils.js:87-91 | From −22.5° on, a full turn gives the same label. Below that it need not (−45° has no label, 315° has one). |
| FrontendUtils.WindDirectionBelowNorthWest | frontend/src/app/components/utils/utils.js:87-91 | −45° reads past the array and gives no label. |
| FrontendUtils.FlightConditions | frontend/src/app/components/utils/utils.js:93-108 | Missing weather gives unknown. "Bad" holds iff wind > 8, temp < −15, temp > 35 or a thunderstorm. "Caution" holds iff not bad and wind > 5, temp < −5, temp > 30, rain or snow. Otherwise the result is "good". |
| FrontendUtils.BadImpliesCaution | frontend/src/app/components/utils/utils.js:101-103 | Every bad sign other than a thunderstorm (strong wind, extreme temperature) is also a caution sign. |
| FrontendUtils.FlightConditionsMonotoneInWind | frontend/src/app/components/utils/utils.js:93-108 | Stronger wind never gives a better rating. |
| FrontendUtils.EmptyWeatherIsGood | frontend/src/app/components/utils/utils.js:97-99 | Missing wind, temperature and conditions default to calm at 0°, which rates good. |
| FrontendUtils.JsTrunc | frontend/src/app/components/utils/utils.js:38 | `parseInt` of a decimal number is its integer part, truncated toward zero. |
| FrontendUtils.RoundTo8Error | frontend/src/app/components/utils/utils.js:36-37 | Below 1e21, `toFixed(8)` then `parseFloat` is within 5·10⁻⁹ of the input and has at most eight decimals. |
| FrontendUtils.RoundTo8Idempotent | frontend/src/app/components/utils/utils.js:36-37 | Rounding a rounded coordinate changes nothing. |
| FrontendUtils.RoundTo8Symmetric | frontend/src/app/components/utils/utils.js:36-37 | Rounding is symmetric about zero (halves go away from zero). |
| FrontendUtils.PrepareApplicationData | frontend/src/app/components/utils/utils.js:30-41 | Status is always "Pending". `tested` is 1 when the flag is truthy and 0 otherwise. The coordinates are present exactly when a position is picked, and are then its rounded coordinates. The dates and the drone are copied, and the altitude is the height truncated toward zero (so within 1 of it). |
| FrontendUtils.LowerIdempotent | frontend/src/app/components/utils/utils.js:44 | Lower-casing twice is lower-casing once. |
| FrontendUtils.StatusIcon | frontend/src/app/components/utils/utils.js:43-63 | After lower-casing, each English status and its Russian synonym get the same icon. Any other or missing status gets "📋". |
| FrontendUtils.StatusIconIgnoresCase | frontend/src/app/components/utils/utils.js:44 | The icon does not depend on letter case. |
| FrontendUtils.WeatherIcon | frontend/src/app/components/utils/utils.js:65-85 | A condition gets a non-default icon exactly when its lower-cased name is one of the eight known conditions. Anything else, or no condition, gets the default. |
| FrontendUtils.WeatherIconIgnoresCase | frontend/src/app/components/utils/utils.js:66 | The icon does not depend on letter case. |
| FrontendUtils.DroneColor | frontend/src/app/components/utils/utils.js:121-127 | A selected drone is "#ef4444". Otherwise a non-negative id gets palette entry id mod 8, and a negative id has a colour only when it is a multiple of 8. |
| FrontendUtils.DroneColorPeriodic | frontend/src/app/components/utils/utils.js:121-127 | Non-negative ids 8 apart share a colour. Negative ids need not, since `%` keeps the dividend's sign. |
| FrontendUtils.UnselectedCanLookSelected | frontend/src/app/components/utils/utils.js:121-127 | An unselected drone whose id mod 8 is 4 gets the selection colour. |
| FrontendUtils.BatteryColor | frontend/src/app/components/utils/utils.js:163-167 | Green exactly above 50, red exactly at or below 20, yellow in between. |
| FrontendUtils.BatteryColorMonotone | frontend/src/app/components/utils/utils.js:163-167 | More charge never gives a worse colour. |
| FrontendUtils.StatusColor | frontend/src/app/components/utils/utils.js:129-144 | The grey default is given exactly to statuses outside flying, paused, idle, charging and maintenance. |
| FrontendUtils.StatusText | frontend/src/app/components/utils/utils.js:146-161 | "Неизвестно" is given exactly to statuses outside the same five. |
| FrontendUtils.StatusTablesAgree | frontend/src/app/components/utils/utils.js:129-161 | The colour and text tables know the same statuses. |
| FrontendUtils.MessageTypeColor | frontend/src/app/components/utils/utils.js:169-200 | Red is given exactly to rejections and restricted-zone alerts. Flight start, flight resume and approval are green. |

## Left out

**Numerics**
- The haversine body (`calculateDistanceMeters`, `calculateDistance`) and the square root and `atan2` of `calculateNewPosition`: these are floating-point trigonometry. They are abstract functions constrained only by their ranges.
- Floating-point rounding, NaN and infinities: numbers are reals.

**The configured speed**
- `FlightSpeedMS` is assumed positive, because the source divides by it.

**Concurrency and plumbing**
- `Start`, `Stop`, `periodicZoneUpdate`, `processNewApplications`, `checkPendingApplications`, `processApplication`, `simulateFlights` and `updateFlightPositions` are left out: they are goroutine, ticker, mutex and context plumbing.
- The cancellation checks inside `startFlight` are left out for the same reason.
- `getRestrictedZones` copies the cache under a lock. The model reads the cache directly, with value semantics.

**Outside calls**
- gRPC notifications, logging, `SaveDronePosition` and `UpdateDronePosition` are no-ops.
- Repository reads become parameters; `None` stands for a failed read.
- Each `UpdateApplicationStatus` call is recorded in `statusLog`. Its error result is ignored, as the modelled callers only log it.
- The formatted message texts are not modelled. The model records the structured reason instead (`Reason`, `Note`).
- `zonesLastUpdate` is not modelled.

**Time**
- `startFlight`, `updateSingleFlight`, `checkDemoPause`, `pauseFlight` and `resumeFlight` each read the clock separately. The model passes one instant, `now`, to a whole tick and to a flight start.
- The conversion of the flight time to a `time.Duration` is not checked for 64-bit overflow.

**Pending zone alerts**
- `sentAlerts` is never written in `proccessor.go`, so the format of its keys is unknown. The model takes keys as arbitrary byte strings.

**Frontend**
- `createDroneSvg` (SVG text and base64) and `calculateDistance` are not modelled.
- FrontendUtils.PrepareApplicationData: the form's drone and height are taken as numbers. The string parsing of `Number` and `parseInt` is not modelled, nor `parseInt` of numbers printed in exponent form (below 1e-6 or from 1e21).
- FrontendUtils.LowerChar: only Latin A–Z and the Cyrillic capitals U+0400–U+042F are lower-cased. Other scripts keep their case. Their case does not change whether a string matches any of the tables' keys.
- FrontendUtils.DroneColor: drone ids are integers. `parseInt` of other values is not modelled.
- FrontendUtils.WindDirection: a NaN or missing direction is not modelled.
- FrontendUtils.FlightConditions: the result is the rating. The status string, Russian label and colour class that `getFlightConditions` returns for each rating are not modelled.
