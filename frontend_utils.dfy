/** The helper library of the web client
    (frontend/src/app/components/utils/utils.js): the zone check for a
    picked map position, the application payload, and the small
    classifiers and lookup tables the dashboard uses for icons, colours and
    labels.  JavaScript numbers are modelled as reals and array reads out of
    range as None (JavaScript's `undefined`). */
module FrontendUtils {
  import opened Wrappers
  import opened Geo

  // ---------------------------------------------------------------------
  // JavaScript number primitives

  /** Math.round: the nearest integer, halves rounded up. */
  function JsRound(x: real): (n: int)
    ensures n as real - 0.5 <= x < n as real + 0.5
  {
    (x + 0.5).Floor
  }

  /** The `%` operator on integers: the remainder takes the sign of the
      dividend. */
  function JsRem(a: int, n: nat): (r: int)
    requires n > 0
    ensures -(n as int) < r < n
    ensures (a - r) % n == 0
    ensures a >= 0 ==> r == a % n
    ensures a <= 0 ==> r <= 0
  {
    if a >= 0 then
      RemainderIsCongruent(a, n);
      a % n
    else
      RemainderIsCongruent(-a, n);
      -((-a) % n)
  }

  /** b differs from b % n, and -b from -(b % n), by a multiple of n. */
  lemma RemainderIsCongruent(b: int, n: int)
    requires n > 0
    ensures (b - b % n) % n == 0
    ensures (-b + b % n) % n == 0
  {
    var q := b / n;
    assert b == q * n + b % n;
    MultipleHasNoRemainder(q, n);
    MultipleHasNoRemainder(-q, n);
    assert -b + b % n == (-q) * n;
  }

  lemma MultipleHasNoRemainder(k: int, n: int)
    requires n > 0
    ensures (k * n) % n == 0
  {
    var x := k * n;
    var d := k - x / n;
    assert x == (x / n) * n + x % n;
    assert d * n == x % n by {
      assert d * n == k * n - (x / n) * n;
    }
  }

  /** parseInt applied to a number written in plain decimal: the integer
      part, truncated toward zero. */
  function JsTrunc(x: real): (n: int)
    ensures x >= 0.0 ==> n as real <= x < n as real + 1.0
    ensures x <= 0.0 ==> n as real - 1.0 < x <= n as real
  {
    if x >= 0.0 then x.Floor else -((-x).Floor)
  }

  /** The array element at `i`, or None for an index outside the array. */
  function At<T>(items: seq<T>, i: int): (r: Option<T>)
    ensures r.Some? <==> 0 <= i < |items|
    ensures r.Some? ==> r.value == items[i]
  {
    if 0 <= i < |items| then Some(items[i]) else None
  }

  // ---------------------------------------------------------------------
  // Lower-casing

  /** String.prototype.toLowerCase on the letters the tables use: Latin
      A-Z and the Cyrillic capitals U+0400 .. U+042F. */
  function LowerChar(c: char): (d: char)
    ensures 'a' <= c <= 'z' || 'а' <= c <= 'я' ==> d == c
    ensures !('A' <= d <= 'Z') && !('Ѐ' <= d <= 'Я')
  {
    if 'A' <= c <= 'Z' then (c as int + 32) as char
    else if 'А' <= c <= 'Я' then (c as int + 0x20) as char
    else if 'Ѐ' <= c <= 'Џ' then (c as int + 0x50) as char
    else c
  }

  function Lower(s: string): (r: string)
    ensures |r| == |s|
    ensures forall i :: 0 <= i < |s| ==> r[i] == LowerChar(s[i])
  {
    seq(|s|, i requires 0 <= i < |s| => LowerChar(s[i]))
  }

  /** Lower-casing twice is lower-casing once, and a lower-case Latin or
      Cyrillic string is its own lower case. */
  lemma LowerIdempotent(s: string)
    ensures Lower(Lower(s)) == Lower(s)
  {
  }

  // ---------------------------------------------------------------------
  // checkIntersectionWithZones

  /** A restricted zone as the client receives it. */
  datatype DangerZone = DangerZone(id: int, name: string, latitude: real, longtitude: real, radius: real)

  /** The result object of checkIntersectionWithZones. */
  datatype IntersectionCheck = IntersectionCheck(
    hasIntersection: bool,
    intersectedZones: seq<DangerZone>,
    checkedPosition: (real, real))

  /** The position lies inside or on the border of the zone. */
  predicate Contains(dist: Metric, lat: real, lng: real, zone: DangerZone)
  {
    dist(lat, lng, zone.latitude, zone.longtitude) <= zone.radius
  }

  /** The zones containing the position, in list order. */
  function ZonesContaining(dist: Metric, lat: real, lng: real, zones: seq<DangerZone>): (r: seq<DangerZone>)
    ensures forall z :: z in r <==> z in zones && Contains(dist, lat, lng, z)
    ensures |r| <= |zones|
    decreases |zones|
  {
    if zones == [] then []
    else
      var init := ZonesContaining(dist, lat, lng, zones[..|zones| - 1]);
      var last := zones[|zones| - 1];
      assert zones == zones[..|zones| - 1] + [last];
      if Contains(dist, lat, lng, last) then init + [last] else init
  }

  /** Filtering keeps the order: the zones found in a concatenation are
      those found in the first part followed by those found in the second. */
  lemma {:induction false} ZonesContainingAppend(dist: Metric, lat: real, lng: real,
                                                 first: seq<DangerZone>, second: seq<DangerZone>)
    ensures ZonesContaining(dist, lat, lng, first + second)
         == ZonesContaining(dist, lat, lng, first) + ZonesContaining(dist, lat, lng, second)
    decreases |second|
  {
    if second == [] {
      assert first + second == first;
    } else {
      var both := first + second;
      var shorter := second[..|second| - 1];
      assert both[..|both| - 1] == first + shorter;
      assert both[|both| - 1] == second[|second| - 1];
      ZonesContainingAppend(dist, lat, lng, first, shorter);
    }
  }

  /** checkIntersectionWithZones: None without a position; otherwise the
      zones containing it, in order, whether there are any, and the
      position itself. */
  method CheckIntersectionWithZones(dist: Metric, position: Option<(real, real)>, dangerZones: seq<DangerZone>)
    returns (r: Option<IntersectionCheck>)
    ensures r.None? <==> position.None?
    ensures r.Some? ==>
      && r.value.intersectedZones == ZonesContaining(dist, position.value.0, position.value.1, dangerZones)
      && (r.value.hasIntersection <==> |r.value.intersectedZones| > 0)
      && r.value.checkedPosition == position.value
  {
    if position.None? {
      return None;
    }
    var (lat, lng) := position.value;
    var hasIntersection := false;
    var intersectedZones := [];
    for i := 0 to |dangerZones|
      invariant intersectedZones == ZonesContaining(dist, lat, lng, dangerZones[..i])
      invariant hasIntersection <==> |intersectedZones| > 0
    {
      var zone := dangerZones[i];
      assert dangerZones[..i + 1][..i] == dangerZones[..i];
      var distance := dist(lat, lng, zone.latitude, zone.longtitude);
      if distance <= zone.radius {
        hasIntersection := true;
        intersectedZones := intersectedZones + [zone];
      }
    }
    assert dangerZones[..|dangerZones|] == dangerZones;
    return Some(IntersectionCheck(hasIntersection, intersectedZones, position.value));
  }

  // ---------------------------------------------------------------------
  // prepareApplicationData

  /** The application form; `tested` is the truthiness of its flag. */
  datatype FormData = FormData(
    startDate: string,
    endDate: string,
    selectedDrone: real,
    selectedPosition: Option<(real, real)>,
    maxHeight: real,
    tested: bool)

  /** The payload sent to the server. */
  datatype ApplicationPayload = ApplicationPayload(
    startDate: string,
    endDate: string,
    status: string,
    droneId: real,
    latitude: Option<real>,
    longtitude: Option<real>,
    altitude: int,
    tested: int)

  const Scale8: real := 100000000.0
  /** Numbers this large are printed by toFixed without rounding. */
  const ToFixedLimit: real := 1000000000000000000000.0

  /** Number.parseFloat(x.toFixed(8)): rounded to 8 decimals, halves away
      from zero; numbers of 1e21 and more are kept as they are. */
  function RoundTo8(x: real): (r: real)
    ensures x <= -ToFixedLimit || x >= ToFixedLimit ==> r == x
  {
    if x <= -ToFixedLimit || x >= ToFixedLimit then x
    else if x >= 0.0 then RoundUnsigned(x)
    else -RoundUnsigned(-x)
  }

  function RoundUnsigned(y: real): real
  {
    (y * Scale8 + 0.5).Floor as real / Scale8
  }

  /** The rounding error of a non-negative number is at most half of the
      eighth decimal, and the result has at most eight decimals. */
  lemma RoundUnsignedBounds(y: real)
    ensures -0.000000005 <= RoundUnsigned(y) - y <= 0.000000005
    ensures RoundUnsigned(y) * Scale8 == (y * Scale8 + 0.5).Floor as real
  {
    var n := (y * Scale8 + 0.5).Floor as real;
    assert n - 0.5 <= y * Scale8 < n + 0.5;
    assert RoundUnsigned(y) == n / Scale8;
    assert RoundUnsigned(y) - y == (n - y * Scale8) / Scale8;
  }

  /** Below 1e21 in size the result is within half of the eighth decimal of
      the input, and has at most eight decimals. */
  lemma RoundTo8Error(x: real)
    requires -ToFixedLimit < x < ToFixedLimit
    ensures -0.000000005 <= RoundTo8(x) - x <= 0.000000005
    ensures (RoundTo8(x) * Scale8).Floor as real == RoundTo8(x) * Scale8
  {
    if x >= 0.0 {
      assert RoundTo8(x) == RoundUnsigned(x);
      RoundUnsignedBounds(x);
    } else {
      assert RoundTo8(x) == -RoundUnsigned(-x);
      NegatedRoundingBounds(-x);
    }
  }

  /** The bounds of RoundUnsignedBounds, for the negated result. */
  lemma NegatedRoundingBounds(y: real)
    ensures -0.000000005 <= -RoundUnsigned(y) - -y <= 0.000000005
    ensures (-RoundUnsigned(y) * Scale8).Floor as real == -RoundUnsigned(y) * Scale8
  {
    RoundUnsignedBounds(y);
    var n := (y * Scale8 + 0.5).Floor;
    assert -RoundUnsigned(y) * Scale8 == (-n) as real;
  }

  /** Rounding is symmetric about zero. */
  lemma RoundTo8Symmetric(x: real)
    ensures RoundTo8(-x) == -RoundTo8(x)
  {
  }

  /** Rounding an already rounded coordinate changes nothing. */
  lemma RoundTo8Idempotent(x: real)
    ensures RoundTo8(RoundTo8(x)) == RoundTo8(x)
  {
    var r := RoundTo8(x);
    if -ToFixedLimit < x < ToFixedLimit && -ToFixedLimit < r < ToFixedLimit {
      RoundTo8Error(x);
      var n := (r * Scale8).Floor;
      assert r * Scale8 == n as real;
      if r >= 0.0 {
        assert (r * Scale8 + 0.5).Floor == n;
        assert RoundUnsigned(r) == n as real / Scale8;
      } else {
        assert -r * Scale8 == -(n as real);
        assert (-r * Scale8 + 0.5).Floor == -n;
        assert RoundUnsigned(-r) == -(n as real) / Scale8;
      }
    }
  }

  /** prepareApplicationData: always "Pending"; tested is 1 or 0 after the
      form flag; coordinates are present exactly when a position was picked
      and are then within half of the eighth decimal of it; the height is
      the whole part of the form's value. */
  function PrepareApplicationData(form: FormData): (p: ApplicationPayload)
    ensures p.status == "Pending"
    ensures p.tested == 1 <==> form.tested
    ensures p.tested == 0 || p.tested == 1
    ensures p.latitude.None? <==> form.selectedPosition.None?
    ensures p.longtitude.None? <==> form.selectedPosition.None?
    ensures form.selectedPosition.Some? ==>
      p.latitude.value == RoundTo8(form.selectedPosition.value.0)
      && p.longtitude.value == RoundTo8(form.selectedPosition.value.1)
    ensures p.startDate == form.startDate && p.endDate == form.endDate
    ensures p.droneId == form.selectedDrone
    ensures -1.0 < p.altitude as real - form.maxHeight < 1.0
    ensures p.altitude == JsTrunc(form.maxHeight)
  {
    ApplicationPayload(
      form.startDate,
      form.endDate,
      "Pending",
      form.selectedDrone,
      if form.selectedPosition.Some? then Some(RoundTo8(form.selectedPosition.value.0)) else None,
      if form.selectedPosition.Some? then Some(RoundTo8(form.selectedPosition.value.1)) else None,
      JsTrunc(form.maxHeight),
      if form.tested then 1 else 0)
  }

  // ---------------------------------------------------------------------
  // getStatusIcon and getWeatherIcon

  const DefaultStatusIcon: string := "📋"

  /** The icon of a lower-case application status, English or Russian. */
  function IconOfStatus(key: string): string
  {
    match key
    case "approved" => "✅"
    case "одобрена" => "✅"
    case "rejected" => "❌"
    case "отклонена" => "❌"
    case "pending" => "⏳"
    case "на рассмотрении" => "⏳"
    case "cancelled" => "🚫"
    case "отменена" => "🚫"
    case "in_progress" => "🔄"
    case "в процессе" => "🔄"
    case _ => DefaultStatusIcon
  }

  const StatusKeys: set<string> := {"approved", "одобрена", "rejected", "отклонена", "pending",
    "на рассмотрении", "cancelled", "отменена", "in_progress", "в процессе"}

  /** getStatusIcon: the status is compared in lower case; a missing or
      unknown status gets the clipboard. */
  function StatusIcon(status: Option<string>): (icon: string)
    ensures icon != DefaultStatusIcon <==> status.Some? && Lower(status.value) in StatusKeys
    // each English status and its Russian name share an icon
    ensures icon == "✅" <==> status.Some? && Lower(status.value) in {"approved", "одобрена"}
    ensures icon == "❌" <==> status.Some? && Lower(status.value) in {"rejected", "отклонена"}
    ensures icon == "⏳" <==> status.Some? && Lower(status.value) in {"pending", "на рассмотрении"}
    ensures icon == "🚫" <==> status.Some? && Lower(status.value) in {"cancelled", "отменена"}
    ensures icon == "🔄" <==> status.Some? && Lower(status.value) in {"in_progress", "в процессе"}
  {
    if status.None? then DefaultStatusIcon else IconOfStatus(Lower(status.value))
  }

  /** The status is compared regardless of case. */
  lemma StatusIconIgnoresCase(status: string)
    ensures StatusIcon(Some(status)) == StatusIcon(Some(Lower(status)))
  {
    LowerIdempotent(status);
  }

  const DefaultWeatherIcon: string := "🌤️"

  function IconOfWeather(key: string): string
  {
    match key
    case "clear" => "☀️"
    case "clouds" => "☁️"
    case "rain" => "🌧️"
    case "snow" => "❄️"
    case "thunderstorm" => "⛈️"
    case "drizzle" => "🌦️"
    case "mist" => "🌫️"
    case "fog" => "🌫️"
    case _ => DefaultWeatherIcon
  }

  const WeatherKeys: set<string> := {"clear", "clouds", "rain", "snow", "thunderstorm", "drizzle", "mist", "fog"}

  /** getWeatherIcon: compared in lower case; mist and fog share an icon;
      anything else gets the sun behind a cloud. */
  function WeatherIcon(weatherMain: Option<string>): (icon: string)
    ensures icon != DefaultWeatherIcon <==> weatherMain.Some? && Lower(weatherMain.value) in WeatherKeys
  {
    if weatherMain.None? then DefaultWeatherIcon else IconOfWeather(Lower(weatherMain.value))
  }

  /** The weather is compared regardless of case. */
  lemma WeatherIconIgnoresCase(weatherMain: string)
    ensures WeatherIcon(Some(weatherMain)) == WeatherIcon(Some(Lower(weatherMain)))
  {
    LowerIdempotent(weatherMain);
  }

  // ---------------------------------------------------------------------
  // getWindDirection

  /** The eight compass labels, clockwise from north. */
  const Directions: seq<string> := ["С", "СВ", "В", "ЮВ", "Ю", "ЮЗ", "З", "СЗ"]

  /** getWindDirection: the label of the nearest multiple of 45 degrees,
      counted modulo 8 with JavaScript's remainder, so an index below zero
      reads past the array. */
  function WindDirection(degrees: real): (r: Option<string>)
    ensures degrees >= -22.5 ==> r.Some?
    ensures r.Some? ==> r.value in Directions
  {
    At(Directions, JsRem(JsRound(degrees / 45.0), 8))
  }

  /** For every direction from -22.5 degrees on, the label is that of a
      multiple of 45 degrees at most 22.5 degrees away, taken modulo 360. */
  lemma WindDirectionNearest(degrees: real)
    requires degrees >= -22.5
    ensures var n := JsRound(degrees / 45.0);
      && -22.5 <= degrees - 45.0 * n as real < 22.5
      && WindDirection(degrees) == Some(Directions[n % 8])
  {
  }

  /** North is "С" both at 0 and at 360 degrees, and a full turn gives the
      same label. */
  lemma WindDirectionNorth()
    ensures WindDirection(0.0) == Some("С") && WindDirection(360.0) == Some("С")
  {
    assert JsRound(360.0 / 45.0) == 8;
  }

  lemma WindDirectionPeriodic(degrees: real)
    requires degrees >= -22.5
    ensures WindDirection(degrees + 360.0) == WindDirection(degrees)
  {
    assert (degrees + 360.0) / 45.0 == degrees / 45.0 + 8.0;
    assert JsRound((degrees + 360.0) / 45.0) == JsRound(degrees / 45.0) + 8;
  }

  /** Below -22.5 degrees the label can be missing: -45 degrees gives none. */
  lemma WindDirectionBelowNorthWest()
    ensures WindDirection(-45.0).None?
  {
    assert JsRound(-45.0 / 45.0) == -1;
  }

  // ---------------------------------------------------------------------
  // getFlightConditions

  datatype Wind = Wind(speed: Option<real>)
  datatype MainReading = MainReading(temp: Option<real>)
  datatype Condition = Condition(main: Option<string>)

  /** The weather object; every part of it may be missing. */
  datatype Weather = Weather(wind: Option<Wind>, main: Option<MainReading>, conditions: Option<seq<Condition>>)

  datatype Rating = Unknown | Good | Caution | Bad

  /** The wind speed, 0 when missing. */
  function WindSpeed(w: Weather): real
  {
    if w.wind.Some? && w.wind.value.speed.Some? then w.wind.value.speed.value else 0.0
  }

  /** The temperature, 0 when missing. */
  function Temperature(w: Weather): real
  {
    if w.main.Some? && w.main.value.temp.Some? then w.main.value.temp.value else 0.0
  }

  /** The lower-cased main condition of the first weather entry, if any. */
  function MainCondition(w: Weather): Option<string>
  {
    if w.conditions.Some? && |w.conditions.value| > 0 && w.conditions.value[0].main.Some? then
      Some(Lower(w.conditions.value[0].main.value))
    else None
  }

  predicate BadSigns(w: Weather)
  {
    WindSpeed(w) > 8.0 || Temperature(w) < -15.0 || Temperature(w) > 35.0
      || MainCondition(w) == Some("thunderstorm")
  }

  predicate CautionSigns(w: Weather)
  {
    WindSpeed(w) > 5.0 || Temperature(w) < -5.0 || Temperature(w) > 30.0
      || MainCondition(w) == Some("rain") || MainCondition(w) == Some("snow")
  }

  /** getFlightConditions. */
  function FlightConditions(weather: Option<Weather>): (r: Rating)
    ensures r == Unknown <==> weather.None?
    ensures r == Bad <==> weather.Some? && BadSigns(weather.value)
    ensures r == Caution <==> weather.Some? && !BadSigns(weather.value) && CautionSigns(weather.value)
  {
    if weather.None? then Unknown
    else if BadSigns(weather.value) then Bad
    else if CautionSigns(weather.value) then Caution
    else Good
  }

  function Severity(r: Rating): nat
  {
    match r
    case Unknown => 0
    case Good => 1
    case Caution => 2
    case Bad => 3
  }

  /** Every bad sign is also a caution sign, so stronger wind, or a
      temperature farther from the comfortable band, never improves the
      rating. */
  lemma BadImpliesCaution(w: Weather)
    requires BadSigns(w) && MainCondition(w) != Some("thunderstorm")
    ensures CautionSigns(w)
  {
  }

  lemma FlightConditionsMonotoneInWind(w: Weather, faster: real)
    requires faster >= WindSpeed(w)
    ensures Severity(FlightConditions(Some(w)))
         <= Severity(FlightConditions(Some(w.(wind := Some(Wind(Some(faster)))))))
  {
  }

  /** A weather object with nothing in it reads as calm at 0 degrees: good. */
  lemma EmptyWeatherIsGood()
    ensures FlightConditions(Some(Weather(None, None, None))) == Good
  {
  }

  // ---------------------------------------------------------------------
  // getDroneColor and getBatteryColor

  const SelectedColor: string := "#ef4444"
  const Palette: seq<string> := ["#3b82f6", "#10b981", "#f59e0b", "#8b5cf6", "#ef4444", "#06b6d4", "#84cc16", "#f97316"]

  /** getDroneColor for an integer drone id: red when selected, otherwise
      the palette entry at the id's remainder by 8 (missing for a negative
      remainder). */
  function DroneColor(droneId: int, isSelected: bool): (color: Option<string>)
    ensures isSelected ==> color == Some(SelectedColor)
    ensures !isSelected && droneId >= 0 ==> color == Some(Palette[droneId % 8])
    ensures !isSelected ==> (color.Some? <==> droneId >= 0 || droneId % 8 == 0)
  {
    if isSelected then Some(SelectedColor) else At(Palette, JsRem(droneId, 8))
  }

  /** Ids eight apart share a colour. */
  lemma DroneColorPeriodic(droneId: nat)
    ensures DroneColor(droneId + 8, false) == DroneColor(droneId, false)
  {
  }

  /** An unselected drone whose id leaves remainder 4 is drawn in the
      selection colour. */
  lemma UnselectedCanLookSelected(droneId: nat)
    requires droneId % 8 == 4
    ensures DroneColor(droneId, false) == DroneColor(droneId, true)
  {
  }

  const BatteryHigh: string := "text-green-600"
  const BatteryMedium: string := "text-yellow-600"
  const BatteryLow: string := "text-red-600"

  /** getBatteryColor: green above 50, yellow above 20, red otherwise. */
  function BatteryColor(battery: real): (color: string)
    ensures color == BatteryHigh <==> battery > 50.0
    ensures color == BatteryLow <==> battery <= 20.0
    ensures color in {BatteryHigh, BatteryMedium, BatteryLow}
  {
    if battery > 50.0 then BatteryHigh
    else if battery > 20.0 then BatteryMedium
    else BatteryLow
  }

  function BatteryRank(color: string): nat
  {
    if color == BatteryHigh then 2 else if color == BatteryMedium then 1 else 0
  }

  /** More charge never gives a worse colour. */
  lemma BatteryColorMonotone(a: real, b: real)
    requires a <= b
    ensures BatteryRank(BatteryColor(a)) <= BatteryRank(BatteryColor(b))
  {
  }

  // ---------------------------------------------------------------------
  // getStatusColor, getStatusText and getMessageTypeColor

  /** The drone statuses the dashboard knows (compared as given, without
      lower-casing). */
  const DroneStatuses: set<string> := {"flying", "paused", "idle", "charging", "maintenance"}

  const DefaultStatusColor: string := "text-gray-600 bg-gray-100"
  const DefaultStatusText: string := "Неизвестно"

  function StatusColor(status: string): (color: string)
    ensures color == DefaultStatusColor <==> status !in DroneStatuses
  {
    match status
    case "flying" => "text-blue-600 bg-blue-100"
    case "paused" => "text-orange-600 bg-orange-100"
    case "idle" => "text-yellow-600 bg-yellow-100"
    case "charging" => "text-purple-600 bg-purple-100"
    case "maintenance" => "text-red-600 bg-red-100"
    case _ => DefaultStatusColor
  }

  function StatusText(status: string): (text: string)
    ensures text == DefaultStatusText <==> status !in DroneStatuses
  {
    match status
    case "flying" => "В полёте"
    case "paused" => "Приостановлен"
    case "idle" => "Ожидание"
    case "charging" => "Зарядка"
    case "maintenance" => "Обслуживание"
    case _ => DefaultStatusText
  }

  /** The colour and the text tables know the same statuses. */
  lemma StatusTablesAgree(s: string)
    ensures StatusColor(s) == DefaultStatusColor <==> StatusText(s) == DefaultStatusText
  {
  }

  const AlertColor: string := "text-red-600"

  /** getMessageTypeColor: rejections and zone alerts are red; unknown
      types are grey. */
  function MessageTypeColor(messageType: string): (color: string)
    ensures color == AlertColor <==> messageType in {"application-rejected", "restricted-zone-alert"}
    ensures messageType in {"flight-started", "flight-resumed", "application-approved"} ==> color == "text-green-600"
  {
    match messageType
    case "flight-started" => "text-green-600"
    case "flight-completed" => "text-blue-600"
    case "flight-paused" => "text-orange-600"
    case "flight-resumed" => "text-green-600"
    case "position-update" => "text-gray-600"
    case "status-update" => "text-purple-600"
    case "warning" => "text-orange-600"
    case "connection" => "text-purple-600"
    case "weather" => "text-blue-600"
    case "application-approved" => "text-green-600"
    case "application-rejected" => AlertColor
    case "application-pending" => "text-yellow-600"
    case "restricted-zone-alert" => AlertColor
    case _ => "text-gray-600"
  }
}
