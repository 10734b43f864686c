/**
 * The outdoor-temperature pipeline of WeatherAPI.h: the three values kept in
 * RTC memory across deep sleep, the fetch-and-update operation, the update
 * scheduler and the temperature-change query.
 *
 * The network exchange and JSON decoding are abstract inputs: a `Transport`
 * value says how the HTTP exchange ended and, for status 200, what the decoder
 * made of the body.
 */
module WeatherApi {
  import opened Wrappers
  import opened Aggregation

  /** The `uint8_t` hour setting passed to the scheduler. */
  newtype uint8 = x: int | 0 <= x < 0x100

  /** Retry period, in seconds, while the temperature is unknown. */
  const RetryPeriodSec := 300
  const SecondsPerHour := 3600
  const MinUpdateHours := 1
  const MaxUpdateHours := 24
  const HttpOk := 200
  /** The code `HTTPClient::GET` returns when the connection could not be made. */
  const HttpConnectionFailed := -1

  /** What the JSON decoder made of a status-200 body. */
  datatype Document =
    | Unparsable(reason: string)         // deserializeJson reported an error
    | SensorsAbsent                      // the root has no `sensors` key
    | SensorsWrongType                   // `sensors` is not an array
    | SensorsList(entries: seq<Reading>) // `sensors` is an array

  /** How the network part of a fetch ended. */
  datatype Transport =
    | WifiDown                           // WiFi not connected, at entry or just before the request
    | IpMissing                          // the device has no IP address
    | HttpResponse(code: int, body: Document) // `body` is looked at only when `code` is 200

  /** Why a fetch failed, one kind per early return of the source. */
  datatype FetchError =
    | NotConnected
    | NoDeviceIp
    | ConnectionFailed
    | HttpError(code: int)
    | JsonError(reason: string)
    | MissingSensorsKey
    | SensorsNotArray
    | EmptySensorArray
    | NoValidValues

  /** The outcome of a fetch: the source's `true` is `Updated`. */
  datatype Status = Updated | Failed(error: FetchError)

  /**
   * What a fetch reports for a given exchange: the first failing check in the
   * source's order, or the whole-degree temperature to store.
   */
  function FetchOutcome(link: Transport): (r: Result<int, FetchError>)
    ensures r.Ok? ==>
              link.HttpResponse? && link.code == HttpOk && link.body.SensorsList? &&
              |link.body.entries| > 0 && Aggregate(link.body.entries) == Some(r.value)
    ensures (link.HttpResponse? && link.code == HttpOk && link.body.SensorsList? &&
             Aggregate(link.body.entries).Some?) ==> r.Ok?
  {
    match link
    case WifiDown => Err(NotConnected)
    case IpMissing => Err(NoDeviceIp)
    case HttpResponse(code, body) =>
      if code == HttpConnectionFailed then Err(ConnectionFailed)
      else if code != HttpOk then Err(HttpError(code))
      else
        match body
        case Unparsable(reason) => Err(JsonError(reason))
        case SensorsAbsent => Err(MissingSensorsKey)
        case SensorsWrongType => Err(SensorsNotArray)
        case SensorsList(entries) =>
          if |entries| == 0 then Err(EmptySensorArray)
          else
            match Aggregate(entries)
            case None => Err(NoValidValues)
            case Some(t) => Ok(t)
  }

  /**
   * The retained weather state. `None` stands for the source's NaN; a
   * `lastUpdate` of 0 means no update has happened.
   */
  class WeatherState {
    var current: Option<real>
    var previous: Option<real>
    var lastUpdate: int

    /**
     * Stored temperatures are whole degrees, and an unknown current temperature
     * means that no update has succeeded yet.
     */
    ghost predicate Valid()
      reads this
    {
      (current.Some? ==> IsWhole(current.value)) &&
      (previous.Some? ==> IsWhole(previous.value)) &&
      (current.None? ==> previous.None? && lastUpdate == 0)
    }

    /** The values the retained variables hold after a full power-up. */
    constructor ()
      ensures Valid()
      ensures current == None && previous == None && lastUpdate == 0
    {
      current, previous, lastUpdate := None, None, 0;
    }

    /**
     * Whether a fetch is due at time `now`: always before the first update,
     * otherwise once the period has elapsed, which is 300 s while the
     * temperature is unknown and `hours` hours (an out-of-range setting counts
     * as 1) while it is known.
     */
    function ShouldUpdate(now: int, hours: uint8): (due: bool)
      reads this
      ensures lastUpdate == 0 ==> due
      ensures lastUpdate != 0 && current.None? ==> (due <==> now - lastUpdate >= 300)
      ensures lastUpdate != 0 && current.Some? && 1 <= hours <= 24 ==>
                (due <==> now - lastUpdate >= hours as int * 3600)
      ensures lastUpdate != 0 && current.Some? && (hours == 0 || hours > 24) ==>
                (due <==> now - lastUpdate >= 3600)
    {
      if lastUpdate == 0 then true
      else
        var h := if hours < MinUpdateHours as uint8 || hours > MaxUpdateHours as uint8
                 then MinUpdateHours else hours as int;
        var period := if current.None? then RetryPeriodSec else h * SecondsPerHour;
        now - lastUpdate >= period
    }

    /** The change from the previous to the current temperature, when both are known. */
    function TemperatureChange(): (d: Option<real>)
      reads this
      ensures d.Some? <==> current.Some? && previous.Some?
      ensures d.Some? ==> previous.value + d.value == current.value
    {
      if current.None? || previous.None? then None
      else Some(current.value - previous.value)
    }

    /**
     * One call of `fetchOutdoorTemperature` at time `now`. On success the
     * previous temperature takes the old current one (known or not), the
     * current one takes the rounded mean and the update time becomes `now`;
     * on any failure nothing changes.
     */
    method Fetch(link: Transport, now: int) returns (status: Status)
      requires Valid()
      modifies this
      ensures Valid()
      ensures status.Updated? <==> FetchOutcome(link).Ok?
      ensures status.Failed? ==>
                status.error == FetchOutcome(link).error &&
                current == old(current) && previous == old(previous) && lastUpdate == old(lastUpdate)
      ensures status.Updated? ==>
                previous == old(current) &&
                current == Some(FetchOutcome(link).value as real) &&
                lastUpdate == now
    {
      match link {
        case WifiDown =>
          return Failed(NotConnected);
        case IpMissing =>
          return Failed(NoDeviceIp);
        case HttpResponse(code, body) =>
          if code == HttpConnectionFailed {
            return Failed(ConnectionFailed);
          }
          if code != HttpOk {
            return Failed(HttpError(code));
          }
          match body {
            case Unparsable(reason) =>
              return Failed(JsonError(reason));
            case SensorsAbsent =>
              return Failed(MissingSensorsKey);
            case SensorsWrongType =>
              return Failed(SensorsNotArray);
            case SensorsList(entries) =>
              if |entries| == 0 {
                return Failed(EmptySensorArray);
              }
              var sum, count := 0.0, 0;
              for i := 0 to |entries|
                invariant sum == Sum(ValidValues(entries[..i]))
                invariant count == |ValidValues(entries[..i])|
                invariant current == old(current) && previous == old(previous) && lastUpdate == old(lastUpdate)
              {
                AccumulateStep(entries, i);
                match entries[i] {
                  case Value(v) =>
                    sum, count := sum + v, count + 1;
                  case _ =>
                }
              }
              assert entries[..|entries|] == entries;
              if count > 0 {
                var average := sum / count as real;
                var rounded := RoundHalfAwayFromZero(average);
                previous := current;
                current := Some(rounded as real);
                lastUpdate := now;
                return Updated;
              } else {
                return Failed(NoValidValues);
              }
          }
      }
    }
  }

  /**
   * A fetch succeeds exactly when the exchange returned status 200 with a
   * `sensors` array holding at least one usable value, and the temperature it
   * stores is the aggregate of that array.
   */
  lemma SuccessCondition(link: Transport)
    ensures FetchOutcome(link).Ok? <==>
              link.HttpResponse? && link.code == HttpOk && link.body.SensorsList? &&
              exists i :: 0 <= i < |link.body.entries| && link.body.entries[i].Value?
    ensures FetchOutcome(link).Ok? ==> Aggregate(link.body.entries) == Some(FetchOutcome(link).value)
  {
  }

  /**
   * The emptiness check comes before the value check: an empty array is
   * reported as such, and "no valid values" means a non-empty array of
   * unusable entries.
   */
  lemma EmptyAndInvalidArrays(link: Transport)
    ensures FetchOutcome(link) == Err(EmptySensorArray) <==> link == HttpResponse(HttpOk, SensorsList([]))
    ensures FetchOutcome(link) == Err(NoValidValues) <==>
              link.HttpResponse? && link.code == HttpOk && link.body.SensorsList? &&
              |link.body.entries| > 0 &&
              forall i :: 0 <= i < |link.body.entries| ==> !link.body.entries[i].Value?
  {
  }

  /** The transport checks come first: whatever the body, a failed exchange is reported as such. */
  lemma TransportFailuresFirst(code: int, body: Document)
    ensures FetchOutcome(WifiDown) == Err(NotConnected)
    ensures FetchOutcome(IpMissing) == Err(NoDeviceIp)
    ensures FetchOutcome(HttpResponse(HttpConnectionFailed, body)) == Err(ConnectionFailed)
    ensures code != HttpOk && code != HttpConnectionFailed ==>
              FetchOutcome(HttpResponse(code, body)) == Err(HttpError(code))
  {
  }

  /** A setting of 0 or above 24 hours schedules exactly like a setting of 1. */
  lemma OutOfRangeHoursActAsOne(s: WeatherState, now: int, hours: uint8)
    requires hours == 0 || hours > 24
    ensures s.ShouldUpdate(now, hours) == s.ShouldUpdate(now, 1)
  {
  }

  /** Before the first update a fetch is due whatever the time and the setting. */
  lemma FirstUpdateAlwaysDue(s: WeatherState, now: int, hours: uint8)
    requires s.lastUpdate == 0
    ensures s.ShouldUpdate(now, hours)
  {
  }

  /** While the temperature is unknown, 299 s after the last update is too early and 300 s is due. */
  lemma RetryBoundary(s: WeatherState, hours: uint8)
    requires s.lastUpdate != 0 && s.current.None?
    ensures !s.ShouldUpdate(s.lastUpdate + 299, hours)
    ensures s.ShouldUpdate(s.lastUpdate + 300, hours)
  {
  }

  /** With a known temperature and a 6-hour setting, the update falls due exactly at 6 h. */
  lemma SixHourBoundary(s: WeatherState)
    requires s.lastUpdate != 0 && s.current.Some?
    ensures !s.ShouldUpdate(s.lastUpdate + 6 * 3600 - 1, 6)
    ensures s.ShouldUpdate(s.lastUpdate + 6 * 3600, 6)
  {
  }

  /** Once due, an update stays due as time goes on. */
  lemma DueStaysDue(s: WeatherState, now: int, later: int, hours: uint8)
    requires now <= later && s.ShouldUpdate(now, hours)
    ensures s.ShouldUpdate(later, hours)
  {
  }

  /**
   * In every state the operations can produce, an unknown temperature means no
   * update has succeeded, so the scheduler says "due" through the first-update
   * rule before the 300 s retry period is consulted.
   */
  lemma UnknownTemperatureAlwaysDue(s: WeatherState, now: int, hours: uint8)
    requires s.Valid() && s.current.None?
    ensures s.ShouldUpdate(now, hours)
  {
  }

  /** The temperature change between two stored readings is a whole number of degrees. */
  lemma ChangeIsWhole(s: WeatherState)
    requires s.Valid()
    ensures s.TemperatureChange().Some? ==> IsWhole(s.TemperatureChange().value)
  {
    if s.current.Some? && s.previous.Some? {
      var c, p := s.current.value.Floor, s.previous.value.Floor;
      assert s.TemperatureChange().value == (c - p) as real;
    }
  }

  /** What the three exchanges of `TwoCycles` report. */
  lemma CycleOutcomes()
    ensures FetchOutcome(HttpResponse(200, SensorsList([Value(19.0), Value(21.0)]))) == Ok(20)
    ensures FetchOutcome(HttpResponse(200, SensorsList([NaNValue]))) == Err(NoValidValues)
    ensures FetchOutcome(HttpResponse(200, SensorsList([Value(25.0)]))) == Ok(25)
  {
    ExampleTwoSensors();
    NoUsableValues();
    ExampleOneSensor();
  }

  /**
   * Two successful cycles from power-up (readings 19 and 21 at t = 1000, then
   * 25 at t = 5000) with a failed one between them: the stored state follows
   * the transition rule and the change is +5 degrees.
   */
  method TwoCycles() returns (change: Option<real>)
    ensures change == Some(5.0)
  {
    CycleOutcomes();
    var s := new WeatherState();
    var status := s.Fetch(HttpResponse(200, SensorsList([Value(19.0), Value(21.0)])), 1000);
    assert status == Updated;
    assert s.current == Some(20.0) && s.previous == None && s.lastUpdate == 1000;

    status := s.Fetch(HttpResponse(200, SensorsList([NaNValue])), 3000);
    assert status == Failed(NoValidValues);
    assert s.current == Some(20.0) && s.previous == None && s.lastUpdate == 1000;

    status := s.Fetch(HttpResponse(200, SensorsList([Value(25.0)])), 5000);
    assert status == Updated;
    assert s.current == Some(25.0) && s.previous == Some(20.0) && s.lastUpdate == 5000;

    change := s.TemperatureChange();
  }
}
