# Outdoor temperature pipeline of the Celsius display (WeatherAPI.h)

This project models the part of the Celsius e-paper display firmware that fetches the outdoor temperature from a sensor-aggregation web service (narodmon.ru). It keeps three values in RTC memory across deep sleep: the current temperature, the previous temperature and the time of the last update. It averages the sensor readings it receives into one whole-degree value. It also decides when the next fetch is due, and it reports how the temperature changed between the last two updates.

Files:

- `wrappers.dfy`: `Option` (the source's NaN becomes `None`) and `Result`.
- `aggregation.dfy`: module `Aggregation`. It holds the decoded sensor entries (`Reading`), the filter on usable values, the sum and mean, C's `round` (half away from zero), and `Aggregate`, which gives the rounded mean or `None`. Lemmas state that unusable entries are ignored, that any permutation of the sensor array gives the same result, that the result stays within half a degree of the sensor range, and the worked examples.
- `weather_api.dfy`: module `WeatherApi`. It holds the abstract transport outcome (`Transport`) and decoded document (`Document`), the typed failures (`FetchError`), and `FetchOutcome`, the check chain in source order. It also holds the class `WeatherState` with the three retained variables. Its `Fetch` method walks the checks, accumulates `sum` and `count` in a loop, and performs the single state transition. Its functions `ShouldUpdate` and `TemperatureChange` only read the state. The scheduler lemmas and a two-cycle client scenario complete the module.

`WeatherState.Valid()` is the invariant that `Fetch` keeps and the constructor establishes:
- a stored temperature is a whole number of degrees;
- an unknown current temperature means that no update has succeeded (previous also unknown, last-update time 0).

`UnknownTemperatureAlwaysDue` follows from this invariant. In any state these operations can produce, the 300-second retry rule of `shouldUpdateWeather` is never the deciding rule: while the temperature is unknown, the first-update rule already says "due".

Notes on the source's behaviour:
- An HTTP code of -1 is its own failure (`ConnectionFailed`). Every other code except 200 is `HttpError(code)`.
- Only NaN values are skipped (`!isnan`). The source would add an infinite value to the sum, but the model's readings are reals and have no infinity.

## Model

| member | source | states |
|---|---|---|
| `WeatherApi.WeatherState.constructor` | WeatherAPI.h:14-16 | Power-up values: current and previous temperature unknown (NaN), last update 0; the state invariant holds. |
| `WeatherApi.WeatherState.Fetch` | WeatherAPI.h:19-204 | The outcome is the first failing check in source order, or success (`FetchOutcome`). On success: previous takes the old current (even if unknown), current takes the rounded mean, last update takes `now`. On failure all three values are unchanged. The loop keeps `sum`/`count` equal to the sum/count of the usable values of the scanned prefix. The invariant is preserved. |
| `WeatherApi.FetchOutcome` | WeatherAPI.h:19-204 | The check chain in source order. A success means status 200, a non-empty `sensors` array and a stored value equal to `Aggregate` of it; conversely a 200 response whose array has an aggregate always succeeds. |
| `WeatherApi.SuccessCondition` | WeatherAPI.h:94-186 | A fetch succeeds iff status is 200, `sensors` is an array and some entry carries a usable value; the stored value is then `Aggregate` of the array. |
| `WeatherApi.EmptyAndInvalidArrays` | WeatherAPI.h:153-196 | An empty array fails as "array empty" (and only it does); "no valid values" means a non-empty array with no usable entry. |
| `WeatherApi.TransportFailuresFirst` | WeatherAPI.h:21-92 | No WiFi, no IP and code -1 fail with their own error whatever the body; any other code but 200 fails with that code. |
| `WeatherApi.WeatherState.ShouldUpdate` | WeatherAPI.h:207-220 | Always due when last update is 0; otherwise due iff elapsed ≥ 300 s while temperature unknown, ≥ hours×3600 s for hours in [1,24], ≥ 3600 s for a setting of 0 or above 24. |
| `WeatherApi.OutOfRangeHoursActAsOne` | WeatherAPI.h:211-215 | A setting of 0 or above 24 gives the same decision as 1. |
| `WeatherApi.FirstUpdateAlwaysDue` | WeatherAPI.h:208-210 | Last update 0 means due, whatever the time and setting. |
| `WeatherApi.RetryBoundary` | WeatherAPI.h:216-219 | Temperature unknown: 299 s elapsed is not due, 300 s is due. |
| `WeatherApi.SixHourBoundary` | WeatherAPI.h:215-219 | Temperature known, 6-hour setting: 6×3600−1 s is not due, 6×3600 s is due. |
| `WeatherApi.DueStaysDue` | WeatherAPI.h:219 | The decision is monotone in the current time. |
| `WeatherApi.UnknownTemperatureAlwaysDue` | WeatherAPI.h:207-219 | Under the state invariant an unknown temperature always gives "due" (first-update rule). |
| `WeatherApi.WeatherState.TemperatureChange` | WeatherAPI.h:223-228 | Absent iff current or previous is unknown; otherwise previous + change = current. |
| `WeatherApi.ChangeIsWhole` | WeatherAPI.h:223-228 | Under the invariant, a present change is a whole number of degrees. |
| `WeatherApi.CycleOutcomes` | WeatherAPI.h:153-191 | Readings 19 and 21 give 20, a lone NaN fails with "no valid values", a lone 25 gives 25. |
| `WeatherApi.TwoCycles` | WeatherAPI.h:178-186 | From power-up: [19,21] at t=1000 gives {20, unknown, 1000}; a failed fetch changes nothing; [25] at t=5000 gives {25, 20, 5000}; the change is then +5. |
| `Aggregation.RoundHalfAwayFromZero` | WeatherAPI.h:176 | The result is within 1/2 of the input, and a tie goes away from zero (these conditions fix it uniquely). |
| `Aggregation.ValidValues` | WeatherAPI.h:158-167 | Its own contract states only that the usable values are never more than the entries; which values it keeps, and how many, is stated by `ValidValuesMembers` and `AccumulateStep`. |
| `Aggregation.ValidValuesMembers` | WeatherAPI.h:159-161 | A number is a usable value iff some entry has it as a numeric `value`. |
| `Aggregation.Aggregate` | WeatherAPI.h:153-176 | Absent iff no entry carries a usable value. |
| `Aggregation.ValidValuesAppend` | WeatherAPI.h:158-167 | Filtering distributes over concatenation of sensor arrays. |
| `Aggregation.SumAppend` | WeatherAPI.h:162 | The running sum of a concatenation is the sum of the parts. |
| `Aggregation.AccumulateStep` | WeatherAPI.h:158-167 | One loop step adds the entry's value to the sum and 1 to the count iff the entry is usable. |
| `Aggregation.InvalidEntryIgnored` | WeatherAPI.h:159-161 | Inserting an entry with no `value` or a NaN value anywhere leaves the result unchanged. |
| `Aggregation.PermutationKeepsSumAndCount` | WeatherAPI.h:154-167 | Two sensor arrays that are permutations of each other give the same count and the same sum of usable values. |
| `Aggregation.SensorOrderIrrelevant` | WeatherAPI.h:154-176 | Any permutation of the sensor array leaves the result unchanged. |
| `Aggregation.SumBounds` | WeatherAPI.h:154-167 | Values in [lo,hi] sum to between lo·n and hi·n. |
| `Aggregation.MeanBounds` | WeatherAPI.h:175 | The mean of values in [lo,hi] lies in [lo,hi]. |
| `Aggregation.AggregateWithinRange` | WeatherAPI.h:174-176 | If all usable values lie in [lo,hi], the stored temperature lies in [lo−1/2, hi+1/2]. |
| `Aggregation.AgreeingSensors` | WeatherAPI.h:174-176 | Sensors that all report the same whole degree c yield exactly c. |
| `Aggregation.ExampleTwoSensors` | WeatherAPI.h:153-176 | 19 and 21 give 20. |
| `Aggregation.ExampleFractionalMean` | WeatherAPI.h:153-176 | 20 and 22.4 (mean 21.2) give 21. |
| `Aggregation.ExampleSkippedNaNAndTie` | WeatherAPI.h:153-176 | 20, NaN, 23: the NaN is skipped and the mean 21.5 rounds to 22. |
| `Aggregation.ExampleOneSensor` | WeatherAPI.h:153-176 | A single reading of 25 gives 25. |
| `Aggregation.ExampleNegativeTie` | WeatherAPI.h:159-176 | An entry without `value` is skipped; −0.5 rounds to −1. |
| `Aggregation.NoUsableValues` | WeatherAPI.h:174-191 | An empty array, [NaN] and [NaN, no value] give no temperature. |

## Left out

- WiFi status, IP lookup, `HTTPClient` setup, timeouts (20 s, 15 s connect) and connection reuse: the exchange is the abstract input `Transport`. Both WiFi checks (at entry and just before the request) are the single case `WifiDown`.
- JSON decoding (ArduinoJson, the 512-byte document, how `as<float>()` converts non-numeric values): the decoded document is the abstract input `Document`, with each entry already classified as "no value", NaN or a number.
- Logging and diagnostics (`logToDisplay`, `Serial`, key listing, payload preview, sizes, error strings): they do not affect control flow. Only the decoder's error text is kept, in `JsonError`.
- `time(nullptr)`: the time is the parameter `now`. RTC retention is modelled as the `WeatherState` object simply persisting between calls.
- WeatherApi.WeatherState.Fetch: values and the mean are exact reals, so single-precision summation and rounding error are not modelled.
- WeatherApi.WeatherState.ShouldUpdate: times are unbounded integers. A clock that goes backwards gives "not due", as with a signed 64-bit `time_t`. The mixed `time_t`/`uint32_t` comparison of a 32-bit build is not modelled.
- No Fahrenheit conversion appears in WeatherAPI.h, so none is modelled.
- The hour setting is a `uint8` value. How callers convert wider integers to `uint8_t` is not part of this model.
