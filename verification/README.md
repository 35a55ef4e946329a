# BME280 polling sensor: measurement filter and interval command

This project models the ST_Anything polling sensor
`PS_Adafruit_BME280_TemperatureHumidityPressure`. The sensor reads
temperature, humidity and pressure from a BME280 chip. It smooths each reading
with an exponential moving average and reports the three values as
`"name value"` strings. It also accepts a command that changes its polling
interval.

The model is written in Dafny and is purely functional:

- `Filter` (`filter.dfy`) holds the smoothing law over exact reals. It has the
  clamp that turns the byte filter constant into the coefficient `alpha`, the
  Celsius-to-Fahrenheit scaling, and the per-quantity update. The update
  bootstraps while the value is the sentinel `-1.0` and blends otherwise.
- `Bme280` (`bme280.dfy`) holds the sensor record (`Sensor`) and its operations:
  - the constructor `Create`, with its default arguments in `CreateWithDefaults`;
  - `GetData`, one poll;
  - `Init`, the start-up read after a successful probe;
  - `BeSmart`, the interval command.

  Raw driver readings are a `Readings` argument. The reporting channel is the
  sequence of `Report(name, value)` that a poll returns.
- `Text` (`text.dfy`) holds the Arduino `String` operations the command handler
  uses (`indexOf`, `substring`) and the `"name value"` layout shared by the
  emitted reports and the interval command.
- `ArduinoInt` (`arduino_int.dfy`) holds `String::toInt`, modelled as C's
  `atol`. It skips leading white space, reads one optional sign, then the
  longest run of digits, and gives 0 when there are no digits. It is proved to
  read back every integer from its decimal text.

Two consequences of the code are worth stating:

- The sentinel test is an equality, so a value that filters to exactly `-1.0`
  bootstraps again on the next poll. `Bme280.SentinelReentry` exhibits such a
  run. It uses Celsius mode with coefficient 0.5: from -3 °C a reading of 1 °C
  gives -1.0, and the next reading of 9 °C is taken whole (9) instead of
  blended (4).
- For the same reason the Celsius and Fahrenheit modes agree step by step
  only away from the sentinel: a stored -1.0 bootstraps in one unit while the
  same temperature in the other unit blends (`Filter.UnitsPartAtSentinel`).
- The clamp gives `alpha` in `[0.05, 1]`; it is never 0 and never the raw
  percentage.

## Model

| member | source | states |
|---|---|---|
| `Text.IndexOf` | Arduino/libraries/ST_Anything_Adafruit_BME280_TemperatureHumidityBarometric/PS_Adafruit_BME280_TemperatureHumidityBarometric.cpp:104 | the result is -1 exactly when the character is absent; otherwise it is a position holding the character with no earlier occurrence |
| `Text.SubstringFrom` | Arduino/libraries/ST_Anything_Adafruit_BME280_TemperatureHumidityBarometric/PS_Adafruit_BME280_TemperatureHumidityBarometric.cpp:104 | the text is the prefix followed by the result; past the end the result is empty |
| `Text.AfterFirstSpace` | Arduino/libraries/ST_Anything_Adafruit_BME280_TemperatureHumidityBarometric/PS_Adafruit_BME280_TemperatureHumidityBarometric.cpp:104 | a command with no space is kept whole; otherwise the command is a space-free keyword, one space, then the result |
| `Text.SmartString` | Arduino/libraries/ST_Anything_Adafruit_BME280_TemperatureHumidityBarometric/PS_Adafruit_BME280_TemperatureHumidityBarometric.cpp:198-200 | a `"name value"` line is exactly the name, then one space at position `|name|`, then the text |
| `Text.SmartStringSplits` | Arduino/libraries/ST_Anything_Adafruit_BME280_TemperatureHumidityBarometric/PS_Adafruit_BME280_TemperatureHumidityBarometric.cpp:104 | when the name holds no space, splitting the line at its first space gives back exactly the text |
| `ArduinoInt.SkipSpaces` | Arduino/libraries/ST_Anything_Adafruit_BME280_TemperatureHumidityBarometric/PS_Adafruit_BME280_TemperatureHumidityBarometric.cpp:106 | the result is a suffix; everything dropped is white space and the result does not start with white space |
| `ArduinoInt.DigitRun` | Arduino/libraries/ST_Anything_Adafruit_BME280_TemperatureHumidityBarometric/PS_Adafruit_BME280_TemperatureHumidityBarometric.cpp:106 | the result is the length of the longest all-digit prefix |
| `ArduinoInt.ToInt` | Arduino/libraries/ST_Anything_Adafruit_BME280_TemperatureHumidityBarometric/PS_Adafruit_BME280_TemperatureHumidityBarometric.cpp:106 | text whose first non-space character is not a sign or a digit reads as 0 |
| `ArduinoInt.ToIntDecimal` | Arduino/libraries/ST_Anything_Adafruit_BME280_TemperatureHumidityBarometric/PS_Adafruit_BME280_TemperatureHumidityBarometric.cpp:106-107 | `toInt` reads back every integer, negative ones included, from its decimal text |
| `ArduinoInt.ToIntSkipsLeadingSpaces` | Arduino/libraries/ST_Anything_Adafruit_BME280_TemperatureHumidityBarometric/PS_Adafruit_BME280_TemperatureHumidityBarometric.cpp:104-106 | white space in front of the number (e.g. two spaces after the keyword) does not change the value read |
| `ArduinoInt.ToIntStopsAfterNumber` | Arduino/libraries/ST_Anything_Adafruit_BME280_TemperatureHumidityBarometric/PS_Adafruit_BME280_TemperatureHumidityBarometric.cpp:106 | the decimal text of any integer followed by anything not starting with a digit (e.g. a line ending) reads as that integer |
| `ArduinoInt.ToIntPlusSign` | Arduino/libraries/ST_Anything_Adafruit_BME280_TemperatureHumidityBarometric/PS_Adafruit_BME280_TemperatureHumidityBarometric.cpp:106 | a plus sign in front of a non-negative number's decimal text, with anything non-digit after it, reads as that number |
| `Filter.Alpha` | Arduino/libraries/ST_Anything_Adafruit_BME280_TemperatureHumidityBarometric/PS_Adafruit_BME280_TemperatureHumidityBarometric.cpp:79-91 | `alpha` lies in [0.05, 1] and equals the effective percentage / 100, where the effective percentage is the constant raised to 5 and capped at 100, with 0 counting as 100; `alpha` is 1 iff the constant is 0 or at least 100, and 0.05 iff it is 1..5 |
| `Filter.AlphaBoundaries` | Arduino/libraries/ST_Anything_Adafruit_BME280_TemperatureHumidityBarometric/PS_Adafruit_BME280_TemperatureHumidityBarometric.cpp:80-91 | 0→1, 1→0.05, 5→0.05, 6→0.06, 50→0.5, 99→0.99, 100→1, 255→1 |
| `Filter.AlphaMonotone` | Arduino/libraries/ST_Anything_Adafruit_BME280_TemperatureHumidityBarometric/PS_Adafruit_BME280_TemperatureHumidityBarometric.cpp:84-91 | among non-zero constants a larger percentage never gives a smaller coefficient |
| `Filter.Fahrenheit` | Arduino/libraries/ST_Anything_Adafruit_BME280_TemperatureHumidityBarometric/PS_Adafruit_BME280_TemperatureHumidityBarometric.cpp:160 | the Fahrenheit value converts back to the Celsius reading via (f - 32) / 1.8 |
| `Filter.TemperatureSample` | Arduino/libraries/ST_Anything_Adafruit_BME280_TemperatureHumidityBarometric/PS_Adafruit_BME280_TemperatureHumidityBarometric.cpp:158-165 | in Celsius mode the raw reading is used as is; otherwise the sample is its Fahrenheit value |
| `Filter.FahrenheitCommutesWithBlend` | Arduino/libraries/ST_Anything_Adafruit_BME280_TemperatureHumidityBarometric/PS_Adafruit_BME280_TemperatureHumidityBarometric.cpp:169-176 | one blend step gives the same temperature in either unit: blending Fahrenheit values equals converting the blend of the Celsius values |
| `Filter.UpdateCommutesAwayFromSentinel` | Arduino/libraries/ST_Anything_Adafruit_BME280_TemperatureHumidityBarometric/PS_Adafruit_BME280_TemperatureHumidityBarometric.cpp:143-176 | one update gives the same temperature in either unit when neither stored value is exactly -1.0 |
| `Filter.UnitsPartAtSentinel` | Arduino/libraries/ST_Anything_Adafruit_BME280_TemperatureHumidityBarometric/PS_Adafruit_BME280_TemperatureHumidityBarometric.cpp:154-176 | the two units part ways at the sentinel: a stored -1.0 °C bootstraps while 30.2 °F blends, and a stored -1.0 °F (-55/3 °C) bootstraps while its Celsius counterpart blends |
| `Filter.Update` | Arduino/libraries/ST_Anything_Adafruit_BME280_TemperatureHumidityBarometric/PS_Adafruit_BME280_TemperatureHumidityBarometric.cpp:143-151 | at the sentinel the result is the sample; otherwise its distance to the sample is `(1 - alpha)` times the old distance; with `alpha = 1` it is always the sample |
| `Filter.BlendBetween` | Arduino/libraries/ST_Anything_Adafruit_BME280_TemperatureHumidityBarometric/PS_Adafruit_BME280_TemperatureHumidityBarometric.cpp:150 | with `alpha` in [0, 1] the blended value lies between the old value and the sample |
| `Filter.UpdateContracts` | Arduino/libraries/ST_Anything_Adafruit_BME280_TemperatureHumidityBarometric/PS_Adafruit_BME280_TemperatureHumidityBarometric.cpp:143-151 | on either branch the distance to the sample is at most `(1 - alpha)` times the old distance |
| `Filter.UpdateNoFarther` | Arduino/libraries/ST_Anything_Adafruit_BME280_TemperatureHumidityBarometric/PS_Adafruit_BME280_TemperatureHumidityBarometric.cpp:143-151 | no update moves a value away from its sample |
| `Filter.UpdateRepeatedlyNeverFarther` | Arduino/libraries/ST_Anything_Adafruit_BME280_TemperatureHumidityBarometric/PS_Adafruit_BME280_TemperatureHumidityBarometric.cpp:143-151 | under a constant sample, the distance after `n` updates is at most the distance after any `m <= n`, sentinel re-entries included |
| `Bme280.Create` | Arduino/libraries/ST_Anything_Adafruit_BME280_TemperatureHumidityBarometric/PS_Adafruit_BME280_TemperatureHumidityBarometric.cpp:69-93 | all three values start at the sentinel; the names, unit mode and interval are stored as given; `alpha` is the clamped percentage as a fraction in [0.05, 1] |
| `Bme280.DefaultsReportFahrenheitUnsmoothed` | Arduino/libraries/ST_Anything_Adafruit_BME280_TemperatureHumidityBarometric/PS_Adafruit_BME280_TemperatureHumidityBarometric.h:78 | with the default arguments `alpha` is 1, temperature is in Fahrenheit, the names are temperature1/humidity1/pressure1, and a first poll reports the Fahrenheit reading |
| `Bme280.GetData` | Arduino/libraries/ST_Anything_Adafruit_BME280_TemperatureHumidityBarometric/PS_Adafruit_BME280_TemperatureHumidityBarometric.cpp:139-201 | each quantity at the sentinel takes its sample; every other one becomes `alpha*sample + (1-alpha)*old`; the configuration and interval do not change; exactly three reports are emitted, temperature, humidity, pressure, each with its configured name and new value |
| `Bme280.EmittedLines` | Arduino/libraries/ST_Anything_Adafruit_BME280_TemperatureHumidityBarometric/PS_Adafruit_BME280_TemperatureHumidityBarometric.cpp:198-200 | each emitted line is its report's name, one space, then the rendered value, one line per report |
| `Bme280.EmittedLinesCarryValues` | Arduino/libraries/ST_Anything_Adafruit_BME280_TemperatureHumidityBarometric/PS_Adafruit_BME280_TemperatureHumidityBarometric.cpp:198-200 | when no name holds a space, splitting the i-th emitted line at its first space gives the rendered new value of the i-th quantity in the order temperature, humidity, pressure |
| `Bme280.GettersReturnReportedValues` | Arduino/libraries/ST_Anything_Adafruit_BME280_TemperatureHumidityBarometric/PS_Adafruit_BME280_TemperatureHumidityBarometric.h:93-95 | after a poll the three getters return exactly the values that poll reported |
| `Bme280.Init` | Arduino/libraries/ST_Anything_Adafruit_BME280_TemperatureHumidityBarometric/PS_Adafruit_BME280_TemperatureHumidityBarometric.cpp:124-136 | start-up changes only the three values: names, unit mode, `alpha` and interval are kept and a valid `alpha` stays valid; on a sensor whose values are all at the sentinel, each value becomes its sample and the samples are reported in order |
| `Bme280.GetDataKeepsValid` | Arduino/libraries/ST_Anything_Adafruit_BME280_TemperatureHumidityBarometric/PS_Adafruit_BME280_TemperatureHumidityBarometric.h:71 | a poll keeps the stored filter constant a fraction in [0.05, 1] |
| `Bme280.QuantitiesIndependent` | Arduino/libraries/ST_Anything_Adafruit_BME280_TemperatureHumidityBarometric/PS_Adafruit_BME280_TemperatureHumidityBarometric.cpp:143-189 | a quantity's new value depends only on its own old value and reading, `alpha` and the unit mode, and not on the other two quantities |
| `Bme280.GetDataStaysBetween` | Arduino/libraries/ST_Anything_Adafruit_BME280_TemperatureHumidityBarometric/PS_Adafruit_BME280_TemperatureHumidityBarometric.cpp:148-189 | for a sensor with valid `alpha`, an initialised value moves to a point between its old value and its sample |
| `Bme280.FullAlphaReportsSamples` | Arduino/libraries/ST_Anything_Adafruit_BME280_TemperatureHumidityBarometric/PS_Adafruit_BME280_TemperatureHumidityBarometric.cpp:143-189 | with `alpha = 1` every poll sets every value to its sample, smoothing nothing |
| `Bme280.GetDataContracts` | Arduino/libraries/ST_Anything_Adafruit_BME280_TemperatureHumidityBarometric/PS_Adafruit_BME280_TemperatureHumidityBarometric.cpp:143-189 | one poll shrinks each value's distance to its sample at least by the factor `1 - alpha` |
| `Bme280.RepeatedPollsNeverMoveAway` | Arduino/libraries/ST_Anything_Adafruit_BME280_TemperatureHumidityBarometric/PS_Adafruit_BME280_TemperatureHumidityBarometric.cpp:139-189 | under constant readings, no later poll leaves a value farther from its sample than an earlier one |
| `Bme280.BootstrapExample` | Arduino/libraries/ST_Anything_Adafruit_BME280_TemperatureHumidityBarometric/PS_Adafruit_BME280_TemperatureHumidityBarometric.cpp:154-160 | a fresh sensor in Fahrenheit mode reading 20 °C stores exactly 68 |
| `Bme280.ConversionBeforeBlending` | Arduino/libraries/ST_Anything_Adafruit_BME280_TemperatureHumidityBarometric/PS_Adafruit_BME280_TemperatureHumidityBarometric.cpp:169-172 | with `alpha` 0.5, stored 68 °F and a reading of 190/9 °C the result is 69; scaling after the blend would give something else |
| `Bme280.SentinelReentry` | Arduino/libraries/ST_Anything_Adafruit_BME280_TemperatureHumidityBarometric/PS_Adafruit_BME280_TemperatureHumidityBarometric.cpp:154-176 | an initialised Celsius temperature can filter to exactly -1.0, after which the next poll bootstraps instead of blending |
| `Bme280.IntervalCommand` | Arduino/libraries/ST_Anything_Adafruit_BME280_TemperatureHumidityBarometric/PS_Adafruit_BME280_TemperatureHumidityBarometric.cpp:104-107 | the command is ignored exactly when the text after the first space (the whole command when it has none) reads as 0; otherwise the interval is that number times 1000, a non-zero multiple of 1000 |
| `Bme280.BeSmart` | Arduino/libraries/ST_Anything_Adafruit_BME280_TemperatureHumidityBarometric/PS_Adafruit_BME280_TemperatureHumidityBarometric.cpp:102-121 | only the interval can change; an ignored command leaves the sensor unchanged; an applied one sets the interval in milliseconds |
| `Bme280.BeSmartReadsText` | Arduino/libraries/ST_Anything_Adafruit_BME280_TemperatureHumidityBarometric/PS_Adafruit_BME280_TemperatureHumidityBarometric.cpp:104-107 | `"<keyword> <text>"` with a space-free keyword and text reading as non-zero `k` sets the interval to `k * 1000` and changes nothing else |
| `Bme280.BeSmartSetsSeconds` | Arduino/libraries/ST_Anything_Adafruit_BME280_TemperatureHumidityBarometric/PS_Adafruit_BME280_TemperatureHumidityBarometric.cpp:104-107 | `"<keyword> <n>"` with a space-free keyword and non-zero `n` sets the interval to `n * 1000` |
| `Bme280.BeSmartWithoutSpace` | Arduino/libraries/ST_Anything_Adafruit_BME280_TemperatureHumidityBarometric/PS_Adafruit_BME280_TemperatureHumidityBarometric.cpp:104-107 | a bare number `n` (no space) is parsed whole and sets the interval to `n * 1000` |
| `Bme280.BeSmartIgnoresZeroAndText` | Arduino/libraries/ST_Anything_Adafruit_BME280_TemperatureHumidityBarometric/PS_Adafruit_BME280_TemperatureHumidityBarometric.cpp:106-120 | `"<keyword> 0"` and `"<keyword> <text>"`, where the text starts with no sign, digit or space, leave the sensor unchanged |
| `Bme280.IntervalCommandThirty` | Arduino/libraries/ST_Anything_Adafruit_BME280_TemperatureHumidityBarometric/PS_Adafruit_BME280_TemperatureHumidityBarometric.cpp:104-107 | `"x 30"` sets the interval to 30000 |
| `Bme280.IntervalCommandTwoSpaces` | Arduino/libraries/ST_Anything_Adafruit_BME280_TemperatureHumidityBarometric/PS_Adafruit_BME280_TemperatureHumidityBarometric.cpp:104-107 | `"x  30"` sets the interval to 30000 |
| `Bme280.IntervalCommandPlusSign` | Arduino/libraries/ST_Anything_Adafruit_BME280_TemperatureHumidityBarometric/PS_Adafruit_BME280_TemperatureHumidityBarometric.cpp:104-107 | `"x +30"` sets the interval to 30000 |
| `Bme280.IntervalCommandLeadingZero` | Arduino/libraries/ST_Anything_Adafruit_BME280_TemperatureHumidityBarometric/PS_Adafruit_BME280_TemperatureHumidityBarometric.cpp:104-107 | `"x 030"` sets the interval to 30000 |
| `Bme280.IntervalCommandLineEnd` | Arduino/libraries/ST_Anything_Adafruit_BME280_TemperatureHumidityBarometric/PS_Adafruit_BME280_TemperatureHumidityBarometric.cpp:104-107 | `"x 30\r\n"` sets the interval to 30000 |
| `Bme280.IntervalCommandZero` | Arduino/libraries/ST_Anything_Adafruit_BME280_TemperatureHumidityBarometric/PS_Adafruit_BME280_TemperatureHumidityBarometric.cpp:106-120 | `"x 0"` changes nothing |
| `Bme280.IntervalCommandText` | Arduino/libraries/ST_Anything_Adafruit_BME280_TemperatureHumidityBarometric/PS_Adafruit_BME280_TemperatureHumidityBarometric.cpp:106-120 | `"x abc"` changes nothing |

## Left out

- BME280 driver: `bme.begin()`, `readHumidity`, `readTemperature`, `readPressure`, the static driver object and its pin macros. This is foreign code. The readings are a `Readings` argument to `GetData`, and `Init` models only the path after a successful probe.
- Probe failure in `init`: the `delay(1500)` and the endless `while (1)` loop. These are timing and non-termination, not values.
- Read order: the code reads humidity, then temperature, then pressure. Once the readings are inputs this order cannot be observed, so only the emission order is modelled.
- Debug output: all `Serial.print` calls.
- Transport: `Everything::sendSmartString` and the decimal rendering `String(float)`. Emission is a `Report(name, value)` pair; `Bme280.EmittedLines` lays each report out as a line around a rendering function passed in as a parameter.
- IEEE float arithmetic: values, `alpha`, `0.05`, `1.8` and `filterConstant/100` are exact reals, so float rounding is not modelled.
- Non-finite readings: a NaN (or infinite) reading from a failed read is not modelled. In the code a NaN value never equals the sentinel, so it would be blended on every later poll and stay NaN for good, never bootstrapping again; exact reals cannot express this.
- Scheduler: `PollingSensor` is not part of this model. This covers the polling offset, the object name, how its constructor stores the interval, and what `setInterval` does beyond storing the value. The interval is a plain `intervalMillis` field that `Create` stores as given.
- `ArduinoInt.ToInt`: integers are unbounded, so `long` overflow in `atol` and in `toInt() * 1000` is not modelled, and negative intervals are accepted as the code passes them on.
- The destructor (empty) and the unused `SEALEVELPRESSURE_HPA` constant.
- Getters: `getTemperatureSensorValue`, `getHumiditySensorValue` and `getPressureSensorValue` are the `Sensor` fields `temperature`, `humidity` and `pressure`. Reading them cannot change the immutable record.
- `Bme280.RepeatedPollsNeverMoveAway`: states that the distance to a constant sample never grows, not a geometric rate over many polls. The one-poll rate `1 - alpha` is stated by `Bme280.GetDataContracts`.
