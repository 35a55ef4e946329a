/** The BME280 temperature/humidity/pressure polling sensor: its state, its
    constructor, the measurement step run on every poll, the start-up read and
    the handler of the interval command. Raw driver readings are inputs, the
    reporting channel is the returned sequence of name/value reports. */
module Bme280 {
  import opened Filter
  import opened Text
  import opened ArduinoInt

  datatype Quantity = Temperature | Humidity | Pressure

  /** One set of raw driver readings; the temperature is in Celsius. */
  datatype Readings = Readings(humidity: real, celsius: real, pressure: real)

  /** One "name value" message handed to the reporting channel. */
  datatype Report = Report(name: string, value: real)

  /** The sensor object. The three values start at the sentinel; `alpha` is
      the filter constant as a fraction; `intervalMillis` is the polling
      interval the scheduler holds for this sensor. */
  datatype Sensor = Sensor(
    temperature: real,
    humidity: real,
    pressure: real,
    temperatureName: string,
    humidityName: string,
    pressureName: string,
    inCelsius: bool,
    alpha: real,
    intervalMillis: int)

  function Value(s: Sensor, q: Quantity): real {
    match q
    case Temperature => s.temperature
    case Humidity => s.humidity
    case Pressure => s.pressure
  }

  function Name(s: Sensor, q: Quantity): string {
    match q
    case Temperature => s.temperatureName
    case Humidity => s.humidityName
    case Pressure => s.pressureName
  }

  /** The sample of quantity `q` that enters its filter: temperature is
      scaled before filtering, the other two are taken as read. */
  function Sample(s: Sensor, r: Readings, q: Quantity): real {
    match q
    case Temperature => TemperatureSample(s.inCelsius, r.celsius)
    case Humidity => r.humidity
    case Pressure => r.pressure
  }

  /** The order in which one poll reports its three values. */
  const EmissionOrder: seq<Quantity> := [Temperature, Humidity, Pressure]

  /** The coefficient stays in the range the constructor's clamp produces. */
  predicate Valid(s: Sensor) {
    MinAlpha <= s.alpha <= 1.0
  }

  /** Names, unit mode and coefficient, which nothing changes after construction. */
  predicate SameConfig(a: Sensor, b: Sensor) {
    && a.temperatureName == b.temperatureName
    && a.humidityName == b.humidityName
    && a.pressureName == b.pressureName
    && a.inCelsius == b.inCelsius
    && a.alpha == b.alpha
  }

  /** The constructor: every value at the sentinel, the filter constant turned
      into a coefficient by the clamp. */
  function Create(intervalMillis: int, temperatureName: string, humidityName: string,
                  pressureName: string, inCelsius: bool, filterConstant: Byte): (s: Sensor)
    ensures Valid(s)
    ensures forall q :: Value(s, q) == Sentinel
    ensures s.alpha == EffectivePercent(filterConstant) as real / 100.0
    ensures Name(s, Temperature) == temperatureName
    ensures Name(s, Humidity) == humidityName
    ensures Name(s, Pressure) == pressureName
    ensures s.inCelsius == inCelsius && s.intervalMillis == intervalMillis
  {
    Sensor(Sentinel, Sentinel, Sentinel, temperatureName, humidityName, pressureName,
           inCelsius, Alpha(filterConstant), intervalMillis)
  }

  /** The constructor with every optional argument left at its default. */
  function CreateWithDefaults(intervalMillis: int): Sensor {
    Create(intervalMillis, "temperature1", "humidity1", "pressure1", false, 100)
  }

  /** By default nothing is smoothed and temperature is reported in Fahrenheit
      under the names "temperature1", "humidity1" and "pressure1". */
  lemma DefaultsReportFahrenheitUnsmoothed(intervalMillis: int, r: Readings)
    ensures var s := CreateWithDefaults(intervalMillis);
      && s.alpha == 1.0
      && !s.inCelsius
      && [Name(s, Temperature), Name(s, Humidity), Name(s, Pressure)]
         == ["temperature1", "humidity1", "pressure1"]
      && Value(GetData(s, r).sensor, Temperature) == Fahrenheit(r.celsius)
  {
  }

  /** The state after one poll and the reports it emitted, in order. */
  datatype Poll = Poll(sensor: Sensor, reports: seq<Report>)

  /** `getData`: update humidity, temperature and pressure from the readings,
      each on its own, then report temperature, humidity and pressure. */
  function GetData(s: Sensor, r: Readings): (p: Poll)
    ensures SameConfig(s, p.sensor) && p.sensor.intervalMillis == s.intervalMillis
    ensures forall q :: Value(s, q) == Sentinel ==> Value(p.sensor, q) == Sample(s, r, q)
    ensures forall q :: Value(s, q) != Sentinel ==>
              Value(p.sensor, q) == s.alpha * Sample(s, r, q) + (1.0 - s.alpha) * Value(s, q)
    ensures |p.reports| == |EmissionOrder|
    ensures forall i :: 0 <= i < |EmissionOrder| ==>
              p.reports[i] == Report(Name(s, EmissionOrder[i]), Value(p.sensor, EmissionOrder[i]))
  {
    var humidity := Update(s.alpha, s.humidity, r.humidity);
    var temperature := Update(s.alpha, s.temperature, TemperatureSample(s.inCelsius, r.celsius));
    var pressure := Update(s.alpha, s.pressure, r.pressure);
    var s' := s.(temperature := temperature, humidity := humidity, pressure := pressure);
    Poll(s', [Report(s.temperatureName, temperature),
              Report(s.humidityName, humidity),
              Report(s.pressureName, pressure)])
  }

  /** The read-only getters are the record's fields; after a poll they return
      exactly the values that poll reported. */
  lemma GettersReturnReportedValues(s: Sensor, r: Readings)
    ensures var p := GetData(s, r);
      && p.reports[0].value == p.sensor.temperature
      && p.reports[1].value == p.sensor.humidity
      && p.reports[2].value == p.sensor.pressure
  {
  }

  /** The lines one poll hands to the reporting channel, given the decimal
      rendering of a value: each report in the "name value" layout. */
  function EmittedLines(p: Poll, render: real -> string): (lines: seq<string>)
    ensures |lines| == |p.reports|
    ensures forall i :: 0 <= i < |lines| ==>
              && |lines[i]| == |p.reports[i].name| + 1 + |render(p.reports[i].value)|
              && lines[i][..|p.reports[i].name|] == p.reports[i].name
              && lines[i][|p.reports[i].name|] == ' '
              && lines[i][|p.reports[i].name| + 1..] == render(p.reports[i].value)
  {
    seq(|p.reports|, i requires 0 <= i < |p.reports| =>
      SmartString(p.reports[i].name, render(p.reports[i].value)))
  }

  /** A line whose report name holds no space splits back into the
      rendered value. */
  lemma EmittedLineSplits(p: Poll, render: real -> string, i: nat)
    requires i < |p.reports| && ' ' !in p.reports[i].name
    ensures AfterFirstSpace(EmittedLines(p, render)[i]) == render(p.reports[i].value)
  {
    var name, text := p.reports[i].name, render(p.reports[i].value);
    assert EmittedLines(p, render)[i] == SmartString(name, text);
    SmartStringSplits(name, text);
  }

  /** When no configured name holds a space, splitting each emitted line at
      its first space gives back the rendered value of the quantity reported
      at that position, in the order temperature, humidity, pressure. */
  lemma EmittedLinesCarryValues(s: Sensor, r: Readings, render: real -> string)
    requires ' ' !in s.temperatureName && ' ' !in s.humidityName && ' ' !in s.pressureName
    ensures var p := GetData(s, r);
      var lines := EmittedLines(p, render);
      && |lines| == 3
      && AfterFirstSpace(lines[0]) == render(Value(p.sensor, Temperature))
      && AfterFirstSpace(lines[1]) == render(Value(p.sensor, Humidity))
      && AfterFirstSpace(lines[2]) == render(Value(p.sensor, Pressure))
  {
    var p := GetData(s, r);
    EmittedLineSplits(p, render, 0);
    EmittedLineSplits(p, render, 1);
    EmittedLineSplits(p, render, 2);
  }

  /** `init` once the driver probe has succeeded: one `getData`. On a freshly
      constructed sensor every quantity bootstraps, so each value is its
      sample exactly, and the three reports carry those samples. Start-up
      changes nothing but the three values. */
  function Init(s: Sensor, r: Readings): (p: Poll)
    ensures SameConfig(s, p.sensor) && p.sensor.intervalMillis == s.intervalMillis
    ensures Valid(s) ==> Valid(p.sensor)
    ensures (forall q :: Value(s, q) == Sentinel) ==>
              && (forall q :: Value(p.sensor, q) == Sample(s, r, q))
              && p.reports == [Report(s.temperatureName, Sample(s, r, Temperature)),
                               Report(s.humidityName, Sample(s, r, Humidity)),
                               Report(s.pressureName, Sample(s, r, Pressure))]
  {
    GetData(s, r)
  }

  /** A poll keeps the coefficient in range. */
  lemma GetDataKeepsValid(s: Sensor, r: Readings)
    requires Valid(s)
    ensures Valid(GetData(s, r).sensor)
  {
  }

  /** The three quantities are filtered independently: a quantity's new value
      depends only on its own old value, its own reading, the coefficient and
      the unit mode. */
  lemma QuantitiesIndependent(s1: Sensor, r1: Readings, s2: Sensor, r2: Readings, q: Quantity)
    requires s1.alpha == s2.alpha && s1.inCelsius == s2.inCelsius
    requires Value(s1, q) == Value(s2, q)
    requires q == Temperature ==> r1.celsius == r2.celsius
    requires q == Humidity ==> r1.humidity == r2.humidity
    requires q == Pressure ==> r1.pressure == r2.pressure
    ensures Value(GetData(s1, r1).sensor, q) == Value(GetData(s2, r2).sensor, q)
  {
    assert Sample(s1, r1, q) == Sample(s2, r2, q);
  }

  /** Once a quantity holds a value, a poll moves it towards the new sample
      and never past it. */
  lemma GetDataStaysBetween(s: Sensor, r: Readings, q: Quantity)
    requires Valid(s)
    requires Value(s, q) != Sentinel
    ensures Min(Value(s, q), Sample(s, r, q)) <= Value(GetData(s, r).sensor, q)
    ensures Value(GetData(s, r).sensor, q) <= Max(Value(s, q), Sample(s, r, q))
  {
    BlendBetween(s.alpha, Value(s, q), Sample(s, r, q));
  }

  /** With coefficient 1 every poll reports the samples as they are. */
  lemma FullAlphaReportsSamples(s: Sensor, r: Readings)
    requires s.alpha == 1.0
    ensures forall q :: Value(GetData(s, r).sensor, q) == Sample(s, r, q)
  {
  }

  /** The sensor after `n` polls that all return the same readings. */
  function PollRepeatedly(s: Sensor, r: Readings, n: nat): (t: Sensor)
    ensures SameConfig(s, t) && t.intervalMillis == s.intervalMillis
  {
    if n == 0 then s else GetData(PollRepeatedly(s, r, n - 1), r).sensor
  }

  /** One poll brings each value closer to its sample by at least the
      factor `1 - alpha`, on either branch. */
  lemma GetDataContracts(s: Sensor, r: Readings, q: Quantity)
    requires Valid(s)
    ensures Abs(Value(GetData(s, r).sensor, q) - Sample(s, r, q))
            <= (1.0 - s.alpha) * Abs(Value(s, q) - Sample(s, r, q))
  {
    UpdateContracts(s.alpha, Value(s, q), Sample(s, r, q));
  }

  /** A poll applies the filter's update to each quantity. */
  lemma GetDataUpdates(s: Sensor, r: Readings, q: Quantity)
    ensures Value(GetData(s, r).sensor, q) == Update(s.alpha, Value(s, q), Sample(s, r, q))
  {
  }

  /** `n` polls with constant readings apply `n` updates with a constant sample. */
  lemma {:induction false} PollRepeatedlyUpdates(s: Sensor, r: Readings, n: nat, q: Quantity)
    ensures Value(PollRepeatedly(s, r, n), q)
            == UpdateRepeatedly(s.alpha, Value(s, q), Sample(s, r, q), n)
  {
    if n > 0 {
      var prev := PollRepeatedly(s, r, n - 1);
      PollRepeatedlyUpdates(s, r, n - 1, q);
      GetDataUpdates(prev, r, q);
      assert prev.alpha == s.alpha && Sample(prev, r, q) == Sample(s, r, q);
    }
  }

  /** Under constant readings no later poll leaves a value farther from its
      sample than an earlier one did, whether or not a poll takes the
      bootstrap branch. */
  lemma RepeatedPollsNeverMoveAway(s: Sensor, r: Readings, m: nat, n: nat, q: Quantity)
    requires Valid(s) && m <= n
    ensures Abs(Value(PollRepeatedly(s, r, n), q) - Sample(s, r, q))
            <= Abs(Value(PollRepeatedly(s, r, m), q) - Sample(s, r, q))
  {
    PollRepeatedlyUpdates(s, r, m, q);
    PollRepeatedlyUpdates(s, r, n, q);
    UpdateRepeatedlyNeverFarther(s.alpha, Value(s, q), Sample(s, r, q), m, n);
  }

  /** A fresh sensor in Fahrenheit mode reading 20 °C reports exactly 68. */
  lemma BootstrapExample(intervalMillis: int, filterConstant: Byte)
    ensures var s := Create(intervalMillis, "t", "h", "p", false, filterConstant);
      Value(GetData(s, Readings(40.0, 20.0, 1000.0)).sensor, Temperature) == 68.0
  {
  }

  /** Conversion applies to the raw reading, before blending: from 68 °F with
      coefficient 0.5, a reading of 190/9 °C (70 °F) gives 69 °F. Scaling the
      blend of the stored value and the raw reading instead would convert the
      already-Fahrenheit stored value a second time and give another result. */
  lemma ConversionBeforeBlending()
    ensures var s := Create(0, "t", "h", "p", false, 50).(temperature := 68.0);
      && Value(GetData(s, Readings(40.0, 190.0 / 9.0, 1000.0)).sensor, Temperature) == 69.0
      && Fahrenheit(Blend(s.alpha, 68.0, 190.0 / 9.0)) != 69.0
  {
    assert Fahrenheit(190.0 / 9.0) == 70.0;
  }

  /** The sentinel test is an equality: a temperature that filters to exactly
      -1.0 in Celsius mode re-enters the bootstrap branch on the next poll,
      which then jumps to the sample instead of blending towards it. */
  lemma SentinelReentry()
    ensures var s := Create(0, "t", "h", "p", true, 50).(temperature := -3.0);
      var once := GetData(s, Readings(40.0, 1.0, 1000.0)).sensor;
      var twice := GetData(once, Readings(40.0, 9.0, 1000.0)).sensor;
      && Value(s, Temperature) != Sentinel
      && Value(once, Temperature) == Sentinel
      && Value(twice, Temperature) == 9.0
      && Blend(once.alpha, Value(once, Temperature), 9.0) == 4.0
  {
  }

  /** What the interval command asks for. */
  datatype CommandEffect = SetInterval(millis: int) | Ignored

  /** `beSmart`'s reading of a command: the text after the first space (the
      whole command when it has none) is read by `toInt`; a non-zero number
      of seconds becomes an interval in milliseconds, while zero and
      unreadable text are both ignored. */
  function IntervalCommand(command: string): (e: CommandEffect)
    ensures e.SetInterval? ==> e.millis != 0 && e.millis % 1000 == 0
    ensures e.SetInterval? ==> e.millis == ToInt(AfterFirstSpace(command)) * 1000
    ensures e.Ignored? <==> ToInt(AfterFirstSpace(command)) == 0
    ensures ' ' !in command && ToInt(command) != 0 ==> e == SetInterval(ToInt(command) * 1000)
  {
    var seconds := ToInt(AfterFirstSpace(command));
    if seconds != 0 then SetInterval(seconds * 1000) else Ignored
  }

  /** `beSmart`: apply the interval command; nothing but the interval changes. */
  function BeSmart(s: Sensor, command: string): (s': Sensor)
    ensures s' == s.(intervalMillis := s'.intervalMillis)
    ensures IntervalCommand(command).Ignored? ==> s' == s
    ensures IntervalCommand(command).SetInterval? ==>
              s'.intervalMillis == IntervalCommand(command).millis
  {
    match IntervalCommand(command)
    case SetInterval(millis) => s.(intervalMillis := millis)
    case Ignored => s
  }

  /** A command "<keyword> <n>" with a non-zero `n` sets the interval to `n`
      seconds, in milliseconds. */
  lemma BeSmartSetsSeconds(s: Sensor, keyword: string, n: int)
    requires ' ' !in keyword && n != 0
    ensures BeSmart(s, keyword + " " + Decimal(n)).intervalMillis == n * 1000
  {
    SmartStringSplits(keyword, Decimal(n));
    ToIntDecimal(n);
  }

  /** A command "<keyword> <text>" whose text reads as a non-zero number of
      seconds sets the interval to that many seconds, in milliseconds, however
      the number is written (leading white space, a sign, leading zeros,
      trailing characters). */
  lemma BeSmartReadsText(s: Sensor, keyword: string, text: string)
    requires ' ' !in keyword && ToInt(text) != 0
    ensures BeSmart(s, keyword + " " + text) == s.(intervalMillis := ToInt(text) * 1000)
  {
    SmartStringSplits(keyword, text);
  }

  /** A command without a space is read whole. */
  lemma BeSmartWithoutSpace(s: Sensor, n: int)
    requires n != 0
    ensures BeSmart(s, Decimal(n)).intervalMillis == n * 1000
  {
    ToIntDecimal(n);
  }

  /** "<keyword> 0" and "<keyword> <text>" whose text starts with neither a
      sign nor a digit leave the sensor unchanged. */
  lemma BeSmartIgnoresZeroAndText(s: Sensor, keyword: string, text: string)
    requires ' ' !in keyword
    requires text == "0" || (|text| > 0 && text[0] != '-' && text[0] != '+'
                             && !IsDigit(text[0]) && !IsSpace(text[0]))
    ensures BeSmart(s, keyword + " " + text) == s
  {
    SmartStringSplits(keyword, text);
    if text == "0" {
      assert text == Decimal(0);
      ToIntDecimal(0);
    }
  }

  /** "x 30" sets a 30-second interval. */
  lemma IntervalCommandThirty(s: Sensor)
    ensures BeSmart(s, "x 30").intervalMillis == 30000
  {
    assert Decimal(30) == "30";
    assert "x 30" == "x" + " " + Decimal(30);
    BeSmartSetsSeconds(s, "x", 30);
  }

  /** A second space before the number is skipped: "x  30" sets 30000. */
  lemma IntervalCommandTwoSpaces(s: Sensor)
    ensures BeSmart(s, "x  30").intervalMillis == 30000
  {
    var keyword, text := "x", " 30";
    assert "x  30" == keyword + " " + text;
    assert Decimal(30) == "30" && text == " " + "30";
    ToIntSkipsLeadingSpaces(" ", "30");
    ToIntDecimal(30);
    BeSmartReadsText(s, keyword, text);
  }

  /** A plus sign is accepted: "x +30" sets 30000. */
  lemma IntervalCommandPlusSign(s: Sensor)
    ensures BeSmart(s, "x +30").intervalMillis == 30000
  {
    var keyword, text := "x", "+30";
    assert "x +30" == keyword + " " + text;
    assert Decimal(30) == "30" && text == "+" + Decimal(30) + "";
    ToIntPlusSign(30, "");
    BeSmartReadsText(s, keyword, text);
  }

  /** A leading zero is accepted: "x 030" sets 30000. */
  lemma IntervalCommandLeadingZero(s: Sensor)
    ensures BeSmart(s, "x 030").intervalMillis == 30000
  {
    var keyword, text := "x", "030";
    assert "x 030" == keyword + " " + text;
    assert SkipSpaces(text) == text;
    assert DigitRun(text) == 3 && text[..3] == text;
    assert text[..2] == "03" && "03"[..1] == "0";
    BeSmartReadsText(s, keyword, text);
  }

  /** A trailing line ending is ignored: "x 30\r\n" sets 30000. */
  lemma IntervalCommandLineEnd(s: Sensor)
    ensures BeSmart(s, "x 30\r\n").intervalMillis == 30000
  {
    var keyword, text := "x", "30\r\n";
    assert "x 30\r\n" == keyword + " " + text;
    assert Decimal(30) == "30" && text == Decimal(30) + "\r\n";
    ToIntStopsAfterNumber(30, "\r\n");
    BeSmartReadsText(s, keyword, text);
  }

  /** "x 0" is ignored. */
  lemma IntervalCommandZero(s: Sensor)
    ensures BeSmart(s, "x 0") == s
  {
    var keyword, text := "x", "0";
    assert "x 0" == keyword + " " + text;
    BeSmartIgnoresZeroAndText(s, keyword, text);
  }

  /** "x abc" is ignored. */
  lemma IntervalCommandText(s: Sensor)
    ensures BeSmart(s, "x abc") == s
  {
    var keyword, text := "x", "abc";
    assert "x abc" == keyword + " " + text;
    BeSmartIgnoresZeroAndText(s, keyword, text);
  }
}
