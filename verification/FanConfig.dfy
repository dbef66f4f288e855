/** A fan's persisted settings: `Fan::to` writes them to a message, `Fan::from` reads them back. */
module FanConfig {
  import opened Basics
  import opened Tables
  import opened MapText
  import opened Calibration
  import opened FanMessage
  import opened FanTest
  import Lookup
  import Regex
  import SteadyFan

  /** A sensor as a fan refers to it. */
  datatype SensorRef = SensorRef(name: string, hwId: string)

  datatype Settings = Settings(name: string, sensor: Option<SensorRef>, rpmToPwm: Table, tempToRpm: Table,
                               startPwm: Pwm, interval: nat, ignore: bool)

  const FRESH_FAN := Settings("", None, [], [], 0, 0, false)

  function SensorLabel(f: Settings): string {
    if f.sensor.Some? then f.sensor.value.name else ""
  }

  function To(f: Settings): FanMsg {
    FanMsg(f.name, SensorLabel(f), MapStr(f.tempToRpm), MapStr(f.rpmToPwm),
           f.startPwm, f.interval, f.ignore)
  }

  /** A sensor label that is not known leaves the sensor as it was. */
  function FindSensor(current: Option<SensorRef>, name: string, sensors: map<string, SensorRef>): Option<SensorRef> {
    if name in sensors then Some(sensors[name]) else current
  }

  function From(rule: SearchRule, f: Settings, m: FanMsg, sensors: map<string, SensorRef>): Outcome<Settings> {
    match ParseRpmPwm(rule, m.rpmToPwm, f.rpmToPwm)
    case Defined(table) =>
      (match ParseTempRpm(rule, m.tempToRpm, f.tempToRpm, table)
       case Defined(curve) =>
         Defined(Settings(m.name, FindSensor(f.sensor, m.sensor, sensors), table, curve,
                          ClampPwm(m.startPwm), m.interval, m.ignore))
       case Undefined => Undefined
       case Thrown => Thrown)
    case Undefined => Undefined
    case Thrown => Thrown
  }

  /** What the program's types allow in a fan's fields. */
  ghost predicate Typed(f: Settings) {
    RpmTable(f.rpmToPwm) && CurveTable(f.tempToRpm)
  }

  /** The fan's sensor is the one registered under its label. */
  predicate SensorKnown(f: Settings, sensors: map<string, SensorRef>) {
    match f.sensor
    case Some(s) => s.name in sensors && sensors[s.name] == s
    case None => "" !in sensors
  }

  ghost predicate Storable(f: Settings, sensors: map<string, SensorRef>) {
    && PwmValues(f.rpmToPwm) && KeysNatural(f.tempToRpm)
    && (f.tempToRpm != [] ==> f.rpmToPwm != [])
    && f.startPwm <= PWM_MAX
    && SensorKnown(f, sensors)
  }

  lemma {:induction false} CurveSurvivesIff(f: Settings)
    requires Typed(f)
    ensures ParseTempRpm(Meant, MapStr(f.tempToRpm), [], f.rpmToPwm) == Defined(f.tempToRpm)
       <==> KeysNatural(f.tempToRpm) && (f.tempToRpm != [] ==> f.rpmToPwm != [])
  {
    hide MapStr, ParseItems;
    if f.rpmToPwm != [] {
      TempRpmRoundTripIff(f.tempToRpm, f.rpmToPwm);
    }
  }

  /** The configuration round trip: writing a fan and reading it into a fresh one gives the same fan back
      exactly when its PWMs are within 0..255, no temperature on its curve is negative, it has no curve
      without a calibration, and its sensor is the one registered under its label. */
  lemma {:induction false} RoundTripIff(f: Settings, sensors: map<string, SensorRef>)
    requires Typed(f)
    ensures From(Meant, FRESH_FAN, To(f), sensors) == Defined(f) <==> Storable(f, sensors)
  {
    hide MapStr, ParseRpmPwm, ParseTempRpm;
    RpmPwmRoundTripIff(f.rpmToPwm);
    CurveSurvivesIff(f);
  }

  /** With the search range as written, reading back is defined only while neither map has more than one
      entry: any calibrated fan with a real map is out. */
  lemma {:induction false} AsWrittenRoundTripIff(f: Settings, sensors: map<string, SensorRef>)
    requires Typed(f) && Storable(f, sensors)
    ensures From(AsWritten, FRESH_FAN, To(f), sensors) == Defined(f) <==> |f.rpmToPwm| <= 1 && |f.tempToRpm| <= 1
  {
    hide MapStr, ParseRpmPwm, ParseItems;
    RpmPwmAsWrittenIff(f.rpmToPwm);
    if f.rpmToPwm != [] {
      TempRpmAsWrittenIff(f.tempToRpm, f.rpmToPwm);
    }
  }

  /** `deep_equal` compares messages. It tells two fans apart exactly when some setting differs, the sensor
      counting by its label: the text of a map determines the map. */
  lemma {:induction false} DeepEqualIff(f: Settings, g: Settings)
    ensures To(f) == To(g) <==> f.(sensor := g.sensor) == g && SensorLabel(f) == SensorLabel(g)
  {
    hide MapStr;
    if To(f) == To(g) {
      MapStrInjective(f.tempToRpm, g.tempToRpm);
      MapStrInjective(f.rpmToPwm, g.rpmToPwm);
    }
  }

  /** What a finished test changes. */
  function AfterTest(f: Settings, trace: Trace): Outcome<Settings> {
    match Test(trace)
    case Done(_, Some(found)) => Defined(f.(rpmToPwm := Repair(found.measured), startPwm := found.startPwm))
    case Done(_, None) => Defined(f)
    case _ => Undefined
  }

  /** What reading a message does to the settings that are not maps: all are taken over, the start PWM cut at 255,
      and a sensor label that names no sensor leaves the sensor as it was. */
  lemma {:induction false} FromTakes(rule: SearchRule, f: Settings, m: FanMsg, sensors: map<string, SensorRef>)
    ensures var r := From(rule, f, m, sensors);
            r.Defined? ==>
              && r.value.name == m.name && r.value.interval == m.interval && r.value.ignore == m.ignore
              && r.value.startPwm == (if m.startPwm <= 255 then m.startPwm else 255)
              && (m.sensor in sensors ==> r.value.sensor == Some(sensors[m.sensor]))
              && (m.sensor !in sensors ==> r.value.sensor == f.sensor)
  {
    hide ParseRpmPwm, ParseTempRpm;
  }

  /** A test changes the calibration and the start PWM only, and nothing at all if control of the fan cannot be
      taken. */
  lemma {:induction false} TestChangesOnly(f: Settings, trace: Trace)
    ensures var r := AfterTest(f, trace);
            r.Defined? ==> r.value == f.(rpmToPwm := r.value.rpmToPwm, startPwm := r.value.startPwm)
    ensures |trace| >= 1 && !trace[0].ok ==> AfterTest(f, trace) == Defined(f)
    ensures |trace| >= 2 && trace[0].ok && !trace[1].ok ==> AfterTest(f, trace) == Defined(f)
  {
    hide Test, Repair;
    TestFailsIff(trace, 1);
    TestFailsIff(trace, 2);
  }

  /** What a fan learns from the test of a regular steady fan: its start PWM, and a calibration that takes its RPM at
      every measured PWM back to that PWM. */
  lemma {:induction false} SteadyFanLearns(f: Settings, fan: SteadyFan.Driven, n: nat, p: Pwm)
    requires SteadyFan.Regular(fan) && n >= 2
    requires p == 0 || p == 255 || (SteadyFan.StartPwm(fan, 0) <= p <= 254 && p % 2 == 0)
    ensures var r := AfterTest(f, SteadyFan.SteadyTrace(fan, n));
            && r.Defined? && r.value.startPwm == SteadyFan.StartPwm(fan, 0)
            && Get(r.value.rpmToPwm, fan.speed(p)) == Some(p)
  {
    hide Test, Repair, Get, SteadyFan.SteadyTrace, SteadyFan.StartPwm;
    SteadyFan.SteadyCalibration(fan, n, p);
  }

  /** What can happen to a fan's maps. */
  datatype Event = Configure(msg: FanMsg, sensors: map<string, SensorRef>) | RunTest(trace: Trace)

  /** The fan after a sequence of events; an event that fails leaves no fan to continue with. */
  function History(rule: SearchRule, events: seq<Event>): Outcome<Settings> {
    if events == [] then Defined(FRESH_FAN)
    else
      match History(rule, events[..|events| - 1])
      case Defined(f) =>
        (match events[|events| - 1]
         case Configure(msg, sensors) => From(rule, f, msg, sensors)
         case RunTest(trace) => AfterTest(f, trace))
      case other => other
  }

  /** The last event of a history shows in the fan: a configuration in its settings, a completed test of a regular
      steady fan in its calibration. */
  lemma {:induction false} LastEvent(rule: SearchRule, events: seq<Event>, m: FanMsg,
      sensors: map<string, SensorRef>, fan: SteadyFan.Driven, n: nat, p: Pwm)
    requires SteadyFan.Regular(fan) && n >= 2
    requires p == 0 || p == 255 || (SteadyFan.StartPwm(fan, 0) <= p <= 254 && p % 2 == 0)
    ensures var r := History(rule, events + [Configure(m, sensors)]);
            r.Defined? ==> r.value.name == m.name && r.value.ignore == m.ignore && r.value.interval == m.interval
    ensures History(rule, events).Defined? ==>
              var r := History(rule, events + [RunTest(SteadyFan.SteadyTrace(fan, n))]);
              && r.Defined? && r.value.startPwm == SteadyFan.StartPwm(fan, 0)
              && Get(r.value.rpmToPwm, fan.speed(p)) == Some(p)
              && r.value.tempToRpm == History(rule, events).value.tempToRpm
  {
    hide From, AfterTest, Get, SteadyFan.SteadyTrace, SteadyFan.StartPwm, SteadyFan.Regular;
    var trace := SteadyFan.SteadyTrace(fan, n);
    assert (events + [Configure(m, sensors)])[..|events|] == events;
    assert (events + [RunTest(trace)])[..|events|] == events;
    var before := History(rule, events);
    if before.Defined? {
      FromTakes(rule, before.value, m, sensors);
      SteadyFanLearns(before.value, fan, n, p);
      TestChangesOnly(before.value, trace);
    }
  }

  lemma {:induction false} AddedPoint(acc: Table, segs: seq<string>)
    requires |segs| == 5 && Sorted(acc)
    ensures Sorted(AddRpmPwm(acc, segs)) && |acc| <= |AddRpmPwm(acc, segs)|
  {
  }

  /** Parsing only ever adds points, and keeps the map a map. */
  lemma {:induction false} ParsingAdds(rule: SearchRule, s: string, acc: Table)
    requires Sorted(acc)
    ensures var r := ParseRpmPwm(rule, s, acc); r.Defined? ==> Sorted(r.value) && |acc| <= |r.value|
    decreases |s|
  {
    hide Regex.Search, Put, Sorted, AddRpmPwm;
    Regex.SearchBounds(RPM_PWM, s);
    var r := Regex.Search(RPM_PWM, s);
    if r.Some? {
      var rest := NextItem(rule, s, r.value.0 + Regex.Length(r.value.1));
      AddedPoint(acc, r.value.1);
      if rest.Defined? {
        ParsingAdds(rule, rest.value, AddRpmPwm(acc, r.value.1));
      }
    }
  }

  lemma {:induction false} AddedKnot(acc: Table, segs: seq<string>, rpmToPwm: Table)
    requires |segs| == 11 && Sorted(acc)
    ensures var r := AddTempRpm(acc, segs, rpmToPwm); r.Defined? ==> Sorted(r.value)
  {
    hide Put, Sorted, Celsius, Lookup.PercentToRpm, Lookup.PwmToRpm;
    forall k: int, v: nat ensures Sorted(Put(acc, k, v)) {
      PutSorted(acc, k, v);
    }
  }

  lemma {:induction false} ParsingKeepsCurve(rule: SearchRule, s: string, acc: Table, rpmToPwm: Table)
    requires Sorted(acc)
    ensures var r := ParseItems(rule, s, acc, rpmToPwm); r.Defined? ==> Sorted(r.value)
    decreases |s|
  {
    hide Regex.Search, Put, Sorted, AddTempRpm;
    Regex.SearchBounds(TEMP_RPM, s);
    var r := Regex.Search(TEMP_RPM, s);
    if r.Some? {
      AddedKnot(acc, r.value.1, rpmToPwm);
      var next := AddTempRpm(acc, r.value.1, rpmToPwm);
      var rest := NextItem(rule, s, r.value.0 + Regex.Length(r.value.1));
      if next.Defined? && rest.Defined? {
        ParsingKeepsCurve(rule, rest.value, next.value, rpmToPwm);
      }
    }
  }

  /** What every run of configurations and tests keeps: both maps stay maps, calibrated PWMs stay within
      0..255, and a fan with a curve has a calibration. */
  ghost predicate Sound(f: Settings) {
    && Sorted(f.rpmToPwm) && Sorted(f.tempToRpm) && PwmValues(f.rpmToPwm)
    && (f.tempToRpm != [] ==> f.rpmToPwm != [])
  }

  lemma {:induction false} FromKeepsSound(rule: SearchRule, f: Settings, m: FanMsg, sensors: map<string, SensorRef>)
    requires Sound(f)
    ensures var r := From(rule, f, m, sensors); r.Defined? ==> Sound(r.value)
  {
    hide ParseRpmPwm, ParseItems, Sorted, PwmValues;
    ParsingAdds(rule, m.rpmToPwm, f.rpmToPwm);
    ParsedPwms(rule, m.rpmToPwm, f.rpmToPwm);
    var table := ParseRpmPwm(rule, m.rpmToPwm, f.rpmToPwm);
    if table.Defined? {
      ParsingKeepsCurve(rule, m.tempToRpm, f.tempToRpm, table.value);
    }
  }

  lemma {:induction false} TestKeepsSound(f: Settings, trace: Trace)
    requires Sound(f)
    ensures var r := AfterTest(f, trace); r.Defined? ==> Sound(r.value)
  {
    hide Test, Repair;
    TestCalibrates(trace);
  }

  lemma {:induction false} FreshIsSound()
    ensures Sound(FRESH_FAN)
  {
  }

  lemma {:induction false} HistoryIsSound(rule: SearchRule, events: seq<Event>)
    ensures var r := History(rule, events); r.Defined? ==> Sound(r.value)
  {
    hide From, AfterTest, Sound;
    if events == [] {
      assert Sound(FRESH_FAN) by { FreshIsSound(); }
    } else {
      HistoryIsSound(rule, events[..|events| - 1]);
      var f := History(rule, events[..|events| - 1]);
      if f.Defined? {
        match events[|events| - 1]
        case Configure(msg, sensors) => FromKeepsSound(rule, f.value, msg, sensors);
        case RunTest(trace) => TestKeepsSound(f.value, trace);
      }
    }
  }

  /** Once the `is_configured` gate has seen a curve, every lookup of `update` in the calibration is defined
      and writes a PWM within 0..255 or the start PWM. */
  lemma {:induction false} GateMakesLookupsDefined(rule: SearchRule, events: seq<Event>, rpm: Rpm, fanRpm: Rpm)
    requires History(rule, events).Defined? && History(rule, events).value.tempToRpm != []
    ensures var f := History(rule, events).value;
            var r := Lookup.FindClosestPwm(f.rpmToPwm, f.startPwm, rpm, fanRpm);
            r.Defined? && (r.value <= PWM_MAX || r.value == f.startPwm)
  {
    HistoryIsSound(rule, events);
  }
}
