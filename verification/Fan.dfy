/** The fan object: the methods of `fc::Fan` that update its fields or loop, each against its
    specification function. Hardware answers come in as parameters. */
module Fan {
  import opened Basics
  import opened Tables
  import opened MapText
  import opened FanMessage
  import opened FanTest
  import opened FanConfig
  import opened SensorHistory
  import opened Smoother
  import opened Settling
  import Calibration
  import ControlLaw
  import Curve
  import Lookup
  import Regex

  /** What one turn of the printing loop adds. */
  lemma {:induction false} PrintStep(t: Table, i: nat)
    requires i < |t|
    ensures MapStr(t[i..]) == Item(t[i]) + (if i + 1 < |t| then ", " else "") + MapStr(t[i + 1..])
  {
  }

  lemma {:induction false} AppendStep(s: string, a: string, b: string, c: string)
    ensures s + a + b + c == s + (a + b + c)
  {
  }

  lemma {:induction false} PrintedAll(t: Table, i: nat)
    requires i == |t|
    ensures MapStr(t[i..]) == ""
  {
  }

  /** `Util::map_str`. */
  method PrintMap(t: Table) returns (s: string)
    ensures s == MapStr(t)
  {
    hide MapStr, Item;
    s := "";
    var i := 0;
    assert t[0..] == t;
    while i < |t|
      invariant i <= |t|
      invariant s + MapStr(t[i..]) == MapStr(t)
    {
      PrintStep(t, i);
      var separator := if i + 1 < |t| then ", " else "";
      AppendStep(s, Item(t[i]), separator, MapStr(t[i + 1..]));
      s := s + Item(t[i]);
      i := i + 1;
      if i < |t| {
        s := s + ", ";
      }
    }
    PrintedAll(t, i);
  }

  class Fan {
    var name: string
    var sensor: Option<SensorRef>
    var rpmToPwm: Table
    var tempToRpm: Table
    var startPwm: Pwm
    var interval: nat
    var ignored: bool
    var smoothing: Smoothing

    function State(): Settings
      reads this
    {
      Settings(name, sensor, rpmToPwm, tempToRpm, startPwm, interval, ignored)
    }

    constructor ()
      ensures State() == FRESH_FAN && smoothing == FRESH
    {
      name, sensor, rpmToPwm, tempToRpm := "", None, [], [];
      startPwm, interval, ignored, smoothing := 0, 0, false, FRESH;
    }

    function Profile(): ControlLaw.Profile
      reads this
    {
      ControlLaw.Profile(rpmToPwm, tempToRpm, startPwm)
    }

    method SmoothRpm(rpm: Rpm, cfg: Tuning) returns (r: Outcome<Rpm>)
      requires rpmToPwm != []
      modifies this`smoothing
      ensures match Smooth(old(smoothing), rpm, MaxRpm(rpmToPwm), cfg)
              case Defined(s) => smoothing == s.state && r == Defined(s.rpm)
              case _ => r == Undefined
    {
      var delta := AsInt(rpm - smoothing.target);
      if delta == 0 {
        return Defined(rpm);
      }
      if smoothing.justStarted {
        smoothing := Smoothing(false, AsInt(cfg.smoothingIntervals), rpm, AsInt(cfg.topStickiness));
        return Defined(rpm);
      }
      if delta < 0 {
        if smoothing.stickiness > 0 {
          smoothing := smoothing.(stickiness := smoothing.stickiness - 1);
          return Defined(smoothing.target);
        }
      } else {
        smoothing := smoothing.(stickiness := AsInt(cfg.topStickiness));
      }
      if 10 * delta < MaxRpm(rpmToPwm) {
        smoothing := smoothing.(target := rpm);
        return Defined(rpm);
      }
      if rpm != smoothing.target || smoothing.target <= 0 {
        smoothing := smoothing.(remIntervals := AsInt(cfg.smoothingIntervals));
      }
      if smoothing.remIntervals == 0 {
        return Undefined;
      }
      smoothing := smoothing.(
        target := AsUint(smoothing.target + TruncDiv(delta, smoothing.remIntervals)),
        remIntervals := smoothing.remIntervals - 1);
      r := Defined(smoothing.target);
    }

    /** The choice of RPM in `update`. */
    method CurveLookup(temp: Temp, isDynamic: bool) returns (r: Outcome<Rpm>)
      ensures r == Curve.CurveRpm(tempToRpm, temp, isDynamic)
    {
      var floor := LowerBound(tempToRpm, temp);
      if floor == |tempToRpm| {
        return if tempToRpm == [] then Undefined else Defined(tempToRpm[floor - 1].value);
      }
      if floor == 0 || tempToRpm[floor].key == temp {
        return Defined(tempToRpm[floor].value);
      }
      if tempToRpm[floor].key > temp {
        floor := floor - 1;
      }
      if !isDynamic {
        return Defined(tempToRpm[floor].value);
      }
      var ceil := floor + 1;
      r := Curve.Interpolate(tempToRpm[floor], tempToRpm[ceil], temp);
    }

    /** One control step. The result is the PWM written. */
    method Update(sensor: Sensor, reading: Option<Temp>, cfg: Tuning, isDynamic: bool,
        fanRpm: Rpm) returns (r: Outcome<Pwm>)
      requires rpmToPwm != []
      modifies this`smoothing, sensor
      ensures match Tick(Setup(sensor.rule, sensor.intervals, Profile(), cfg, isDynamic),
                         Loop(old(sensor.State()), old(smoothing)), reading, fanRpm)
              case Defined((l, pwm)) => sensor.State() == l.history && smoothing == l.smoothing && r == Defined(pwm)
              case _ => r == Undefined
    {
      hide Smooth, Read;
      var temp := sensor.GetAverageTemp(reading);
      if temp != Undefined {
        var rpm := CurveLookup(temp.value, isDynamic);
        if rpm.Defined? {
          var smoothed := SmoothRpm(rpm.value, cfg);
          if smoothed.Defined? {
            r := Lookup.FindClosestPwm(rpmToPwm, startPwm, smoothed.value, fanRpm);
            return;
          }
        }
      }
      r := Undefined;
    }

    method PwmToRpm(pwm: Pwm) returns (r: Outcome<Rpm>)
      ensures r == Lookup.PwmToRpm(rpmToPwm, pwm)
    {
      if rpmToPwm == [] {
        return Thrown;
      }
      var p := ClampPwm(pwm);
      var i := 0;
      while i < |rpmToPwm|
        invariant i <= |rpmToPwm|
        invariant forall j :: 0 <= j < i ==> rpmToPwm[j].value < p
      {
        if rpmToPwm[i].value == p {
          return if rpmToPwm[i].key >= 0 then Defined(rpmToPwm[i].key) else Undefined;
        }
        if rpmToPwm[i].value > p {
          if i == 0 {
            return Undefined;
          }
          var last := i - 1;
          var closer := last == 0 || rpmToPwm[i].value - p < p - rpmToPwm[last].value;
          var e := if closer then rpmToPwm[i] else rpmToPwm[last];
          return if e.key >= 0 then Defined(e.key) else Undefined;
        }
        i := i + 1;
      }
      r := if rpmToPwm[i - 1].key >= 0 then Defined(rpmToPwm[i - 1].key) else Undefined;
    }

    /** `rpm_to_pwm_from(string)`. */
    method RpmToPwmFrom(rule: SearchRule, src: string) returns (r: Outcome<()>)
      modifies this`rpmToPwm
      ensures match ParseRpmPwm(rule, src, old(rpmToPwm))
              case Defined(t) => r == Defined(()) && rpmToPwm == t
              case Undefined => r == Undefined
              case Thrown => r == Thrown
    {
      hide Regex.Search, AddRpmPwm;
      var rest := src;
      Regex.SearchBounds(RPM_PWM, rest);
      var m := Regex.Search(RPM_PWM, rest);
      while m.Some?
        invariant m == Regex.Search(RPM_PWM, rest)
        invariant ParseRpmPwm(rule, src, old(rpmToPwm)) == ParseRpmPwm(rule, rest, rpmToPwm)
        decreases m.Some?, |rest|
      {
        Regex.SearchBounds(RPM_PWM, rest);
        var (k, segs) := m.value;
        var next := NextItem(rule, rest, k + Regex.Length(segs));
        rpmToPwm := AddRpmPwm(rpmToPwm, segs);
        if next == Undefined {
          return Undefined;
        }
        rest := next.value;
        m := Regex.Search(RPM_PWM, rest);
      }
      r := Defined(());
    }

    /** `temp_to_rpm_from`. */
    method TempToRpmFrom(rule: SearchRule, src: string) returns (r: Outcome<()>)
      modifies this`tempToRpm
      ensures match ParseTempRpm(rule, src, old(tempToRpm), rpmToPwm)
              case Defined(t) => r == Defined(()) && tempToRpm == t
              case Undefined => r == Undefined
              case Thrown => r == Thrown
    {
      hide Regex.Search, AddTempRpm;
      if rpmToPwm == [] {
        return Defined(());
      }
      var rest := src;
      Regex.SearchBounds(TEMP_RPM, rest);
      var m := Regex.Search(TEMP_RPM, rest);
      while m.Some?
        invariant m == Regex.Search(TEMP_RPM, rest)
        invariant ParseItems(rule, src, old(tempToRpm), rpmToPwm) == ParseItems(rule, rest, tempToRpm, rpmToPwm)
        decreases m.Some?, |rest|
      {
        Regex.SearchBounds(TEMP_RPM, rest);
        var (k, segs) := m.value;
        var added := AddTempRpm(tempToRpm, segs, rpmToPwm);
        var next := NextItem(rule, rest, k + Regex.Length(segs));
        if added == Thrown {
          return Thrown;
        }
        if added == Undefined || next == Undefined {
          return Undefined;
        }
        tempToRpm := added.value;
        rest := next.value;
        m := Regex.Search(TEMP_RPM, rest);
      }
      r := Defined(());
    }

    /** `rpm_to_pwm_from(map)`. */
    method RpmToPwmFromMeasured(measured: Table)
      modifies this`rpmToPwm
      ensures rpmToPwm == Calibration.Repair(measured)
    {
      var rpms := Calibration.Sort(Calibration.Rpms(measured));
      rpmToPwm := [];
      for i := 0 to |measured|
        invariant rpmToPwm == Calibration.Pair(rpms, measured, i)
      {
        rpmToPwm := Put(rpmToPwm, rpms[i], Calibration.ClampedKey(measured[i]));
      }
    }

    method From(rule: SearchRule, m: FanMsg, sensors: map<string, SensorRef>) returns (r: Outcome<()>)
      modifies this
      ensures smoothing == old(smoothing)
      ensures match FanConfig.From(rule, old(State()), m, sensors)
              case Defined(f) => r == Defined(()) && State() == f
              case Undefined => r == Undefined
              case Thrown => r == Thrown
    {
      hide ParseRpmPwm, ParseTempRpm;
      name := m.name;
      sensor := FindSensor(sensor, m.sensor, sensors);
      r := RpmToPwmFrom(rule, m.rpmToPwm);
      if r.Defined? {
        r := TempToRpmFrom(rule, m.tempToRpm);
        if r.Defined? {
          startPwm := ClampPwm(m.startPwm);
          interval := m.interval;
          ignored := m.ignore;
        }
      }
    }

    /** `to`. */
    method To() returns (m: FanMsg)
      ensures m == FanConfig.To(State())
    {
      var curve := PrintMap(tempToRpm);
      var table := PrintMap(rpmToPwm);
      m := FanMsg(name, if sensor.Some? then sensor.value.name else "", curve, table, startPwm, interval, ignored);
    }

    /** The loop that waits for a stable RPM at a PWM. */
    method SetStabilisedPwm(trace: Trace, i: nat, target: Pwm) returns (r: Run<Option<Rpm>>)
      ensures r == SetStabilised(trace, i, target)
    {
      if i >= |trace| {
        return Unfinished;
      }
      if !trace[i].ok {
        return Done(i + 1, None);
      }
      var cur := trace[i].rpm;
      var reached := 0;
      var j := i + 1;
      while reached <= 3
        invariant i < j <= |trace|
        invariant Watch(trace, i + 1, target, trace[i].rpm, 0) == Watch(trace, j, target, cur, reached)
        decreases |trace| - j
      {
        if j >= |trace| {
          return Unfinished;
        }
        if trace[j].pwm != target {
          return Done(j + 1, None);
        }
        var prev := cur;
        cur := trace[j].rpm;
        reached := if Close(prev, cur) then reached + 1 else 0;
        j := j + 1;
      }
      r := Done(j, Some(cur));
    }

    method TestStart(trace: Trace, i: nat, measured: Table) returns (r: Run<Findings>)
      ensures r == FanTest.TestStart(trace, i, measured)
    {
      hide SetStabilised, Put;
      var target: Pwm := PWM_MIN;
      var cur := Some(0);
      var j: nat := i;
      while (cur == None || cur == Some(0)) && target <= PWM_MAX
        invariant FindStart(trace, i, PWM_MIN, Some(0)) == FindStart(trace, j, target, cur)
        decreases |trace| - j
      {
        SetStabilisedAdvances(trace, j, target);
        var s := SetStabilisedPwm(trace, j, target);
        if !s.Done? {
          return Unfinished;
        }
        cur, j := s.value, s.next;
        target := target + 2;
      }
      if j >= |trace| {
        return Unfinished;
      }
      if cur == None {
        return Broken;
      }
      r := Done(j + 1, Findings(Put(measured, trace[j].pwm, cur.value), trace[j].pwm));
    }

    method TestRunningMin(trace: Trace, i: nat, f: Findings) returns (r: Run<Findings>)
      ensures r == FanTest.TestRunningMin(trace, i, f)
    {
      hide SetStabilised;
      var results: seq<Entry> := [];
      var target: Pwm := f.startPwm;
      var j: nat := i;
      while true
        invariant Slowing(trace, i, f.startPwm, []) == Slowing(trace, j, target, results)
        decreases |trace| - j
      {
        SetStabilisedAdvances(trace, j, target);
        var s := SetStabilisedPwm(trace, j, target);
        if !s.Done? {
          return Unfinished;
        }
        j := s.next;
        if s.value == Some(0) {
          break;
        }
        if s.value.Some? {
          results := results + [Entry(target, s.value.value)];
        }
        target := AsUint(target - 2);
      }
      var last := if |results| > 2 then |results| - 2 else 0;
      var measured := f.measured;
      for k := 0 to last
        invariant measured == PutAll(f.measured, results[..k])
      {
        assert results[..k + 1][..k] == results[..k];
        measured := Put(measured, results[k].key, results[k].value);
      }
      r := Done(j, f.(measured := measured));
    }

    method TestMapping(trace: Trace, i: nat, f: Findings) returns (r: Run<Table>)
      ensures r == Mapping(trace, i, FirstTarget(f.startPwm), f.measured)
    {
      hide SetStabilised, Put;
      var measured := f.measured;
      var target: Pwm := FirstTarget(f.startPwm);
      var j: nat := i;
      while target <= PWM_MAX
        invariant Mapping(trace, i, FirstTarget(f.startPwm), f.measured) == Mapping(trace, j, target, measured)
        decreases |trace| - j
      {
        SetStabilisedAdvances(trace, j, target);
        var s := SetStabilisedPwm(trace, j, target);
        if !s.Done? {
          return Unfinished;
        }
        if s.value.Some? {
          measured := Put(measured, target, s.value.value);
        }
        j := s.next;
        target := NextTarget(target);
      }
      r := Done(j, measured);
    }

    /** `test`: true when it completes, false when control of the fan cannot be taken. */
    method Test(trace: Trace) returns (r: Run<bool>)
      modifies this`rpmToPwm, this`startPwm
      ensures match FanTest.Test(trace)
              case Done(n, found) => r == Done(n, found.Some?)
                  && FanConfig.AfterTest(old(State()), trace) == Defined(State())
              case Broken => r == Broken && rpmToPwm == old(rpmToPwm)
              case Unfinished => r == Unfinished && rpmToPwm == old(rpmToPwm)
    {
      hide SetStabilised, Put, FindStart, Slowing, Mapping, FanTest.TestStart, AwaitPwm, Calibration.Repair;
      var control := TakeControl(trace, 0);
      if !control.Done? {
        return Unfinished;
      }
      if !control.value {
        return Done(control.next, false);
      }
      var stopped := TestStopped(trace, control.next);
      if !stopped.Done? {
        return Unfinished;
      }
      var started := TestStart(trace, stopped.next, stopped.value);
      if started.Broken? {
        return Broken;
      }
      if !started.Done? {
        return Unfinished;
      }
      startPwm := started.value.startPwm;
      var slowed := TestRunningMin(trace, started.next, started.value);
      if !slowed.Done? {
        return Unfinished;
      }
      var mapped := TestMapping(trace, slowed.next, slowed.value);
      if !mapped.Done? {
        return Unfinished;
      }
      RpmToPwmFromMeasured(mapped.value);
      r := Done(mapped.next, true);
    }
  }
}
