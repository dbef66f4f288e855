/** What the `is_configured` gate is worth: when the tick of a fan that has passed it is defined. */
module Gating {
  import opened Basics
  import opened Tables
  import opened ControlLaw
  import opened FanConfig
  import opened FanMessage
  import opened Settling
  import Curve
  import Lookup
  import MapText
  import SensorHistory
  import Smoother

  /** The profile the control loop reads from a fan's settings. */
  function ProfileOf(f: Settings): Profile {
    Profile(f.rpmToPwm, f.tempToRpm, f.startPwm)
  }

  /** With smoothing on, no state and no request divides by zero. */
  lemma {:induction false} SmoothDefined(s: Smoother.Smoothing, rpm: Rpm, maxRpm: Rpm, cfg: Smoother.Tuning)
    requires Smoother.Sane(cfg)
    ensures Smoother.Smooth(s, rpm, maxRpm, cfg).Defined?
  {
  }

  /** A fan with any history of configurations and tests that has a curve: its tick is defined exactly when the
      sensor has an average and the curve an RPM for it. In static mode the curve always has; in dynamic mode,
      strictly between two knots, only if they are not opposite and the interpolation fits. The PWM written is
      within 0..255 or the start PWM. */
  lemma {:induction false} GatedTickIff(rule: MapText.SearchRule, events: seq<Event>, e: Setup, l: Loop,
      reading: Option<Temp>, fanRpm: Rpm)
    requires History(rule, events).Defined? && History(rule, events).value.tempToRpm != []
    requires e.profile == ProfileOf(History(rule, events).value) && Smoother.Sane(e.cfg)
    ensures var r := SensorHistory.Read(e.rule, e.intervals, l.history, reading);
            var t := Tick(e, l, reading, fanRpm);
            && (t.Defined? <==> r.Defined? && Curve.Answers(e.profile.tempToRpm, r.value.1, e.isDynamic))
            && (t.Defined? || t == Undefined)
            && (!e.isDynamic ==> (t.Defined? <==> r.Defined?))
            && (t.Defined? ==> t.value.1 <= PWM_MAX || t.value.1 == e.profile.startPwm)
  {
    hide Curve.CurveRpm, SensorHistory.Read, History, Curve.Fits, Smoother.Smooth, Lookup.FindClosestPwm;
    var r := SensorHistory.Read(e.rule, e.intervals, l.history, reading);
    HistoryIsSound(rule, events);
    if r.Defined? {
      Curve.CurveDefinedIff(e.profile.tempToRpm, r.value.1, e.isDynamic);
      var c := Curve.CurveRpm(e.profile.tempToRpm, r.value.1, e.isDynamic);
      if c.Defined? {
        SmoothDefined(l.smoothing, c.value, MaxRpm(e.profile.rpmToPwm), e.cfg);
        var s := Smoother.Smooth(l.smoothing, c.value, MaxRpm(e.profile.rpmToPwm), e.cfg);
        GateMakesLookupsDefined(rule, events, s.value.rpm, fanRpm);
      }
    }
  }

  /** The message of a calibrated fan whose curve runs from 23 degrees Fahrenheit to 5 Celsius. */
  const OPPOSITE: FanMsg :=
    FanMsg("fan", "cpu", "23f: 800, 5: 1200", MapText.MapStr([Entry(1000, 100)]), 100, 1000, false)

  lemma {:induction false} ZeroRead(rule: SensorHistory.WrapRule)
    ensures var r := SensorHistory.Read(rule, 8, START.history, Some(0)); r.Defined? && r.value.1 == 0
  {
    var w := SensorHistory.Filled(8, 0);
    SensorHistory.SumBounds(w, 0, 0);
  }

  lemma {:induction false} OppositeKnots()
    ensures !Curve.Answers([Entry(-5, 800), Entry(5, 1200)], 0, true)
  {
    LowerBoundIs([Entry(-5, 800), Entry(5, 1200)], 0, 1);
  }

  /** It passes the gate, and its first tick at 0 degrees is undefined in dynamic mode: the knots are opposite. */
  lemma {:induction false} GatedTickExample(e: Setup, fanRpm: Rpm)
    requires e.intervals == 8 && e.isDynamic && Smoother.Sane(e.cfg)
    ensures var f := History(MapText.Meant, [Configure(OPPOSITE, map[])]);
            && f.Defined? && f.value.tempToRpm == [Entry(-5, 800), Entry(5, 1200)]
            && (e.profile == ProfileOf(f.value) ==>
                  SensorHistory.Read(e.rule, e.intervals, START.history, Some(0)).Defined?
                  && Tick(e, START, Some(0), fanRpm) == Undefined)
  {
    hide MapText.ParseTempRpm, MapText.ParseRpmPwm, Tick, Curve.Fits, SensorHistory.Read;
    MapText.RpmPwmRoundTripIff([Entry(1000, 100)]);
    MapText.FahrenheitExample([Entry(1000, 100)]);
    var events := [Configure(OPPOSITE, map[])];
    assert events[..0] == [];
    assert History(MapText.Meant, events) == From(MapText.Meant, FRESH_FAN, OPPOSITE, map[]);
    if e.profile == ProfileOf(History(MapText.Meant, events).value) {
      GatedTickIff(MapText.Meant, events, e, START, Some(0), fanRpm);
      ZeroRead(e.rule);
      OppositeKnots();
    }
  }
}
