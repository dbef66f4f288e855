/** The control law without smoothing: temperature to curve RPM to nearest PWM with its kick-start. */
module ControlLaw {
  import opened Basics
  import opened Tables
  import Curve
  import Lookup

  /** A fan's calibration and curve. */
  datatype Profile = Profile(rpmToPwm: Table, tempToRpm: Table, startPwm: Pwm)

  function UnsmoothedPwm(p: Profile, temp: Temp, isDynamic: bool, fanRpm: Rpm): Outcome<Pwm> {
    match Curve.CurveRpm(p.tempToRpm, temp, isDynamic)
    case Defined(rpm) => Lookup.FindClosestPwm(p.rpmToPwm, p.startPwm, rpm, fanRpm)
    case _ => Undefined
  }

  ghost predicate Usable(p: Profile) {
    && Curve.Rising(p.tempToRpm)
    && p.rpmToPwm != [] && Sorted(p.rpmToPwm) && Monotone(p.rpmToPwm)
  }

  /** End to end, a hotter temperature never gives a lower PWM: across all knots, in static and dynamic
      mode, kick-start included. */
  lemma {:induction false} HotterNeverSlower(p: Profile, cool: Temp, hot: Temp, isDynamic: bool, fanRpm: Rpm)
    requires Usable(p) && cool <= hot
    ensures UnsmoothedPwm(p, cool, isDynamic, fanRpm).Defined? && UnsmoothedPwm(p, hot, isDynamic, fanRpm).Defined?
    ensures UnsmoothedPwm(p, cool, isDynamic, fanRpm).value <= UnsmoothedPwm(p, hot, isDynamic, fanRpm).value
  {
    Curve.CurveMonotone(p.tempToRpm, cool, hot, isDynamic);
    Lookup.FindClosestMonotone(p.rpmToPwm, p.startPwm,
      Curve.CurveRpm(p.tempToRpm, cool, isDynamic).value, Curve.CurveRpm(p.tempToRpm, hot, isDynamic).value, fanRpm);
  }
}
