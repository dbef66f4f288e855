/** The whole control loop: sensor average, curve, smoothing and PWM lookup, tick after tick. */
module Settling {
  import opened Basics
  import opened Division
  import opened Tables
  import opened Smoother
  import opened SensorHistory
  import opened ControlLaw
  import Curve
  import Lookup

  datatype Setup = Setup(rule: WrapRule, intervals: nat, profile: Profile, cfg: Tuning, isDynamic: bool)
  datatype Loop = Loop(history: History, smoothing: Smoothing)

  const START := Loop(EMPTY, FRESH)

  function MaxRpm(t: Table): Rpm
    requires t != []
  {
    if t[|t| - 1].key >= 0 then t[|t| - 1].key else 0
  }

  /** The part of a tick after the sensor: curve, then smoothing. */
  function Respond(e: Setup, s: Smoothing, temp: Temp): Outcome<Smoothed> {
    match Curve.CurveRpm(e.profile.tempToRpm, temp, e.isDynamic)
    case Defined(rpm) => if e.profile.rpmToPwm == [] then Undefined
        else Smooth(s, rpm, MaxRpm(e.profile.rpmToPwm), e.cfg)
    case _ => Undefined
  }

  /** One `Fan::update`: the new state and the PWM written. The fan turns at `fanRpm` when asked. */
  function Tick(e: Setup, l: Loop, reading: Option<Temp>, fanRpm: Rpm): Outcome<(Loop, Pwm)> {
    match Read(e.rule, e.intervals, l.history, reading)
    case Defined((h, temp)) =>
      (match Respond(e, l.smoothing, temp)
       case Defined(s) =>
         (match Lookup.FindClosestPwm(e.profile.rpmToPwm, e.profile.startPwm, s.rpm, fanRpm)
          case Defined(pwm) => Defined((Loop(h, s.state), pwm))
          case _ => Undefined)
       case _ => Undefined)
    case _ => Undefined
  }

  /** The state after `k` ticks that all read `reading`; the fan answers the i-th with `fanRpm(i)`. */
  function Ticks(e: Setup, l: Loop, reading: Temp, fanRpm: nat -> Rpm, k: nat): Outcome<Loop> {
    if k == 0 then Defined(l)
    else
      match Ticks(e, l, reading, fanRpm, k - 1)
      case Defined(m) =>
        (match Tick(e, m, Some(reading), fanRpm(k - 1))
         case Defined((next, _)) => Defined(next)
         case _ => Undefined)
      case _ => Undefined
  }

  /** What one tick meets. A reload or a test may change the setup between ticks, a read may fail. */
  datatype Input = Input(setup: Setup, reading: Option<Temp>, fanRpm: Rpm)

  /** The state after any sequence of ticks since start-up. */
  function LoopRun(inputs: seq<Input>): Outcome<Loop> {
    if inputs == [] then Defined(START)
    else
      match LoopRun(inputs[..|inputs| - 1])
      case Defined(l) =>
        var now := inputs[|inputs| - 1];
        (match Tick(now.setup, l, now.reading, now.fanRpm)
         case Defined((next, _)) => Defined(next)
         case _ => Undefined)
      case _ => Undefined
  }

  /** The meant ring buffer, a usable profile and tuning values within range. */
  ghost predicate Configured(e: Setup) {
    && e.rule == Meant && 0 < e.intervals < UINT_RANGE
    && Usable(e.profile)
    && InRange(e.profile.tempToRpm[|e.profile.tempToRpm| - 1].value)
    && Sane(e.cfg)
  }

  /** Bounds wide enough for every curve RPM and every reset of the stickiness. */
  ghost predicate Bounds(e: Setup, top: Rpm, sticky: nat)
    requires Configured(e)
  {
    && InRange(top)
    && e.profile.tempToRpm[|e.profile.tempToRpm| - 1].value <= top && e.cfg.topStickiness <= sticky
  }

  /** A running loop: its window is filled, its smoothing target is at most `top` and its stickiness at
      most `sticky`. The window keeps the size it got at the first reading. */
  ghost predicate Running(l: Loop, top: Rpm, sticky: nat) {
    && l.history.index < |l.history.window| < UINT_RANGE
    && l.smoothing.target <= top
    && 0 <= l.smoothing.stickiness <= sticky
    && (l.smoothing.justStarted ==> l.smoothing.target == 0)
  }

  /** Every slot of the buffer holds one reading. */
  ghost predicate Steady(h: History, reading: Temp) {
    forall i :: 0 <= i < |h.window| ==> h.window[i] == reading
  }

  /** The window after a reading, and the temperature the loop sees in it. */
  ghost function NextWindow(l: Loop, reading: Option<Temp>): (w: seq<Temp>)
    requires l.history.index < |l.history.window|
    ensures |w| == |l.history.window|
  {
    match reading
    case None => l.history.window
    case Some(t) => l.history.window[l.history.index := t]
  }

  ghost function Seen(l: Loop, reading: Option<Temp>): Temp
    requires l.history.index < |l.history.window|
  {
    Average(Sum(NextWindow(l, reading)), |l.history.window|)
  }

  /** The RPM the curve asks for at a temperature. */
  ghost function Goal(e: Setup, temp: Temp): (rpm: Rpm)
    requires Configured(e)
    ensures Curve.CurveRpm(e.profile.tempToRpm, temp, e.isDynamic) == Defined(rpm)
    ensures rpm <= e.profile.tempToRpm[|e.profile.tempToRpm| - 1].value
  {
    Curve.BetweenKnots(e.profile.tempToRpm, temp, e.isDynamic);
    Curve.CurveRpm(e.profile.tempToRpm, temp, e.isDynamic).value
  }

  lemma {:induction false} StepBounded(s: Smoothing, rpm: Rpm, maxRpm: Rpm, cfg: Tuning, top: Rpm, sticky: nat)
    requires Sane(cfg) && rpm <= top && s.target <= top && cfg.topStickiness <= sticky
    requires 0 <= s.stickiness <= sticky && (s.justStarted ==> s.target == 0)
    ensures var t := Step(s, rpm, maxRpm, cfg);
            t.target <= top && 0 <= t.stickiness <= sticky && (t.justStarted ==> t.target == 0)
  {
    if s.target < rpm {
      Quotient(rpm - s.target, cfg.smoothingIntervals);
    }
  }

  /** The PWM lookup of a configured fan has a result. */
  lemma {:induction false} WriteDefined(e: Setup, rpm: Rpm, fanRpm: Rpm)
    requires Configured(e)
    ensures Lookup.FindClosestPwm(e.profile.rpmToPwm, e.profile.startPwm, rpm, fanRpm).Defined?
  {
  }

  /** Whatever the reading, a tick of a running loop is defined and leaves it running; a successful reading
      slides the window, a failed one leaves it; smoothing takes one step toward the curve, and the PWM written
      is the one looked up for its target. */
  lemma {:induction false} TickRuns(e: Setup, l: Loop, reading: Option<Temp>, fanRpm: Rpm, top: Rpm, sticky: nat)
    requires Configured(e) && Bounds(e, top, sticky) && Running(l, top, sticky)
    ensures var r := Tick(e, l, reading, fanRpm);
            && r.Defined?
            && Running(r.value.0, top, sticky)
            && r.value.0.history.window == NextWindow(l, reading)
            && Rotated(r.value.0.history) ==
               (if reading.Some? then Rotated(l.history)[1..] + [reading.value] else Rotated(l.history))
            && r.value.0.smoothing == Step(l.smoothing, Goal(e, Seen(l, reading)), MaxRpm(e.profile.rpmToPwm), e.cfg)
            && Defined(r.value.1) == Lookup.FindClosestPwm(e.profile.rpmToPwm, e.profile.startPwm,
                r.value.0.smoothing.target, fanRpm)
  {
    hide Smooth, Step, Curve.CurveRpm, Lookup.FindClosestPwm, Average, Sum, Curve.Rising;
    if reading.Some? {
      RotationSlides(l.history, reading.value);
    }
    var rpm := Goal(e, Seen(l, reading));
    WriteDefined(e, Step(l.smoothing, rpm, MaxRpm(e.profile.rpmToPwm), e.cfg).target, fanRpm);
    SmoothIsStep(l.smoothing, rpm, MaxRpm(e.profile.rpmToPwm), e.cfg);
    StepBounded(l.smoothing, rpm, MaxRpm(e.profile.rpmToPwm), e.cfg, top, sticky);
  }

  lemma {:induction false} FilledAverage(w: seq<Temp>, reading: Temp)
    requires 0 < |w| < UINT_RANGE && AveragesToItself(reading, |w|)
    requires forall i :: 0 <= i < |w| ==> w[i] == reading
    ensures Average(Sum(w), |w|) == reading
  {
    SumBounds(w, reading, reading);
    ConstantAverageIff(|w|, reading);
  }

  /** The program's top RPM is the greatest key of the map. */
  lemma {:induction false} MaxRpmIs(t: Table, m: Rpm)
    requires t != [] && Sorted(t) && KeysNatural(t)
    ensures MaxRpm(t) == m <==> Lookup.TopKey(t, m)
  {
    Lookup.TopIs(t, m);
  }

  /** What a tick does to the smoothed RPM of a fan that runs, for the top RPM `m` of its map: a lower goal is held
      off while the fan is sticky and then taken, a higher one by less than a tenth of `m` is taken at once, any
      other is approached by its share of the gap. */
  lemma {:induction false} TickSmooths(e: Setup, l: Loop, reading: Option<Temp>, fanRpm: Rpm, top: Rpm, sticky: nat,
      m: Rpm)
    requires Configured(e) && Bounds(e, top, sticky) && Running(l, top, sticky) && !l.smoothing.justStarted
    requires KeysNatural(e.profile.rpmToPwm) && Lookup.TopKey(e.profile.rpmToPwm, m)
    ensures var r := Tick(e, l, reading, fanRpm);
            var from, goal := l.smoothing.target, Goal(e, Seen(l, reading));
            && r.Defined?
            && r.value.0.smoothing.target ==
               (if goal < from then if l.smoothing.stickiness > 0 then from else goal
                else if 10 * (goal - from) < m then goal
                else from + (goal - from) / e.cfg.smoothingIntervals)
            && r.value.0.smoothing.stickiness ==
               (if goal < from then if l.smoothing.stickiness > 0 then l.smoothing.stickiness - 1 else 0
                else if goal == from then l.smoothing.stickiness
                else e.cfg.topStickiness)
  {
    hide Tick, Goal, Seen, Bounds, Lookup.TopKey;
    TickRuns(e, l, reading, fanRpm, top, sticky);
    MaxRpmIs(e.profile.rpmToPwm, m);
    if Goal(e, Seen(l, reading)) == l.smoothing.target {
      QuotientUnique(0, e.cfg.smoothingIntervals, 0);
    }
  }

  /** On a 3000 RPM fan an increase by 100 is taken at once, one by 400 in quarters. */
  lemma {:induction false} TopRpmExample()
    ensures var top := MaxRpm([Entry(0, 0), Entry(1000, 90), Entry(3000, 255)]);
            && Step(Smoothing(false, 4, 1000, 4), 1100, top, Tuning(4, 4)).target == 1100
            && Step(Smoothing(false, 4, 1000, 4), 1400, top, Tuning(4, 4)).target == 1100
  {
  }

  /** The first tick: a failed reading divides by zero; a successful one fills the window, and smoothing,
      just started, goes straight to the curve's RPM. */
  lemma {:induction false} FirstTick(e: Setup, reading: Option<Temp>, fanRpm: Rpm, top: Rpm, sticky: nat)
    requires Configured(e) && Bounds(e, top, sticky)
    ensures var r := Tick(e, START, reading, fanRpm);
            && (r.Defined? <==> reading.Some?)
            && (reading.Some? ==>
                  && Running(r.value.0, top, sticky) && Steady(r.value.0.history, reading.value)
                  && |r.value.0.history.window| == e.intervals
                  && (AveragesToItself(reading.value, e.intervals) ==>
                        r.value.0.smoothing.target == Goal(e, reading.value))
                  && Defined(r.value.1) == Lookup.FindClosestPwm(e.profile.rpmToPwm, e.profile.startPwm,
                      r.value.0.smoothing.target, fanRpm))
  {
    hide Smooth, Curve.CurveRpm, Lookup.FindClosestPwm, Average, Sum, Curve.Rising;
    if reading.Some? {
      var w := Filled(e.intervals, reading.value);
      if AveragesToItself(reading.value, e.intervals) {
        FilledAverage(w, reading.value);
      }
      var rpm := Goal(e, Average(Sum(w), |w|));
      WriteDefined(e, rpm, fanRpm);
      SmoothIsStep(FRESH, rpm, MaxRpm(e.profile.rpmToPwm), e.cfg);
      StepBounded(FRESH, rpm, MaxRpm(e.profile.rpmToPwm), e.cfg, top, sticky);
    }
  }

  /** Every tick of the run has a usable setup within the bounds. */
  ghost predicate Prepared(inputs: seq<Input>, top: Rpm, sticky: nat) {
    forall i :: 0 <= i < |inputs| ==> Configured(inputs[i].setup) && Bounds(inputs[i].setup, top, sticky)
  }

  /** Over every run from start-up, through failed readings and changing setups: the ticks are all defined
      exactly when the first reading succeeds, and then the loop is running, with the window size of that tick. */
  lemma {:induction false} RunDefinedIff(inputs: seq<Input>, top: Rpm, sticky: nat)
    requires inputs != [] && Prepared(inputs, top, sticky)
    ensures var r := LoopRun(inputs);
            && (r.Defined? <==> inputs[0].reading.Some?)
            && (r.Defined? ==> Running(r.value, top, sticky)
                               && |r.value.history.window| == inputs[0].setup.intervals)
  {
    hide Tick, Configured, Running, Goal, Seen, Bounds;
    var init, now := inputs[..|inputs| - 1], inputs[|inputs| - 1];
    if init == [] {
      FirstTick(now.setup, now.reading, now.fanRpm, top, sticky);
    } else {
      RunDefinedIff(init, top, sticky);
      if LoopRun(init).Defined? {
        TickRuns(now.setup, LoopRun(init).value, now.reading, now.fanRpm, top, sticky);
      }
    }
  }

  /** After `k` ticks the `k` newest slots hold the reading. */
  lemma {:induction false} WindowFills(e: Setup, l: Loop, reading: Temp, fanRpm: nat -> Rpm, k: nat, top: Rpm,
      sticky: nat)
    requires Configured(e) && Bounds(e, top, sticky) && Running(l, top, sticky)
    ensures var r := Ticks(e, l, reading, fanRpm, k);
            var n := |l.history.window|;
            && r.Defined? && Running(r.value, top, sticky) && |r.value.history.window| == n
            && forall i :: 0 <= i < n && n - k <= i ==> Rotated(r.value.history)[i] == reading
  {
    hide Tick, Step, Goal, Seen, Usable;
    if k > 0 {
      WindowFills(e, l, reading, fanRpm, k - 1, top, sticky);
      TickRuns(e, Ticks(e, l, reading, fanRpm, k - 1).value, Some(reading), fanRpm(k - 1), top, sticky);
    }
  }

  lemma {:induction false} RotatedSteady(h: History, reading: Temp)
    requires h.index <= |h.window|
    requires forall i :: 0 <= i < |h.window| ==> Rotated(h)[i] == reading
    ensures Steady(h, reading)
  {
    forall i | 0 <= i < |h.window| ensures h.window[i] == reading {
      var j := if h.index <= i then i - h.index else i + |h.window| - h.index;
      assert Rotated(h)[j] == h.window[i];
    }
  }

  lemma {:induction false} Fills(e: Setup, l: Loop, reading: Temp, fanRpm: nat -> Rpm, top: Rpm, sticky: nat)
    requires Configured(e) && Bounds(e, top, sticky) && Running(l, top, sticky)
    ensures var r := Ticks(e, l, reading, fanRpm, |l.history.window|);
            && r.Defined? && Running(r.value, top, sticky) && Steady(r.value.history, reading)
            && |r.value.history.window| == |l.history.window|
  {
    hide Ticks, Usable;
    WindowFills(e, l, reading, fanRpm, |l.history.window|, top, sticky);
    RotatedSteady(Ticks(e, l, reading, fanRpm, |l.history.window|).value.history, reading);
  }

  /** The read fails or returns the same. */
  predicate SameOrLost(next: Option<Temp>, reading: Temp) {
    next == None || next == Some(reading)
  }

  /** A steady loop stays steady, whether it reads the same again or fails to read. */
  lemma {:induction false} SteadyTick(e: Setup, l: Loop, reading: Temp, next: Option<Temp>, fanRpm: Rpm, top: Rpm,
      sticky: nat)
    requires Configured(e) && Bounds(e, top, sticky) && Running(l, top, sticky)
    requires Steady(l.history, reading) && AveragesToItself(reading, |l.history.window|) && SameOrLost(next, reading)
    ensures var r := Tick(e, l, next, fanRpm);
            && r.Defined? && Running(r.value.0, top, sticky) && Steady(r.value.0.history, reading)
            && |r.value.0.history.window| == |l.history.window|
            && r.value.0.smoothing == Step(l.smoothing, Goal(e, reading), MaxRpm(e.profile.rpmToPwm), e.cfg)
            && Defined(r.value.1) == Lookup.FindClosestPwm(e.profile.rpmToPwm, e.profile.startPwm,
                r.value.0.smoothing.target, fanRpm)
  {
    hide Tick, Step, Goal;
    FilledAverage(NextWindow(l, next), reading);
    TickRuns(e, l, next, fanRpm, top, sticky);
  }

  lemma {:induction false} RepeatLast(s: Smoothing, rpm: Rpm, maxRpm: Rpm, cfg: Tuning, k: nat)
    requires Sane(cfg) && k > 0
    ensures Repeat(s, rpm, maxRpm, cfg, k) == Step(Repeat(s, rpm, maxRpm, cfg, k - 1), rpm, maxRpm, cfg)
  {
    hide Step;
    RepeatAdds(s, rpm, maxRpm, cfg, k - 1, 1);
    var t := Repeat(s, rpm, maxRpm, cfg, k - 1);
    assert Repeat(t, rpm, maxRpm, cfg, 1) == Repeat(Step(t, rpm, maxRpm, cfg), rpm, maxRpm, cfg, 0);
  }

  /** From a steady loop on, the smoothing sees one repeated request. */
  lemma {:induction false} SteadyRepeats(e: Setup, l: Loop, reading: Temp, fanRpm: nat -> Rpm, k: nat, top: Rpm,
      sticky: nat)
    requires Configured(e) && Bounds(e, top, sticky) && Running(l, top, sticky)
    requires Steady(l.history, reading) && AveragesToItself(reading, |l.history.window|)
    ensures var r := Ticks(e, l, reading, fanRpm, k);
            && r.Defined? && Running(r.value, top, sticky) && Steady(r.value.history, reading)
            && |r.value.history.window| == |l.history.window|
            && r.value.smoothing == Repeat(l.smoothing, Goal(e, reading), MaxRpm(e.profile.rpmToPwm), e.cfg, k)
  {
    hide Tick, Step, Goal, Usable;
    if k > 0 {
      SteadyRepeats(e, l, reading, fanRpm, k - 1, top, sticky);
      SteadyTick(e, Ticks(e, l, reading, fanRpm, k - 1).value, reading, Some(reading), fanRpm(k - 1), top, sticky);
      RepeatLast(l.smoothing, Goal(e, reading), MaxRpm(e.profile.rpmToPwm), e.cfg, k);
    }
  }

  /** From any state within the bounds, a repeated request is reached in this many calls. */
  ghost function SmoothingBound(maxRpm: Rpm, cfg: Tuning, top: Rpm, sticky: nat): nat
    requires Sane(cfg) && Stride(maxRpm, cfg) >= 1
  {
    DivMonotone(0, top, Stride(maxRpm, cfg));
    QuotientUnique(0, Stride(maxRpm, cfg), 0);
    top / Stride(maxRpm, cfg) + sticky + 2
  }

  lemma {:induction false} ReachedWithin(s: Smoothing, rpm: Rpm, maxRpm: Rpm, cfg: Tuning, top: Rpm, sticky: nat,
      k: nat)
    requires Sane(cfg) && Stride(maxRpm, cfg) >= 1
    requires rpm <= top && s.target <= top && 0 <= s.stickiness <= sticky && (s.justStarted ==> s.target == 0)
    requires k >= SmoothingBound(maxRpm, cfg, top, sticky)
    ensures Repeat(s, rpm, maxRpm, cfg, k).target == rpm
  {
    DivMonotone(0, top, Stride(maxRpm, cfg));
    QuotientUnique(0, Stride(maxRpm, cfg), 0);
    if s.target == rpm {
      StaysReached(s, rpm, maxRpm, cfg, k);
    } else if s.justStarted {
      StaysReached(Step(s, rpm, maxRpm, cfg), rpm, maxRpm, cfg, k - 1);
    } else if rpm < s.target {
      StepsLower(s, rpm, maxRpm, cfg, k);
    } else {
      DivMonotone(rpm - s.target, top, Stride(maxRpm, cfg));
      StepsBound(s, rpm, maxRpm, cfg, k);
    }
  }

  lemma {:induction false} Reaches(e: Setup, l: Loop, reading: Temp, top: Rpm, sticky: nat, k: nat)
    requires Configured(e) && Bounds(e, top, sticky) && Running(l, top, sticky)
    requires Stride(MaxRpm(e.profile.rpmToPwm), e.cfg) >= 1
    requires k >= SmoothingBound(MaxRpm(e.profile.rpmToPwm), e.cfg, top, sticky)
    ensures Repeat(l.smoothing, Goal(e, reading), MaxRpm(e.profile.rpmToPwm), e.cfg, k).target == Goal(e, reading)
  {
    hide Repeat, Step;
    ReachedWithin(l.smoothing, Goal(e, reading), MaxRpm(e.profile.rpmToPwm), e.cfg, top, sticky, k);
  }

  lemma {:induction false} TicksAdd(e: Setup, l: Loop, reading: Temp, fanRpm: nat -> Rpm, later: nat -> Rpm,
      j: nat, k: nat)
    requires forall i: nat :: later(i) == fanRpm(i + j)
    ensures Ticks(e, l, reading, fanRpm, j).Defined? ==>
              Ticks(e, l, reading, fanRpm, j + k) == Ticks(e, Ticks(e, l, reading, fanRpm, j).value, reading, later, k)
  {
    hide Tick;
    if k > 0 {
      TicksAdd(e, l, reading, fanRpm, later, j, k - 1);
    }
  }

  /** The PWM of the calibrated point nearest to the curve's RPM. */
  ghost function NearestPwm(e: Setup, temp: Temp): Pwm
    requires Configured(e)
  {
    e.profile.rpmToPwm[Lookup.ClosestIndex(e.profile.rpmToPwm, Goal(e, temp))].value
  }

  /** Arrived and steady, a tick stays so and writes the nearest PWM to a spinning fan. */
  lemma {:induction false} SteadyWrite(e: Setup, l: Loop, reading: Temp, next: Option<Temp>, fanRpm: Rpm, top: Rpm,
      sticky: nat)
    requires Configured(e) && Bounds(e, top, sticky) && Running(l, top, sticky)
    requires Steady(l.history, reading) && AveragesToItself(reading, |l.history.window|) && SameOrLost(next, reading)
    requires l.smoothing.target == Goal(e, reading)
    ensures var r := Tick(e, l, next, fanRpm);
            && r.Defined? && Running(r.value.0, top, sticky) && Steady(r.value.0.history, reading)
            && |r.value.0.history.window| == |l.history.window|
            && r.value.0.smoothing.target == Goal(e, reading)
            && (fanRpm > 0 ==> r.value.1 == NearestPwm(e, reading))
  {
    hide Tick, Goal, Seen, Usable;
    SteadyTick(e, l, reading, next, fanRpm, top, sticky);
  }

  /** Some number of ticks reaches the curve's RPM. */
  ghost predicate Arrives(e: Setup, l: Loop, reading: Temp, fanRpm: nat -> Rpm)
    requires Configured(e)
  {
    exists k: nat :: var r := Ticks(e, l, reading, fanRpm, k);
                     r.Defined? && r.value.smoothing.target == Goal(e, reading)
  }

  /** What the repeated request does from any state within the bounds: it is reached from start-up, from above,
      and from below if its gap closes. */
  lemma {:induction false} RepeatReachesIff(s: Smoothing, rpm: Rpm, maxRpm: Rpm, cfg: Tuning)
    requires Sane(cfg) && s.stickiness >= 0
    ensures (exists k: nat :: Repeat(s, rpm, maxRpm, cfg, k).target == rpm)
       <==> s.justStarted || rpm <= s.target || Closes(rpm - s.target, maxRpm, cfg)
  {
    hide Closes;
    if s.target == rpm {
      StaysReached(s, rpm, maxRpm, cfg, 0);
    } else if s.justStarted {
      StaysReached(Step(s, rpm, maxRpm, cfg), rpm, maxRpm, cfg, 0);
      assert Repeat(s, rpm, maxRpm, cfg, 1) == Repeat(Step(s, rpm, maxRpm, cfg), rpm, maxRpm, cfg, 0);
    } else if rpm < s.target {
      StepsLower(s, rpm, maxRpm, cfg, s.stickiness + 1);
    } else {
      StepsReachIff(s, rpm, maxRpm, cfg);
    }
  }

  /** Whether a steady loop settles, for any tuning: it reaches the curve's RPM if and only if it has just
      started, comes from above, or its gap closes. */
  lemma {:induction false} SteadySettlesIff(e: Setup, l: Loop, reading: Temp, fanRpm: nat -> Rpm, top: Rpm, sticky: nat)
    requires Configured(e) && Bounds(e, top, sticky) && Running(l, top, sticky)
    requires Steady(l.history, reading) && AveragesToItself(reading, |l.history.window|)
    ensures Arrives(e, l, reading, fanRpm)
       <==> l.smoothing.justStarted || Goal(e, reading) <= l.smoothing.target
            || Closes(Goal(e, reading) - l.smoothing.target, MaxRpm(e.profile.rpmToPwm), e.cfg)
  {
    hide Ticks, Goal, Repeat, Closes, Steady;
    var rpm, maxRpm := Goal(e, reading), MaxRpm(e.profile.rpmToPwm);
    RepeatReachesIff(l.smoothing, rpm, maxRpm, e.cfg);
    if k: nat :| Repeat(l.smoothing, rpm, maxRpm, e.cfg, k).target == rpm {
      SteadyRepeats(e, l, reading, fanRpm, k, top, sticky);
      assert Arrives(e, l, reading, fanRpm);
    }
    if Arrives(e, l, reading, fanRpm) {
      var k: nat :| var r := Ticks(e, l, reading, fanRpm, k); r.Defined? && r.value.smoothing.target == rpm;
      SteadyRepeats(e, l, reading, fanRpm, k, top, sticky);
      assert Repeat(l.smoothing, rpm, maxRpm, e.cfg, k).target == rpm;
    }
  }

  /** Settling: if the sensor reads the same value on every tick, one its window averages to itself, then from
      window size plus SmoothingBound ticks on the average is that value, the smoothing target is the curve's RPM
      for it, and every tick writes the PWM nearest to it to a spinning fan. */
  lemma {:induction false} Settles(e: Setup, l: Loop, reading: Temp, fanRpm: nat -> Rpm, k: nat, top: Rpm, sticky: nat)
    requires Configured(e) && Bounds(e, top, sticky) && Running(l, top, sticky)
    requires Stride(MaxRpm(e.profile.rpmToPwm), e.cfg) >= 1
    requires AveragesToItself(reading, |l.history.window|)
    requires k >= |l.history.window| + SmoothingBound(MaxRpm(e.profile.rpmToPwm), e.cfg, top, sticky)
    ensures var m := Ticks(e, l, reading, fanRpm, k);
            && m.Defined? && Steady(m.value.history, reading) && m.value.smoothing.target == Goal(e, reading)
            && var w := Tick(e, m.value, Some(reading), fanRpm(k));
               w.Defined? && (fanRpm(k) > 0 ==> w.value.1 == NearestPwm(e, reading))
  {
    hide Tick, Ticks, Step, Goal, Seen, Repeat, Running, SmoothingBound;
    var n := |l.history.window|;
    Fills(e, l, reading, fanRpm, top, sticky);
    var filled := Ticks(e, l, reading, fanRpm, n).value;
    var later := (i: nat) => fanRpm(i + n);
    TicksAdd(e, l, reading, fanRpm, later, n, k - n);
    SteadyRepeats(e, filled, reading, later, k - n, top, sticky);
    Reaches(e, filled, reading, top, sticky, k - n);
    SteadyWrite(e, Ticks(e, l, reading, fanRpm, k).value, reading, Some(reading), fanRpm(k), top, sticky);
  }

  /** Settling after any run since start-up: whatever was read, failed or reconfigured before, a constant
      reading settles within the window size plus SmoothingBound ticks. */
  lemma {:induction false} SettlesAfterRun(inputs: seq<Input>, e: Setup, reading: Temp, fanRpm: nat -> Rpm, k: nat,
      top: Rpm, sticky: nat)
    requires inputs != [] && Prepared(inputs, top, sticky) && inputs[0].reading.Some?
    requires Configured(e) && Bounds(e, top, sticky)
    requires Stride(MaxRpm(e.profile.rpmToPwm), e.cfg) >= 1
    requires AveragesToItself(reading, inputs[0].setup.intervals)
    requires k >= inputs[0].setup.intervals + SmoothingBound(MaxRpm(e.profile.rpmToPwm), e.cfg, top, sticky)
    ensures LoopRun(inputs).Defined?
    ensures var m := Ticks(e, LoopRun(inputs).value, reading, fanRpm, k);
            && m.Defined? && Steady(m.value.history, reading) && m.value.smoothing.target == Goal(e, reading)
            && var w := Tick(e, m.value, Some(reading), fanRpm(k));
               w.Defined? && (fanRpm(k) > 0 ==> w.value.1 == NearestPwm(e, reading))
  {
    hide Tick, Ticks, LoopRun, Goal, Running, SmoothingBound, Configured, Bounds;
    RunDefinedIff(inputs, top, sticky);
    Settles(e, LoopRun(inputs).value, reading, fanRpm, k, top, sticky);
  }

  /** A filled and steady buffer of `n` slots. */
  ghost predicate FilledWith(h: History, n: nat, reading: Temp) {
    h.index < |h.window| == n < UINT_RANGE && Steady(h, reading)
  }

  /** A read that fails or returns the same again keeps it so, and so does the first read on an empty one. */
  lemma {:induction false} ReadsSame(n: nat, h: History, reading: Temp, next: Option<Temp>)
    requires 0 < n < UINT_RANGE && AveragesToItself(reading, n)
    requires if h == EMPTY then next == Some(reading) else FilledWith(h, n, reading) && SameOrLost(next, reading)
    ensures var r := Read(Meant, n, h, next);
            r.Defined? && FilledWith(r.value.0, n, reading) && r.value.1 == reading
  {
    hide Average, Sum;
    var w := Record(Meant, n, h, next).value.window;
    FilledAverage(w, reading);
  }

  /** Start-up, or arrived: the next call with the same request returns it and stays there. */
  lemma {:induction false} SmoothsSame(s: Smoothing, rpm: Rpm, maxRpm: Rpm, cfg: Tuning)
    requires rpm < UINT_RANGE && (s == FRESH || s.target == rpm)
    ensures var r := Smooth(s, rpm, maxRpm, cfg); r.Defined? && r.value.rpm == rpm && r.value.state.target == rpm
  {
  }

  /** A steady reading is seen as it is, and the setup's curve asks for `rpm` at it, whatever it does elsewhere. */
  ghost predicate AsksFor(e: Setup, reading: Temp, rpm: Rpm) {
    && e.rule == Meant && 0 < e.intervals < UINT_RANGE && AveragesToItself(reading, e.intervals)
    && e.profile.rpmToPwm != []
    && Curve.CurveRpm(e.profile.tempToRpm, reading, e.isDynamic) == Defined(rpm) && rpm < UINT_RANGE
  }

  lemma {:induction false} SameTick(e: Setup, l: Loop, reading: Temp, next: Option<Temp>, rpm: Rpm, fanRpm: Rpm)
    requires AsksFor(e, reading, rpm)
    requires if l == START then next == Some(reading)
             else FilledWith(l.history, e.intervals, reading) && l.smoothing.target == rpm && SameOrLost(next, reading)
    ensures var r := Tick(e, l, next, fanRpm);
            && r.Defined? && FilledWith(r.value.0.history, e.intervals, reading) && r.value.0.smoothing.target == rpm
            && Defined(r.value.1) == Lookup.FindClosestPwm(e.profile.rpmToPwm, e.profile.startPwm, rpm, fanRpm)
  {
    hide Read, Smooth, Curve.CurveRpm;
    ReadsSame(e.intervals, l.history, reading, next);
    SmoothsSame(l.smoothing, rpm, MaxRpm(e.profile.rpmToPwm), e.cfg);
  }

  /** Every tick has the same setup, and every successful reading is the same, the first one included. */
  ghost predicate Constant(inputs: seq<Input>, e: Setup, reading: Temp) {
    && (inputs != [] ==> inputs[0].reading.Some?)
    && forall i :: 0 <= i < |inputs| ==>
         inputs[i].setup == e && SameOrLost(inputs[i].reading, reading)
  }

  lemma {:induction false} NotAtStart(l: Loop, n: nat, reading: Temp)
    requires FilledWith(l.history, n, reading)
    ensures l != START
  {
  }

  /** From start-up a sensor that reads the same value whenever it can be read is settled from the first tick on,
      whatever the curve and the tuning: on every tick the average is that value, the smoothing target the curve's
      RPM for it, and the PWM written the one looked up for that RPM. */
  lemma {:induction false} SettlesFromStart(inputs: seq<Input>, e: Setup, reading: Temp, rpm: Rpm, now: Input)
    requires AsksFor(e, reading, rpm)
    requires Constant(inputs + [now], e, reading)
    ensures var r := LoopRun(inputs + [now]);
            r.Defined? && FilledWith(r.value.history, e.intervals, reading) && r.value.smoothing.target == rpm
    ensures LoopRun(inputs).Defined?
    ensures var r := Tick(e, LoopRun(inputs).value, now.reading, now.fanRpm);
            && r.Defined?
            && Defined(r.value.1) == Lookup.FindClosestPwm(e.profile.rpmToPwm, e.profile.startPwm, rpm, now.fanRpm)
    decreases |inputs|
  {
    hide Tick, AsksFor, FilledWith;
    var all := inputs + [now];
    assert all[..|all| - 1] == inputs && all[|all| - 1] == now;
    if inputs != [] {
      var init, last := inputs[..|inputs| - 1], inputs[|inputs| - 1];
      assert inputs == init + [last];
      assert forall i :: 0 <= i < |inputs| ==> inputs[i] == all[i];
      SettlesFromStart(init, e, reading, rpm, last);
      NotAtStart(LoopRun(inputs).value, e.intervals, reading);
    }
    SameTick(e, LoopRun(inputs).value, reading, now.reading, rpm, now.fanRpm);
  }
}
