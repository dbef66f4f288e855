/** `Fan::smooth_rpm`: top-stickiness, then a gradual climb for large increases. The state is the
    fan's `smoothing` struct; a whole run is a fold over the requested RPMs. */
module Smoother {
  import opened Basics
  import opened Division

  datatype Smoothing = Smoothing(justStarted: bool, remIntervals: int, target: Rpm, stickiness: int)

  /** The controller's global tuning values. */
  datatype Tuning = Tuning(smoothingIntervals: nat, topStickiness: nat)

  /** The state after a call, and the RPM the call returns. */
  datatype Smoothed = Smoothed(state: Smoothing, rpm: Rpm)

  const FRESH := Smoothing(true, 0, 0, 0)

  /** C++ integer division by a positive divisor truncates toward zero. */
  function TruncDiv(x: int, y: int): int
    requires y != 0
  {
    if x < 0 then -((-x) / y) else x / y
  }

  /** A tenth of the highest calibrated RPM separates minor from major changes. */
  predicate Minor(delta: int, maxRpm: Rpm) {
    10 * delta < maxRpm
  }

  /** One call. `maxRpm` is the highest key of the fan's rpm_to_pwm map. */
  function Smooth(s: Smoothing, rpm: Rpm, maxRpm: Rpm, cfg: Tuning): Outcome<Smoothed> {
    var delta := AsInt(rpm - s.target);
    if delta == 0 then Defined(Smoothed(s, rpm))
    else if s.justStarted then
      Defined(Smoothed(Smoothing(false, AsInt(cfg.smoothingIntervals), rpm, AsInt(cfg.topStickiness)), rpm))
    else if delta < 0 && s.stickiness > 0 then
      Defined(Smoothed(s.(stickiness := s.stickiness - 1), s.target))
    else
      var s := if delta < 0 then s else s.(stickiness := AsInt(cfg.topStickiness));
      if Minor(delta, maxRpm) then Defined(Smoothed(s.(target := rpm), rpm))
      else
        var rem := if rpm != s.target || s.target <= 0 then AsInt(cfg.smoothingIntervals) else s.remIntervals;
        if rem == 0 then Undefined
        else
          var t := AsUint(s.target + TruncDiv(delta, rem));
          Defined(Smoothed(s.(target := t, remIntervals := rem - 1), t))
  }

  /** Values that fit the program's int variables, with smoothing switched on. */
  predicate Sane(cfg: Tuning) {
    1 <= cfg.smoothingIntervals < INT_LIMIT && cfg.topStickiness < INT_LIMIT
  }

  predicate InRange(rpm: Rpm) {
    rpm < INT_LIMIT
  }

  /** The step without machine arithmetic: what a call does when nothing overflows. */
  function Step(s: Smoothing, rpm: Rpm, maxRpm: Rpm, cfg: Tuning): Smoothing
    requires Sane(cfg)
  {
    if rpm == s.target then s
    else if s.justStarted then Smoothing(false, cfg.smoothingIntervals, rpm, cfg.topStickiness)
    else if rpm < s.target then
      if s.stickiness > 0 then s.(stickiness := s.stickiness - 1) else s.(target := rpm)
    else if Minor(rpm - s.target, maxRpm) then
      s.(stickiness := cfg.topStickiness, target := rpm)
    else
      Smoothing(false, cfg.smoothingIntervals - 1, s.target + (rpm - s.target) / cfg.smoothingIntervals,
          cfg.topStickiness)
  }

  /** The signed difference of two RPMs is their difference: no request is more than 2^31 below the target or
      2^31 above it. */
  predicate Near(from: Rpm, to: Rpm) {
    from < UINT_RANGE && to < UINT_RANGE && -INT_LIMIT <= to - from < INT_LIMIT
  }

  /** There the machine computation is `Step`: no wrap-around, the remaining intervals always restart, and
      every call returns the target it stores. A fan that has just started takes any request. */
  lemma {:induction false} SmoothIsStep(s: Smoothing, rpm: Rpm, maxRpm: Rpm, cfg: Tuning)
    requires Sane(cfg) && s.target < UINT_RANGE && rpm < UINT_RANGE && (s.justStarted || Near(s.target, rpm))
    ensures var t := Step(s, rpm, maxRpm, cfg);
            && Smooth(s, rpm, maxRpm, cfg) == Defined(Smoothed(t, t.target)) && t.target < UINT_RANGE
            && (s.target <= t.target <= rpm || rpm <= t.target <= s.target)
  {
    if rpm > s.target {
      Quotient(rpm - s.target, cfg.smoothingIntervals);
    }
  }

  /** With smoothing switched off a major increase divides by zero, a decrease that wraps to one included, and
      nothing else does. */
  lemma {:induction false} DividesByZero(s: Smoothing, rpm: Rpm, maxRpm: Rpm, cfg: Tuning)
    requires cfg.smoothingIntervals < INT_LIMIT && rpm < UINT_RANGE && s.target < UINT_RANGE
    ensures Smooth(s, rpm, maxRpm, cfg) == Undefined
       <==> && cfg.smoothingIntervals == 0 && !s.justStarted
            && ((0 < rpm - s.target < INT_LIMIT && !Minor(rpm - s.target, maxRpm))
                || (s.target - rpm > INT_LIMIT && !Minor(rpm - s.target + UINT_RANGE, maxRpm)))
  {
  }

  /** With smoothing off, a running 3000 RPM fan asked for 1000 RPM more. */
  lemma {:induction false} DividesByZeroExample()
    ensures Smooth(Smoothing(false, 0, 1000, 4), 2000, 3000, Tuning(0, 4)) == Undefined
  {
    DividesByZero(Smoothing(false, 0, 1000, 4), 2000, 3000, Tuning(0, 4));
  }

  /** The state after a sequence of requests. */
  function Run(s: Smoothing, requests: seq<Rpm>, maxRpm: Rpm, cfg: Tuning): Smoothing
    requires Sane(cfg)
  {
    if requests == [] then s
    else Step(Run(s, requests[..|requests| - 1], maxRpm, cfg), requests[|requests| - 1], maxRpm, cfg)
  }

  /** The same run through the machine computation: the state and the RPM the last call returned. */
  function MachineRun(s: Smoothing, requests: seq<Rpm>, maxRpm: Rpm, cfg: Tuning): Outcome<Smoothed> {
    if requests == [] then Defined(Smoothed(s, s.target))
    else
      match MachineRun(s, requests[..|requests| - 1], maxRpm, cfg)
      case Defined(r) => Smooth(r.state, requests[|requests| - 1], maxRpm, cfg)
      case other => other
  }

  ghost predicate Bounded(requests: seq<Rpm>, lo: Rpm, hi: Rpm) {
    forall i :: 0 <= i < |requests| ==> lo <= requests[i] <= hi
  }

  lemma {:induction false} BoundedPrefix(requests: seq<Rpm>, lo: Rpm, hi: Rpm)
    requires requests != [] && Bounded(requests, lo, hi)
    ensures Bounded(requests[..|requests| - 1], lo, hi) && lo <= requests[|requests| - 1] <= hi
  {
  }

  /** Starting jumps to the request, unless it is the target. */
  lemma {:induction false} StepStarts(s: Smoothing, rpm: Rpm, maxRpm: Rpm, cfg: Tuning)
    requires Sane(cfg)
    ensures var t := Step(s, rpm, maxRpm, cfg);
            && (t.justStarted ==> s.justStarted && t == s && rpm == s.target)
            && (s.justStarted ==> t.target == rpm)
  {
  }

  /** While the requests span less than 2^31, a run from start-up is a run of steps. */
  lemma {:induction false} RunIsMachineRun(requests: seq<Rpm>, lo: Rpm, hi: Rpm, maxRpm: Rpm, cfg: Tuning)
    requires Sane(cfg) && hi < UINT_RANGE && hi - lo < INT_LIMIT && Bounded(requests, lo, hi)
    ensures var s := Run(FRESH, requests, maxRpm, cfg);
            && MachineRun(FRESH, requests, maxRpm, cfg) == Defined(Smoothed(s, s.target))
            && s.target < UINT_RANGE && (s.justStarted || lo <= s.target <= hi)
  {
    hide Step, Smooth, Bounded;
    if requests != [] {
      var init, rpm := requests[..|requests| - 1], requests[|requests| - 1];
      BoundedPrefix(requests, lo, hi);
      RunIsMachineRun(init, lo, hi, maxRpm, cfg);
      var s := Run(FRESH, init, maxRpm, cfg);
      SmoothIsStep(s, rpm, maxRpm, cfg);
      StepStarts(s, rpm, maxRpm, cfg);
    }
  }

  /** The one way out of the range between target and request: a request so far below the target that the
      signed difference wraps to an increase, which is major and moves the target. */
  predicate WrapsUp(target: Rpm, rpm: Rpm, maxRpm: Rpm, cfg: Tuning) {
    && target - rpm > INT_LIMIT
    && !Minor(rpm - target + UINT_RANGE, maxRpm)
    && 1 < cfg.smoothingIntervals <= rpm - target + UINT_RANGE
  }

  lemma {:induction false} WrappedDelta(target: Rpm, rpm: Rpm)
    requires target < UINT_RANGE && target - rpm > INT_LIMIT
    ensures AsInt(rpm - target) == rpm - target + UINT_RANGE > 0
  {
  }

  /** What the machine computation does to a target more than 2^31 above the request. */
  lemma {:induction false} FarLower(s: Smoothing, rpm: Rpm, maxRpm: Rpm, cfg: Tuning)
    requires Sane(cfg) && !s.justStarted && s.target < UINT_RANGE && s.target - rpm > INT_LIMIT
    ensures var d := rpm - s.target + UINT_RANGE;
            var r := Smooth(s, rpm, maxRpm, cfg);
            && r.Defined? && r.value.rpm == r.value.state.target && !r.value.state.justStarted
            && r.value.state.stickiness == cfg.topStickiness
            && r.value.rpm == if Minor(d, maxRpm) then rpm else AsUint(s.target + d / cfg.smoothingIntervals)
  {
    hide AsInt, AsUint, Minor;
    WrappedDelta(s.target, rpm);
  }

  /** A request 2^31 or more above the target wraps to a decrease: held while sticky, then granted in full. */
  lemma {:induction false} FarHigher(s: Smoothing, rpm: Rpm, maxRpm: Rpm, cfg: Tuning)
    requires Sane(cfg) && !s.justStarted && rpm < UINT_RANGE && rpm - s.target >= INT_LIMIT
    ensures Smooth(s, rpm, maxRpm, cfg) ==
            if s.stickiness > 0 then Defined(Smoothed(s.(stickiness := s.stickiness - 1), s.target))
            else Defined(Smoothed(s.(target := rpm), rpm))
  {
  }

  lemma {:induction false} WrappedTarget(target: Rpm, rpm: Rpm, n: nat)
    requires target < UINT_RANGE && target - rpm > INT_LIMIT && n >= 1
    ensures var d := rpm - target + UINT_RANGE;
            var t := AsUint(target + d / n);
            && (n == 1 ==> t == rpm)
            && (d < n ==> t == target)
            && (1 < n <= d ==> t < rpm || target < t)
  {
    var d := rpm - target + UINT_RANGE;
    Quotient(d, n);
  }

  /** One call on a started state, for any unsigned RPMs: it is defined, returns the target it stores, and
      that lies between the old target and the request exactly when the difference does not wrap up. */
  lemma {:induction false} CallBetweenIff(s: Smoothing, rpm: Rpm, maxRpm: Rpm, cfg: Tuning)
    requires Sane(cfg) && !s.justStarted && s.target < UINT_RANGE && rpm < UINT_RANGE
    ensures var r := Smooth(s, rpm, maxRpm, cfg);
            && r.Defined? && r.value.rpm == r.value.state.target && !r.value.state.justStarted
            && ((s.target <= r.value.rpm <= rpm || rpm <= r.value.rpm <= s.target)
                <==> !WrapsUp(s.target, rpm, maxRpm, cfg))
  {
    hide Smooth, Step, Minor;
    if s.target - rpm > INT_LIMIT {
      FarLower(s, rpm, maxRpm, cfg);
      WrappedTarget(s.target, rpm, cfg.smoothingIntervals);
    } else if rpm - s.target >= INT_LIMIT {
      FarHigher(s, rpm, maxRpm, cfg);
    } else {
      SmoothIsStep(s, rpm, maxRpm, cfg);
      StepStarts(s, rpm, maxRpm, cfg);
    }
  }

  lemma {:induction false} FirstCall(rpm: Rpm, maxRpm: Rpm, cfg: Tuning)
    requires Sane(cfg) && rpm < UINT_RANGE
    ensures Smooth(FRESH, rpm, maxRpm, cfg) ==
            Defined(Smoothed(if rpm == 0 then FRESH
                             else Smoothing(false, cfg.smoothingIntervals, rpm, cfg.topStickiness), rpm))
  {
  }

  /** Safety over any run from start-up whose requests span at most 2^31, or without gradual increases: every
      call is defined, returns the target it stores, and that output lies between the bounds of the requests. */
  lemma {:induction false} OutputWithinRequests(requests: seq<Rpm>, lo: Rpm, hi: Rpm, maxRpm: Rpm, cfg: Tuning)
    requires Sane(cfg) && requests != [] && Bounded(requests, lo, hi)
    requires hi < UINT_RANGE && (hi - lo <= INT_LIMIT || cfg.smoothingIntervals == 1)
    ensures var r := MachineRun(FRESH, requests, maxRpm, cfg);
            && r.Defined? && r.value.rpm == r.value.state.target && lo <= r.value.rpm <= hi
            && (r.value.state.justStarted ==> r.value.state == FRESH)
  {
    hide Smooth, Bounded, Minor;
    var init, rpm := requests[..|requests| - 1], requests[|requests| - 1];
    BoundedPrefix(requests, lo, hi);
    if init != [] {
      OutputWithinRequests(init, lo, hi, maxRpm, cfg);
    }
    var s := MachineRun(FRESH, init, maxRpm, cfg).value.state;
    if s.justStarted {
      FirstCall(rpm, maxRpm, cfg);
    } else {
      CallBetweenIff(s, rpm, maxRpm, cfg);
    }
  }

  /** The run is defined and its last output lies between any bounds of the requests. */
  ghost predicate StaysWithin(requests: seq<Rpm>, maxRpm: Rpm, cfg: Tuning) {
    var r := MachineRun(FRESH, requests, maxRpm, cfg);
    r.Defined? && forall lo: Rpm, hi: Rpm :: Bounded(requests, lo, hi) ==> lo <= r.value.rpm <= hi
  }

  lemma {:induction false} SpanStays(requests: seq<Rpm>, lo: Rpm, hi: Rpm, maxRpm: Rpm, cfg: Tuning)
    requires Sane(cfg) && requests != [] && Bounded(requests, lo, hi)
    requires hi < UINT_RANGE && (hi - lo <= INT_LIMIT || cfg.smoothingIntervals == 1)
    ensures StaysWithin(requests, maxRpm, cfg)
  {
    hide MachineRun;
    OutputWithinRequests(requests, lo, hi, maxRpm, cfg);
    forall a: Rpm, b: Rpm | Bounded(requests, a, b)
      ensures a <= MachineRun(FRESH, requests, maxRpm, cfg).value.rpm <= b
    {
      var low, high := if a < lo then lo else a, if b < hi then b else hi;
      assert low <= requests[0] <= high;
      assert Bounded(requests, low, high);
      OutputWithinRequests(requests, low, high, maxRpm, cfg);
    }
  }

  /** Two requests further apart than 2^31: the second one sends the output outside both. */
  lemma {:induction false} FarPairLeaves(hi: Rpm, maxRpm: Rpm, cfg: Tuning)
    requires Sane(cfg) && cfg.smoothingIntervals > 1 && INT_LIMIT < hi < UINT_RANGE && maxRpm < UINT_RANGE
    ensures var requests := [hi, hi - INT_LIMIT - 1];
            Bounded(requests, hi - INT_LIMIT - 1, hi) && !StaysWithin(requests, maxRpm, cfg)
  {
    hide Smooth;
    var low: Rpm := hi - INT_LIMIT - 1;
    var requests := [hi, low];
    assert requests[..1] == [hi] && [hi][..0] == [];
    FirstCall(hi, maxRpm, cfg);
    var s := Smoothing(false, cfg.smoothingIntervals, hi, cfg.topStickiness);
    assert MachineRun(FRESH, [hi], maxRpm, cfg) == Defined(Smoothed(s, hi));
    CallBetweenIff(s, low, maxRpm, cfg);
    assert Bounded(requests, low, hi);
  }

  /** Over every run from start-up the output lies between the least and the greatest request so far if and
      only if the requests cannot span more than 2^31, or increases are never gradual. */
  lemma {:induction false} StaysWithinIff(lo: Rpm, hi: Rpm, maxRpm: Rpm, cfg: Tuning)
    requires Sane(cfg) && lo <= hi < UINT_RANGE && maxRpm < UINT_RANGE
    ensures (forall requests :: requests != [] && Bounded(requests, lo, hi) ==> StaysWithin(requests, maxRpm, cfg))
       <==> hi - lo <= INT_LIMIT || cfg.smoothingIntervals == 1
  {
    hide StaysWithin;
    if hi - lo <= INT_LIMIT || cfg.smoothingIntervals == 1 {
      forall requests | requests != [] && Bounded(requests, lo, hi) ensures StaysWithin(requests, maxRpm, cfg) {
        SpanStays(requests, lo, hi, maxRpm, cfg);
      }
    } else {
      FarPairLeaves(hi, maxRpm, cfg);
      assert Bounded([hi, hi - INT_LIMIT - 1], lo, hi);
    }
  }

  /** The requests that a curve falling from 1200 RPM at 30 degrees to 800 at 50 makes at 40 and then at 60: on a
      3000 RPM fan the second call returns more than either. */
  lemma {:induction false} WrapsUpExample()
    ensures var r := MachineRun(FRESH, [2147484648, 800], 3000, Tuning(4, 4));
            r.Defined? && r.value.rpm == 2684355510
  {
    assert [2147484648, 800][..1] == [2147484648] && [2147484648][..0] == [];
    FirstCall(2147484648, 3000, Tuning(4, 4));
    assert MachineRun(FRESH, [2147484648], 3000, Tuning(4, 4))
        == Defined(Smoothed(Smoothing(false, 4, 2147484648, 4), 2147484648));
    FarLower(Smoothing(false, 4, 2147484648, 4), 800, 3000, Tuning(4, 4));
  }

  /** How many requests ask for less than `rpm`. */
  function Lower(requests: seq<Rpm>, rpm: Rpm): nat {
    if requests == [] then 0
    else Lower(requests[..|requests| - 1], rpm) + if requests[|requests| - 1] < rpm then 1 else 0
  }

  /** No request exceeds the target or is more than 2^31 below it. */
  ghost predicate BelowTarget(requests: seq<Rpm>, target: Rpm) {
    forall i :: 0 <= i < |requests| ==> target - INT_LIMIT <= requests[i] <= target
  }

  /** Then each lower request is absorbed until the stickiness is spent. */
  lemma {:induction false} Absorbed(s: Smoothing, requests: seq<Rpm>, maxRpm: Rpm, cfg: Tuning)
    requires Sane(cfg) && !s.justStarted && s.stickiness >= 0 && s.target < UINT_RANGE
    requires BelowTarget(requests, s.target) && Lower(requests, s.target) <= s.stickiness
    ensures MachineRun(s, requests, maxRpm, cfg) ==
            Defined(Smoothed(s.(stickiness := s.stickiness - Lower(requests, s.target)), s.target))
  {
    if requests != [] {
      var init, rpm := requests[..|requests| - 1], requests[|requests| - 1];
      Absorbed(s, init, maxRpm, cfg);
      SmoothIsStep(MachineRun(s, init, maxRpm, cfg).value.state, rpm, maxRpm, cfg);
    }
  }

  /** The first drop: after start-up or an increase, with no further increase in between, a lower
      request lowers the output exactly when `topStickiness` lower requests were absorbed before it. */
  lemma {:induction false} FirstDrop(s: Smoothing, start: Rpm, requests: seq<Rpm>, rpm: Rpm, maxRpm: Rpm, cfg: Tuning)
    requires Sane(cfg) && start != s.target && s.target < UINT_RANGE && start < UINT_RANGE
    requires s.justStarted || 0 < start - s.target < INT_LIMIT
    requires var top := Step(s, start, maxRpm, cfg).target;
             && top - INT_LIMIT <= rpm < top && BelowTarget(requests, top)
             && Lower(requests, top) <= cfg.topStickiness
    ensures var started := Smooth(s, start, maxRpm, cfg);
            && started.Defined? && started.value.rpm == Step(s, start, maxRpm, cfg).target
            && var top := started.value.rpm;
               var before := MachineRun(started.value.state, requests, maxRpm, cfg);
               && before.Defined? && before.value.rpm == top
               && var after := Smooth(before.value.state, rpm, maxRpm, cfg);
                  && after.Defined?
                  && (Lower(requests, top) == cfg.topStickiness ==> after.value.rpm == rpm)
                  && (Lower(requests, top) < cfg.topStickiness ==> after.value.rpm == top)
  {
    hide Smooth, BelowTarget;
    SmoothIsStep(s, start, maxRpm, cfg);
    var started := Step(s, start, maxRpm, cfg);
    assert !started.justStarted && started.stickiness == cfg.topStickiness;
    Absorbed(started, requests, maxRpm, cfg);
    SmoothIsStep(started.(stickiness := started.stickiness - Lower(requests, started.target)), rpm, maxRpm, cfg);
  }

  /** The state after `k` calls with the same request. */
  function Repeat(s: Smoothing, rpm: Rpm, maxRpm: Rpm, cfg: Tuning, k: nat): Smoothing
    requires Sane(cfg)
    decreases k
  {
    if k == 0 then s else Repeat(Step(s, rpm, maxRpm, cfg), rpm, maxRpm, cfg, k - 1)
  }

  /** A reached request stays reached. */
  lemma {:induction false} StaysReached(s: Smoothing, rpm: Rpm, maxRpm: Rpm, cfg: Tuning, k: nat)
    requires Sane(cfg) && s.target == rpm
    ensures Repeat(s, rpm, maxRpm, cfg, k) == s
    decreases k
  {
    if k > 0 {
      StaysReached(s, rpm, maxRpm, cfg, k - 1);
    }
  }

  lemma {:induction false} StepsLower(s: Smoothing, rpm: Rpm, maxRpm: Rpm, cfg: Tuning, k: nat)
    requires Sane(cfg) && !s.justStarted && rpm < s.target && s.stickiness >= 0
    ensures Repeat(s, rpm, maxRpm, cfg, k).target == if k <= s.stickiness then s.target else rpm
    decreases k
  {
    if k > 0 {
      var t := Step(s, rpm, maxRpm, cfg);
      if s.stickiness > 0 {
        StepsLower(t, rpm, maxRpm, cfg, k - 1);
      } else {
        StaysReached(t, rpm, maxRpm, cfg, k - 1);
      }
    }
  }

  lemma {:induction false} StepsClimb(s: Smoothing, rpm: Rpm, maxRpm: Rpm, cfg: Tuning, k: nat)
    requires Sane(cfg) && !s.justStarted && s.target <= rpm
    ensures var t := Repeat(s, rpm, maxRpm, cfg, k);
            s.target <= t.target <= Repeat(s, rpm, maxRpm, cfg, k + 1).target <= rpm && !t.justStarted
    decreases k
  {
    Quotient(rpm - s.target, cfg.smoothingIntervals);
    var t := Step(s, rpm, maxRpm, cfg);
    if k > 0 {
      StepsClimb(t, rpm, maxRpm, cfg, k - 1);
    } else {
      assert Repeat(s, rpm, maxRpm, cfg, 1) == Repeat(t, rpm, maxRpm, cfg, 0);
    }
  }

  /** The guard deciding whether a climb over `gap` ends: the last gap that the integer division still
      shrinks leads to `smoothingIntervals - 1`, which must count as a minor change. */
  predicate Closes(gap: nat, maxRpm: Rpm, cfg: Tuning) {
    gap == 0 || cfg.smoothingIntervals == 1 || Minor(Min(gap, cfg.smoothingIntervals - 1), maxRpm)
  }

  /** One step of a climb keeps the guard as it is, and shrinks a gap that closes. */
  lemma {:induction false} ClimbStep(s: Smoothing, rpm: Rpm, maxRpm: Rpm, cfg: Tuning)
    requires Sane(cfg) && !s.justStarted && s.target < rpm
    ensures var t := Step(s, rpm, maxRpm, cfg);
            && !t.justStarted && t.target <= rpm
            && (Closes(rpm - s.target, maxRpm, cfg) ==> s.target < t.target && Closes(rpm - t.target, maxRpm, cfg))
            && (!Closes(rpm - s.target, maxRpm, cfg) ==> t.target < rpm && !Closes(rpm - t.target, maxRpm, cfg))
  {
    Quotient(rpm - s.target, cfg.smoothingIntervals);
  }

  lemma {:induction false} RepeatAdds(s: Smoothing, rpm: Rpm, maxRpm: Rpm, cfg: Tuning, j: nat, k: nat)
    requires Sane(cfg)
    ensures Repeat(s, rpm, maxRpm, cfg, j + k) == Repeat(Repeat(s, rpm, maxRpm, cfg, j), rpm, maxRpm, cfg, k)
    decreases j
  {
    if j > 0 {
      RepeatAdds(Step(s, rpm, maxRpm, cfg), rpm, maxRpm, cfg, j - 1, k);
    }
  }

  lemma {:induction false} ClosingGapIsReached(s: Smoothing, rpm: Rpm, maxRpm: Rpm, cfg: Tuning)
    requires Sane(cfg) && !s.justStarted && s.target <= rpm && Closes(rpm - s.target, maxRpm, cfg)
    ensures Repeat(s, rpm, maxRpm, cfg, rpm - s.target).target == rpm
    decreases rpm - s.target
  {
    if s.target < rpm {
      ClimbStep(s, rpm, maxRpm, cfg);
      var t := Step(s, rpm, maxRpm, cfg);
      ClosingGapIsReached(t, rpm, maxRpm, cfg);
      RepeatAdds(t, rpm, maxRpm, cfg, rpm - t.target, t.target - s.target - 1);
      StaysReached(Repeat(t, rpm, maxRpm, cfg, rpm - t.target), rpm, maxRpm, cfg, t.target - s.target - 1);
    }
  }

  lemma {:induction false} OpenGapIsNeverReached(s: Smoothing, rpm: Rpm, maxRpm: Rpm, cfg: Tuning, k: nat)
    requires Sane(cfg) && !s.justStarted && s.target < rpm && !Closes(rpm - s.target, maxRpm, cfg)
    ensures Repeat(s, rpm, maxRpm, cfg, k).target < rpm
    decreases k
  {
    if k > 0 {
      ClimbStep(s, rpm, maxRpm, cfg);
      OpenGapIsNeverReached(Step(s, rpm, maxRpm, cfg), rpm, maxRpm, cfg, k - 1);
    }
  }

  /** Repeated steps arrive if and only if the gap closes. */
  lemma {:induction false} StepsReachIff(s: Smoothing, rpm: Rpm, maxRpm: Rpm, cfg: Tuning)
    requires Sane(cfg) && !s.justStarted && s.target <= rpm
    ensures (exists k: nat :: Repeat(s, rpm, maxRpm, cfg, k).target == rpm) <==> Closes(rpm - s.target, maxRpm, cfg)
  {
    if Closes(rpm - s.target, maxRpm, cfg) {
      ClosingGapIsReached(s, rpm, maxRpm, cfg);
    } else {
      forall k: nat ensures Repeat(s, rpm, maxRpm, cfg, k).target < rpm {
        OpenGapIsNeverReached(s, rpm, maxRpm, cfg, k);
      }
    }
  }

  /** The smallest major change, a tenth of the top RPM rounded up. */
  function Threshold(maxRpm: Rpm): nat {
    (maxRpm + 9) / 10
  }

  /** The least progress of a major step. */
  function Stride(maxRpm: Rpm, cfg: Tuning): nat
    requires Sane(cfg)
  {
    Threshold(maxRpm) / cfg.smoothingIntervals
  }

  lemma {:induction false} MajorStep(gap: nat, maxRpm: Rpm, cfg: Tuning)
    requires Sane(cfg) && Stride(maxRpm, cfg) >= 1 && gap > 0 && !Minor(gap, maxRpm)
    ensures Stride(maxRpm, cfg) <= gap / cfg.smoothingIntervals <= gap
    ensures (gap - gap / cfg.smoothingIntervals) / Stride(maxRpm, cfg) + 1 <= gap / Stride(maxRpm, cfg)
  {
    Quotient(gap, cfg.smoothingIntervals);
    DivMonotone(Threshold(maxRpm), gap, cfg.smoothingIntervals);
    DivStep(gap, gap / cfg.smoothingIntervals, Stride(maxRpm, cfg));
  }

  /** The bound on a climb. */
  lemma {:induction false} StepsBound(s: Smoothing, rpm: Rpm, maxRpm: Rpm, cfg: Tuning, k: nat)
    requires Sane(cfg) && !s.justStarted && s.target <= rpm
    requires Stride(maxRpm, cfg) >= 1
    requires k >= (rpm - s.target) / Stride(maxRpm, cfg) + 1
    ensures Repeat(s, rpm, maxRpm, cfg, k).target == rpm
    decreases k
  {
    var t := Step(s, rpm, maxRpm, cfg);
    var gap := rpm - s.target;
    if gap == 0 {
      StaysReached(s, rpm, maxRpm, cfg, k);
    } else if Minor(gap, maxRpm) {
      StaysReached(t, rpm, maxRpm, cfg, k - 1);
    } else {
      MajorStep(gap, maxRpm, cfg);
      StepsBound(t, rpm, maxRpm, cfg, k - 1);
    }
  }

  /** A stride of at least one RPM is exactly a top speed above ten times one less than the smoothing
      intervals, in particular any top speed of ten times the intervals; then every gap closes. */
  lemma {:induction false} StrideIff(maxRpm: Rpm, cfg: Tuning)
    requires Sane(cfg)
    ensures Stride(maxRpm, cfg) >= 1 <==> 10 * (cfg.smoothingIntervals - 1) < maxRpm
    ensures Stride(maxRpm, cfg) >= 1 ==> forall gap: nat :: Closes(gap, maxRpm, cfg)
  {
    DivAtLeast(Threshold(maxRpm), cfg.smoothingIntervals, 1);
  }

  /** The state after `k` calls with the same request, through the machine computation. */
  function MachineRepeat(s: Smoothing, rpm: Rpm, maxRpm: Rpm, cfg: Tuning, k: nat): Outcome<Smoothing>
    decreases k
  {
    if k == 0 then Defined(s)
    else
      match Smooth(s, rpm, maxRpm, cfg)
      case Defined(r) => MachineRepeat(r.state, rpm, maxRpm, cfg, k - 1)
      case _ => Undefined
  }

  /** Calls with a near request, or from start-up, are steps. */
  lemma {:induction false} RepeatIsMachine(s: Smoothing, rpm: Rpm, maxRpm: Rpm, cfg: Tuning, k: nat)
    requires Sane(cfg) && s.target < UINT_RANGE && rpm < UINT_RANGE && (s.justStarted || Near(s.target, rpm))
    ensures MachineRepeat(s, rpm, maxRpm, cfg, k) == Defined(Repeat(s, rpm, maxRpm, cfg, k))
    decreases k
  {
    hide Step, Smooth;
    if k > 0 {
      SmoothIsStep(s, rpm, maxRpm, cfg);
      StepStarts(s, rpm, maxRpm, cfg);
      RepeatIsMachine(Step(s, rpm, maxRpm, cfg), rpm, maxRpm, cfg, k - 1);
    }
  }

  /** Repeating the request leaves this target after `k` calls. */
  predicate Targets(s: Smoothing, rpm: Rpm, maxRpm: Rpm, cfg: Tuning, k: nat, target: Rpm) {
    var r := MachineRepeat(s, rpm, maxRpm, cfg, k);
    r.Defined? && r.value.target == target
  }

  /** The request, once it is the target, stays it. */
  lemma {:induction false} Reached(s: Smoothing, rpm: Rpm, maxRpm: Rpm, cfg: Tuning, k: nat)
    requires Sane(cfg) && s.target == rpm < UINT_RANGE
    ensures MachineRepeat(s, rpm, maxRpm, cfg, k) == Defined(s)
  {
    RepeatIsMachine(s, rpm, maxRpm, cfg, k);
    StaysReached(s, rpm, maxRpm, cfg, k);
  }

  /** A wrapped increase too small to move the target leaves it where it is for ever. */
  lemma {:induction false} Frozen(s: Smoothing, rpm: Rpm, maxRpm: Rpm, cfg: Tuning, k: nat)
    requires Sane(cfg) && !s.justStarted && s.target < UINT_RANGE && s.target - rpm > INT_LIMIT
    requires var d := rpm - s.target + UINT_RANGE; !Minor(d, maxRpm) && d < cfg.smoothingIntervals
    ensures Targets(s, rpm, maxRpm, cfg, k, s.target)
    decreases k
  {
    hide Smooth, Minor;
    if k > 0 {
      FarLower(s, rpm, maxRpm, cfg);
      WrappedTarget(s.target, rpm, cfg.smoothingIntervals);
      Frozen(Smooth(s, rpm, maxRpm, cfg).value.state, rpm, maxRpm, cfg, k - 1);
    }
  }

  /** After `k` calls the lower request has been held for the remaining stickiness, or reached. */
  predicate HeldThenReached(s: Smoothing, rpm: Rpm, maxRpm: Rpm, cfg: Tuning, k: nat) {
    Targets(s, rpm, maxRpm, cfg, k, if k <= s.stickiness then s.target else rpm)
  }

  lemma {:induction false} NearLower(s: Smoothing, rpm: Rpm, maxRpm: Rpm, cfg: Tuning, k: nat)
    requires Sane(cfg) && !s.justStarted && rpm < s.target < UINT_RANGE && s.stickiness >= 0
    requires s.target - rpm <= INT_LIMIT
    ensures HeldThenReached(s, rpm, maxRpm, cfg, k)
  {
    RepeatIsMachine(s, rpm, maxRpm, cfg, k);
    StepsLower(s, rpm, maxRpm, cfg, k);
  }

  lemma {:induction false} FarLowerOnce(s: Smoothing, rpm: Rpm, maxRpm: Rpm, cfg: Tuning, k: nat)
    requires Sane(cfg) && !s.justStarted && s.target < UINT_RANGE && s.target - rpm > INT_LIMIT
    requires Minor(rpm - s.target + UINT_RANGE, maxRpm) || cfg.smoothingIntervals == 1
    ensures k > 0 ==> Targets(s, rpm, maxRpm, cfg, k, rpm)
  {
    hide Smooth, Minor;
    if k > 0 {
      FarLower(s, rpm, maxRpm, cfg);
      WrappedTarget(s.target, rpm, cfg.smoothingIntervals);
      Reached(Smooth(s, rpm, maxRpm, cfg).value.state, rpm, maxRpm, cfg, k - 1);
    }
  }

  lemma {:induction false} NoCall(s: Smoothing, rpm: Rpm, maxRpm: Rpm, cfg: Tuning)
    ensures MachineRepeat(s, rpm, maxRpm, cfg, 0) == Defined(s)
  {
  }

  lemma {:induction false} OneCall(s: Smoothing, rpm: Rpm, maxRpm: Rpm, cfg: Tuning)
    requires Smooth(s, rpm, maxRpm, cfg).Defined?
    ensures MachineRepeat(s, rpm, maxRpm, cfg, 1) == Defined(Smooth(s, rpm, maxRpm, cfg).value.state)
  {
    var t := Smooth(s, rpm, maxRpm, cfg).value.state;
    assert MachineRepeat(s, rpm, maxRpm, cfg, 1) == MachineRepeat(t, rpm, maxRpm, cfg, 0);
  }

  /** Repeating one lower request holds the output for exactly the remaining stickiness, drops to the request on
      the next call and stays there, if and only if it is at most 2^31 below, or nothing is left to hold and the
      wrapped increase is granted in one call. */
  lemma {:induction false} LowerRequestIff(s: Smoothing, rpm: Rpm, maxRpm: Rpm, cfg: Tuning)
    requires Sane(cfg) && !s.justStarted && rpm < s.target < UINT_RANGE && s.stickiness >= 0
    ensures (forall k: nat :: HeldThenReached(s, rpm, maxRpm, cfg, k))
       <==> s.target - rpm <= INT_LIMIT
            || (s.stickiness == 0
                && (Minor(rpm - s.target + UINT_RANGE, maxRpm) || cfg.smoothingIntervals == 1))
  {
    hide Smooth, Minor, MachineRepeat;
    var once := Minor(rpm - s.target + UINT_RANGE, maxRpm) || cfg.smoothingIntervals == 1;
    if s.target - rpm <= INT_LIMIT {
      forall k: nat ensures HeldThenReached(s, rpm, maxRpm, cfg, k) {
        NearLower(s, rpm, maxRpm, cfg, k);
      }
    } else if once {
      forall k: nat ensures s.stickiness == 0 ==> HeldThenReached(s, rpm, maxRpm, cfg, k) {
        FarLowerOnce(s, rpm, maxRpm, cfg, k);
        NoCall(s, rpm, maxRpm, cfg);
      }
      FarLowerOnce(s, rpm, maxRpm, cfg, 1);
      assert s.stickiness > 0 ==> !HeldThenReached(s, rpm, maxRpm, cfg, 1);
    } else if rpm - s.target + UINT_RANGE < cfg.smoothingIntervals {
      Frozen(s, rpm, maxRpm, cfg, s.stickiness + 1);
      assert !HeldThenReached(s, rpm, maxRpm, cfg, s.stickiness + 1);
    } else {
      FarLower(s, rpm, maxRpm, cfg);
      WrappedTarget(s.target, rpm, cfg.smoothingIntervals);
      OneCall(s, rpm, maxRpm, cfg);
      assert !HeldThenReached(s, rpm, maxRpm, cfg, 1);
    }
  }

  /** Repeating a request 2^31 or more above the target holds the output while sticky, then grants it in full. */
  lemma {:induction false} FarHigherRepeats(s: Smoothing, rpm: Rpm, maxRpm: Rpm, cfg: Tuning, k: nat)
    requires Sane(cfg) && !s.justStarted && rpm < UINT_RANGE && rpm - s.target >= INT_LIMIT
    ensures Targets(s, rpm, maxRpm, cfg, k, if k == 0 || k <= s.stickiness then s.target else rpm)
    decreases k
  {
    hide Smooth;
    if k > 0 {
      FarHigher(s, rpm, maxRpm, cfg);
      if s.stickiness > 0 {
        FarHigherRepeats(s.(stickiness := s.stickiness - 1), rpm, maxRpm, cfg, k - 1);
      } else {
        Reached(s.(target := rpm), rpm, maxRpm, cfg, k - 1);
      }
    }
  }

  /** Repeating one higher request, however far above, never overshoots it and never lowers the output. */
  lemma {:induction false} HigherRequestClimbs(s: Smoothing, rpm: Rpm, maxRpm: Rpm, cfg: Tuning, k: nat)
    requires Sane(cfg) && !s.justStarted && s.target <= rpm < UINT_RANGE
    ensures var t := MachineRepeat(s, rpm, maxRpm, cfg, k);
            var u := MachineRepeat(s, rpm, maxRpm, cfg, k + 1);
            t.Defined? && u.Defined? && s.target <= t.value.target <= u.value.target <= rpm
  {
    hide MachineRepeat, Repeat;
    if rpm - s.target >= INT_LIMIT {
      FarHigherRepeats(s, rpm, maxRpm, cfg, k);
      FarHigherRepeats(s, rpm, maxRpm, cfg, k + 1);
    } else {
      RepeatIsMachine(s, rpm, maxRpm, cfg, k);
      RepeatIsMachine(s, rpm, maxRpm, cfg, k + 1);
      StepsClimb(s, rpm, maxRpm, cfg, k);
    }
  }

  /** Smoothing does not always arrive: a repeated higher request is eventually reached if and only if its gap
      closes, or is so wide that it wraps to a decrease. */
  lemma {:induction false} HigherRequestReachedIff(s: Smoothing, rpm: Rpm, maxRpm: Rpm, cfg: Tuning)
    requires Sane(cfg) && !s.justStarted && s.target <= rpm < UINT_RANGE
    ensures (exists k: nat :: Targets(s, rpm, maxRpm, cfg, k, rpm))
       <==> rpm - s.target >= INT_LIMIT || Closes(rpm - s.target, maxRpm, cfg)
  {
    hide MachineRepeat, Repeat, Closes;
    if rpm - s.target >= INT_LIMIT {
      var k: nat := if s.stickiness > 0 then s.stickiness + 1 else 1;
      FarHigherRepeats(s, rpm, maxRpm, cfg, k);
      assert Targets(s, rpm, maxRpm, cfg, k, rpm);
    } else {
      StepsReachIff(s, rpm, maxRpm, cfg);
      if k: nat :| Targets(s, rpm, maxRpm, cfg, k, rpm) {
        RepeatIsMachine(s, rpm, maxRpm, cfg, k);
      }
      if k: nat :| Repeat(s, rpm, maxRpm, cfg, k).target == rpm {
        RepeatIsMachine(s, rpm, maxRpm, cfg, k);
        assert Targets(s, rpm, maxRpm, cfg, k, rpm);
      }
    }
  }

  /** A fan whose top speed is 20 RPM never leaves 0 for 2 RPM under four smoothing intervals. */
  lemma {:induction false} StuckExample(k: nat)
    ensures !Targets(Smoothing(false, 0, 0, 0), 2, 20, Tuning(4, 4), k, 2)
  {
    RepeatIsMachine(Smoothing(false, 0, 0, 0), 2, 20, Tuning(4, 4), k);
    OpenGapIsNeverReached(Smoothing(false, 0, 0, 0), 2, 20, Tuning(4, 4), k);
  }

  /** The bound on a climb: when a major step moves at least one RPM, a higher request is reached within
      floor(gap / stride) + 1 calls and held from then on; one that wraps to a decrease, within the remaining
      stickiness and one call. */
  lemma {:induction false} HigherRequestBound(s: Smoothing, rpm: Rpm, maxRpm: Rpm, cfg: Tuning, k: nat)
    requires Sane(cfg) && !s.justStarted && s.target <= rpm < UINT_RANGE
    requires Stride(maxRpm, cfg) >= 1
    requires if rpm - s.target < INT_LIMIT then k >= (rpm - s.target) / Stride(maxRpm, cfg) + 1
             else k > 0 && k > s.stickiness
    ensures Targets(s, rpm, maxRpm, cfg, k, rpm)
  {
    hide MachineRepeat, Repeat;
    if rpm - s.target < INT_LIMIT {
      RepeatIsMachine(s, rpm, maxRpm, cfg, k);
      StepsBound(s, rpm, maxRpm, cfg, k);
    } else {
      FarHigherRepeats(s, rpm, maxRpm, cfg, k);
    }
  }

  lemma {:induction false} MonotoneStep(s: Smoothing, low: Rpm, high: Rpm, maxRpm: Rpm, cfg: Tuning)
    requires Sane(cfg) && !s.justStarted && low <= high
    requires Threshold(maxRpm) <= Stride(maxRpm, cfg) + 1
    ensures Step(s, low, maxRpm, cfg).target <= Step(s, high, maxRpm, cfg).target
  {
    if s.target < high {
      var n := cfg.smoothingIntervals;
      Quotient(high - s.target, n);
      if s.target < low {
        DivMonotone(low - s.target, high - s.target, n);
        Quotient(low - s.target, n);
      }
      if !Minor(high - s.target, maxRpm) {
        DivMonotone(Threshold(maxRpm), high - s.target, n);
      }
    }
  }

  lemma {:induction false} ThresholdSteps(maxRpm: Rpm, cfg: Tuning)
    requires Sane(cfg) && Threshold(maxRpm) > Stride(maxRpm, cfg) + 1
    ensures var t := Threshold(maxRpm);
            var s := Smoothing(false, 0, 0, 0);
            Step(s, t - 1, maxRpm, cfg).target == t - 1 && Step(s, t, maxRpm, cfg).target == Stride(maxRpm, cfg)
  {
  }

  /** From one state, asking for more never yields less: false of the code, because a minor increase is
      granted in full and a major one only in part. It holds for every pair of requests exactly when the
      least major step is no shorter than the greatest minor one. */
  lemma {:induction false} MonotoneStepIff(maxRpm: Rpm, cfg: Tuning)
    requires Sane(cfg)
    ensures (forall s: Smoothing, low: Rpm, high: Rpm ::
               !s.justStarted && low <= high ==> Step(s, low, maxRpm, cfg).target <= Step(s, high, maxRpm, cfg).target)
       <==> Threshold(maxRpm) <= Stride(maxRpm, cfg) + 1
  {
    var t := Threshold(maxRpm);
    if t > Stride(maxRpm, cfg) + 1 {
      var s := Smoothing(false, 0, 0, 0);
      ThresholdSteps(maxRpm, cfg);
      assert Step(s, t, maxRpm, cfg).target < Step(s, t - 1, maxRpm, cfg).target;
    } else {
      forall s: Smoothing, low: Rpm, high: Rpm | !s.justStarted && low <= high
        ensures Step(s, low, maxRpm, cfg).target <= Step(s, high, maxRpm, cfg).target
      {
        MonotoneStep(s, low, high, maxRpm, cfg);
      }
    }
  }

  /** The RPM a call returns. */
  function OutputOf(s: Smoothing, rpm: Rpm, maxRpm: Rpm, cfg: Tuning): int {
    match Smooth(s, rpm, maxRpm, cfg)
    case Defined(r) => r.rpm
    case _ => -1
  }

  /** The same of the machine computation, for values an int holds. */
  lemma {:induction false} MonotoneCallIff(maxRpm: Rpm, cfg: Tuning)
    requires Sane(cfg) && maxRpm < UINT_RANGE
    ensures (forall s: Smoothing, low: Rpm, high: Rpm ::
               !s.justStarted && InRange(s.target) && low <= high && InRange(high) ==>
                 OutputOf(s, low, maxRpm, cfg) <= OutputOf(s, high, maxRpm, cfg))
       <==> Threshold(maxRpm) <= Stride(maxRpm, cfg) + 1
  {
    hide Smooth, Step;
    var t := Threshold(maxRpm);
    if t > Stride(maxRpm, cfg) + 1 {
      var s := Smoothing(false, 0, 0, 0);
      SmoothIsStep(s, t - 1, maxRpm, cfg);
      SmoothIsStep(s, t, maxRpm, cfg);
      ThresholdSteps(maxRpm, cfg);
      assert OutputOf(s, t, maxRpm, cfg) < OutputOf(s, t - 1, maxRpm, cfg);
    } else {
      forall s: Smoothing, low: Rpm, high: Rpm | !s.justStarted && InRange(s.target) && low <= high && InRange(high)
        ensures OutputOf(s, low, maxRpm, cfg) <= OutputOf(s, high, maxRpm, cfg)
      {
        SmoothIsStep(s, low, maxRpm, cfg);
        SmoothIsStep(s, high, maxRpm, cfg);
        MonotoneStep(s, low, high, maxRpm, cfg);
      }
    }
  }

  /** The defaults do not satisfy it: on a 3000 RPM fan at 1000 RPM, asking for 1299 gives 1299 and
      asking for 1300 gives 1075. */
  lemma {:induction false} MonotoneStepExample()
    ensures Step(Smoothing(false, 0, 1000, 4), 1299, 3000, Tuning(4, 4)).target == 1299
    ensures Step(Smoothing(false, 0, 1000, 4), 1300, 3000, Tuning(4, 4)).target == 1075
  {
  }
}
