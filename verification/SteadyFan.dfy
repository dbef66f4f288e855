/** The test of a steady fan: every write up to some limit succeeds and the PWM holds, the driver refuses the
    rest, and the RPM is a fixed function of the PWM. When such a test completes, what it measures, and the
    calibration it leaves. */
module SteadyFan {
  import opened Basics
  import opened Tables
  import opened Calibration
  import opened FanTest

  /** The RPM a fan turns at under each PWM, and the first PWM its driver refuses. */
  datatype Fan = Fan(speed: Pwm -> Rpm, limit: nat)

  /** Every driver takes 0..255, and no unsigned PWM reaches 2^32. */
  type Driven = f: Fan | PWM_MAX < f.limit <= UINT_RANGE witness Fan(_ => 0, 256)

  function AnswerAt(f: Driven, target: Pwm): Answer {
    Answer(target < f.limit, target, f.speed(target))
  }

  /** The answers one attempt takes: five to a steady reading, one to a refused write. */
  function Cost(f: Driven, target: Pwm): nat {
    if target < f.limit then 5 else 1
  }

  function CostAll(f: Driven, targets: seq<Pwm>): nat {
    if targets == [] then 0 else Cost(f, targets[0]) + CostAll(f, targets[1..])
  }

  /** From position `i` on the trace answers as the fan does while it is set to the targets in turn. */
  ghost predicate Hears(trace: Trace, i: nat, f: Driven, targets: seq<Pwm>)
    decreases |targets|
  {
    if targets == [] then i <= |trace|
    else
      && i + Cost(f, targets[0]) <= |trace|
      && (forall j :: i <= j < i + Cost(f, targets[0]) ==> trace[j] == AnswerAt(f, targets[0]))
      && Hears(trace, i + Cost(f, targets[0]), f, targets[1..])
  }

  lemma {:induction false} Stabilises(trace: Trace, i: nat, f: Driven, targets: seq<Pwm>)
    requires targets != [] && Hears(trace, i, f, targets)
    ensures SetStabilised(trace, i, targets[0]) ==
            Done(i + Cost(f, targets[0]), if targets[0] < f.limit then Some(f.speed(targets[0])) else None)
    ensures Hears(trace, i + Cost(f, targets[0]), f, targets[1..])
  {
    assert trace[i] == AnswerAt(f, targets[0]);
    if targets[0] < f.limit {
      WatchConstant(trace, i + 1, targets[0], 0, f.speed(targets[0]));
    }
  }

  /** The PWM the fan is found to start at: the first even one, from `2 * a` on, under which it turns, or 254. */
  function StartPwm(f: Driven, a: nat): (s: Pwm)
    requires a <= 127
    ensures 2 * a <= s <= 254 && s % 2 == 0
    decreases 127 - a
  {
    if a == 127 || f.speed(2 * a) > 0 then 2 * a else StartPwm(f, a + 1)
  }

  lemma {:induction false} StartPwmIs(f: Driven, a: nat, p: Pwm)
    requires a <= 127
    ensures 2 * a <= p < StartPwm(f, a) && p % 2 == 0 ==> f.speed(p) == 0
    ensures f.speed(StartPwm(f, a)) > 0 || StartPwm(f, a) == 254
    decreases 127 - a
  {
    if a < 127 && f.speed(2 * a) == 0 {
      StartPwmIs(f, a + 1, p);
    }
  }

  /** The targets of the search for it. */
  function Ups(f: Driven, a: nat): seq<Pwm>
    requires a <= 127
    decreases 127 - a
  {
    [2 * a] + if a == 127 || f.speed(2 * a) > 0 then [] else Ups(f, a + 1)
  }

  /** The search ends at it. */
  lemma {:induction false} Starts(trace: Trace, i: nat, f: Driven, a: nat)
    requires a <= 127 && Hears(trace, i, f, Ups(f, a))
    ensures FindStart(trace, i, 2 * a, Some(0)) == Done(i + CostAll(f, Ups(f, a)), Some(f.speed(StartPwm(f, a))))
    decreases 127 - a
  {
    hide SetStabilised, Hears;
    Stabilises(trace, i, f, Ups(f, a));
    if a < 127 && f.speed(2 * a) == 0 {
      assert Ups(f, a)[1..] == Ups(f, a + 1);
      Starts(trace, i + 5, f, a + 1);
    } else {
      assert Ups(f, a)[1..] == [];
    }
  }

  /** The driver takes the target, and the fan stands still under it. */
  predicate Still(f: Driven, target: Pwm) {
    target < f.limit && f.speed(target) == 0
  }

  /** Whether one of the first `n` targets of the slowing phase, from `target` on, stands the fan still. */
  predicate Stops(f: Driven, target: Pwm, n: nat)
    decreases n
  {
    n > 0 && (Still(f, target) || Stops(f, AsUint(target - 2), n - 1))
  }

  /** The targets of the slowing phase up to the first of those, at most `n`. */
  function Downs(f: Driven, target: Pwm, n: nat): seq<Pwm>
    decreases n
  {
    if n == 0 then []
    else [target] + if Still(f, target) then [] else Downs(f, AsUint(target - 2), n - 1)
  }

  /** The results it collects. */
  function Results(f: Driven, target: Pwm, n: nat): seq<Entry>
    decreases n
  {
    if n == 0 || Still(f, target) then []
    else
      (if target < f.limit then [Entry(target, f.speed(target))] else []) + Results(f, AsUint(target - 2), n - 1)
  }

  lemma {:induction false} NoAnswer(trace: Trace, i: nat, target: Pwm, results: seq<Entry>)
    requires i >= |trace|
    ensures Slowing(trace, i, target, results) == Unfinished
  {
  }

  /** The slowing phase ends with the standstill; without one it consumes every answer. */
  lemma {:induction false} Slows(trace: Trace, i: nat, f: Driven, target: Pwm, n: nat, results: seq<Entry>)
    requires Hears(trace, i, f, Downs(f, target, n))
    ensures Stops(f, target, n) ==>
              Slowing(trace, i, target, results) ==
              Done(i + CostAll(f, Downs(f, target, n)), results + Results(f, target, n))
    ensures !Stops(f, target, n) && |trace| == i + CostAll(f, Downs(f, target, n)) ==>
              Slowing(trace, i, target, results) == Unfinished
    decreases n
  {
    hide SetStabilised, Hears, Cost;
    if n > 0 {
      var next := AsUint(target - 2);
      Stabilises(trace, i, f, Downs(f, target, n));
      if Still(f, target) {
        assert results + [] == results;
        assert Downs(f, target, n)[1..] == [];
      } else {
        assert Downs(f, target, n)[1..] == Downs(f, next, n - 1);
        var noted := if target < f.limit then [Entry(target, f.speed(target))] else [];
        Slows(trace, i + Cost(f, target), f, next, n - 1, results + noted);
        assert (results + noted) + Results(f, next, n - 1) == results + Results(f, target, n);
        assert results + [] == results;
      }
    } else if i >= |trace| {
      NoAnswer(trace, i, target, results);
    }
  }

  /** The targets of the mapping phase. */
  function Maps(target: Pwm): seq<Pwm>
    decreases PWM_MAX + 1 - target
  {
    if target > PWM_MAX then [] else [target] + Maps(NextTarget(target))
  }

  /** The table after recording the fan's RPM at each target. */
  function Recorded(t: Table, f: Driven, targets: seq<Pwm>): Table
    decreases |targets|
  {
    if targets == [] then t else Recorded(Put(t, targets[0], f.speed(targets[0])), f, targets[1..])
  }

  /** The mapping phase records every target. */
  lemma {:induction false} MapsAll(trace: Trace, i: nat, f: Driven, target: Pwm, t: Table)
    requires Hears(trace, i, f, Maps(target))
    ensures Mapping(trace, i, target, t) == Done(i + CostAll(f, Maps(target)), Recorded(t, f, Maps(target)))
    decreases PWM_MAX + 1 - target
  {
    hide SetStabilised, Put, Hears;
    if target <= PWM_MAX {
      Stabilises(trace, i, f, Maps(target));
      assert Maps(target)[1..] == Maps(NextTarget(target));
      MapsAll(trace, i + 5, f, NextTarget(target), Put(t, target, f.speed(target)));
    }
  }

  /** What is measured up to the mapping phase: the standstill, the start, and all but the last two results of
      the slowing phase. */
  function Slowest(f: Driven, n: nat): Table {
    var start := StartPwm(f, 0);
    var results := Results(f, start, n);
    PutAll(Put(Put([], PWM_MIN, f.speed(PWM_MIN)), start, f.speed(start)),
           results[..if |results| > 2 then |results| - 2 else 0])
  }

  /** The whole measurement. */
  function Measured(f: Driven, n: nat): Table {
    Recorded(Slowest(f, n), f, Maps(FirstTarget(StartPwm(f, 0))))
  }

  /** The position after the search for the start PWM, in a test that has control from position `c` on. */
  function AfterStart(c: nat, f: Driven): nat {
    c + 7 + CostAll(f, Ups(f, 0))
  }

  function AfterSlowing(c: nat, f: Driven, n: nat): nat {
    AfterStart(c, f) + CostAll(f, Downs(f, StartPwm(f, 0), n))
  }

  /** Control is taken by position `c`, and from there on the trace answers as the fan does, the slowing phase
      getting at most `n` targets. */
  ghost predicate Tested(trace: Trace, c: nat, f: Driven, n: nat) {
    var start := StartPwm(f, 0);
    && TakeControl(trace, 0) == Done(c, true)
    && Hears(trace, c, f, [PWM_MIN]) && c + 5 < |trace| && trace[c + 5] == AnswerAt(f, PWM_MIN)
    && Hears(trace, c + 6, f, Ups(f, 0))
    && AfterStart(c, f) <= |trace| && trace[AfterStart(c, f) - 1] == AnswerAt(f, start)
    && Hears(trace, AfterStart(c, f), f, Downs(f, start, n))
    && if Stops(f, start, n) then Hears(trace, AfterSlowing(c, f, n), f, Maps(FirstTarget(start)))
       else |trace| == AfterSlowing(c, f, n)
  }

  lemma {:induction false} TestsHead(trace: Trace, c: nat, f: Driven, n: nat)
    requires Tested(trace, c, f, n)
    ensures var start := StartPwm(f, 0);
            && TestStopped(trace, c) == Done(c + 6, Put([], PWM_MIN, f.speed(PWM_MIN)))
            && TestStart(trace, c + 6, Put([], PWM_MIN, f.speed(PWM_MIN))) ==
               Done(AfterStart(c, f), Findings(Put(Put([], PWM_MIN, f.speed(PWM_MIN)), start, f.speed(start)), start))
  {
    hide SetStabilised, FindStart, Put, Hears, Ups, StartPwm, Downs, Maps, TakeControl;
    Stabilises(trace, c, f, [PWM_MIN]);
    Starts(trace, c + 6, f, 0);
  }

  lemma {:induction false} TestsTail(trace: Trace, c: nat, f: Driven, n: nat)
    requires Tested(trace, c, f, n)
    ensures var start := StartPwm(f, 0);
            var r := TestRunningMin(trace, AfterStart(c, f),
                Findings(Put(Put([], PWM_MIN, f.speed(PWM_MIN)), start, f.speed(start)), start));
            if Stops(f, start, n) then
              && r == Done(AfterSlowing(c, f, n), Findings(Slowest(f, n), start))
              && Mapping(trace, AfterSlowing(c, f, n), FirstTarget(start), Slowest(f, n)) ==
                 Done(AfterSlowing(c, f, n) + CostAll(f, Maps(FirstTarget(start))), Measured(f, n))
            else r == Unfinished
  {
    hide Slowing, Put, PutAll, Hears, Ups, StartPwm, Downs, Maps, TakeControl, Results, Recorded, Mapping, Stops;
    var start := StartPwm(f, 0);
    Slows(trace, AfterStart(c, f), f, start, n, []);
    assert [] + Results(f, start, n) == Results(f, start, n);
    if Stops(f, start, n) {
      MapsAll(trace, AfterSlowing(c, f, n), f, FirstTarget(start), Slowest(f, n));
    }
  }

  /** The test of a steady fan: it completes, with its start PWM and what was measured, once a target of the
      slowing phase stands the fan still; until then it is unfinished. */
  lemma {:induction false} SteadyTest(trace: Trace, c: nat, f: Driven, n: nat)
    requires Tested(trace, c, f, n)
    ensures var start := StartPwm(f, 0);
            Test(trace) ==
            if Stops(f, start, n) then
              Done(AfterSlowing(c, f, n) + CostAll(f, Maps(FirstTarget(start))), Some(Findings(Measured(f, n), start)))
            else Unfinished
  {
    hide Put, Hears, StartPwm, Maps, Measured, Slowest, AfterStart, AfterSlowing, Stops, TakeControl, TestStopped,
      TestStart, TestRunningMin, Mapping;
    TestsHead(trace, c, f, n);
    TestsTail(trace, c, f, n);
  }

  /** The answers of the fan while it is set to the targets in turn. */
  function Plays(f: Driven, targets: seq<Pwm>): Trace
    ensures |Plays(f, targets)| == CostAll(f, targets)
  {
    if targets == [] then [] else seq(Cost(f, targets[0]), _ => AnswerAt(f, targets[0])) + Plays(f, targets[1..])
  }

  lemma {:induction false} PlaysHeard(lead: Trace, f: Driven, targets: seq<Pwm>, rest: Trace)
    ensures Hears(lead + Plays(f, targets) + rest, |lead|, f, targets)
    decreases |targets|
  {
    if targets != [] {
      var block := seq(Cost(f, targets[0]), _ => AnswerAt(f, targets[0]));
      PlaysHeard(lead + block, f, targets[1..], rest);
      assert lead + Plays(f, targets) + rest == (lead + block) + Plays(f, targets[1..]) + rest;
    }
  }

  /** Control is taken while the fan turns at full PWM, then its standstill is measured. */
  function HeadTrace(f: Driven): Trace {
    [AnswerAt(f, PWM_MAX), AnswerAt(f, PWM_MAX), AnswerAt(f, PWM_MIN)] + Plays(f, [PWM_MIN]) + [AnswerAt(f, PWM_MIN)]
  }

  /** The slowing phase with at most `n` targets, and the mapping phase if it ends. */
  function TailTrace(f: Driven, n: nat): Trace {
    var start := StartPwm(f, 0);
    Plays(f, Downs(f, start, n)) + if Stops(f, start, n) then Plays(f, Maps(FirstTarget(start))) else []
  }

  /** The answers to a whole test of the fan. */
  function SteadyTrace(f: Driven, n: nat): Trace {
    HeadTrace(f) + Plays(f, Ups(f, 0)) + [AnswerAt(f, StartPwm(f, 0))] + TailTrace(f, n)
  }

  lemma {:induction false} HeadTested(f: Driven, rest: Trace)
    ensures var trace := HeadTrace(f) + rest;
            && TakeControl(trace, 0) == Done(3, true)
            && Hears(trace, 3, f, [PWM_MIN]) && |HeadTrace(f)| == 9 && trace[8] == AnswerAt(f, PWM_MIN)
  {
    var control := [AnswerAt(f, PWM_MAX), AnswerAt(f, PWM_MAX), AnswerAt(f, PWM_MIN)];
    var trace := HeadTrace(f) + rest;
    assert trace == control + Plays(f, [PWM_MIN]) + ([AnswerAt(f, PWM_MIN)] + rest);
    PlaysHeard(control, f, [PWM_MIN], [AnswerAt(f, PWM_MIN)] + rest);
    assert AwaitPwm(trace, 2, PWM_MIN, 10) == Done(3, true);
  }

  lemma {:induction false} TailTested(lead: Trace, f: Driven, n: nat)
    ensures var start := StartPwm(f, 0);
            var trace := lead + TailTrace(f, n);
            var next := |lead| + CostAll(f, Downs(f, start, n));
            && Hears(trace, |lead|, f, Downs(f, start, n))
            && if Stops(f, start, n) then Hears(trace, next, f, Maps(FirstTarget(start))) else |trace| == next
  {
    hide Hears, Plays, Downs, Maps, StartPwm, Stops;
    var start := StartPwm(f, 0);
    var slow := Plays(f, Downs(f, start, n));
    var trace := lead + TailTrace(f, n);
    var rest := if Stops(f, start, n) then Plays(f, Maps(FirstTarget(start))) else [];
    assert trace == lead + slow + rest == (lead + slow) + rest + [];
    PlaysHeard(lead, f, Downs(f, start, n), rest);
    PlaysHeard(lead + slow, f, Maps(FirstTarget(start)), []);
  }

  lemma {:induction false} SteadyTraceTested(f: Driven, n: nat)
    ensures Tested(SteadyTrace(f, n), 3, f, n)
  {
    hide Hears, Plays, Downs, Maps, StartPwm, Stops, Ups, TakeControl, TailTrace;
    var trace := SteadyTrace(f, n);
    var start := [AnswerAt(f, StartPwm(f, 0))];
    var up := Plays(f, Ups(f, 0));
    assert trace == HeadTrace(f) + (up + start + TailTrace(f, n));
    HeadTested(f, up + start + TailTrace(f, n));
    assert trace == HeadTrace(f) + up + (start + TailTrace(f, n));
    PlaysHeard(HeadTrace(f), f, Ups(f, 0), start + TailTrace(f, n));
    TailTested(HeadTrace(f) + up + start, f, n);
    assert trace[9 + |up|] == start[0];
  }

  /** The `k`-th target after `target`. */
  function Down(target: Pwm, k: nat): Pwm {
    AsUint(target - 2 * k)
  }

  lemma {:induction false} DownNext(target: Pwm, k: nat)
    ensures Down(Down(target, 1), k) == Down(target, k + 1)
    ensures target < UINT_RANGE ==> Down(target, 0) == target
  {
  }

  lemma {:induction false} DownParity(target: Pwm, k: nat)
    ensures Down(target, k) < UINT_RANGE && Down(target, k) % 2 == target % 2
  {
    var wraps := (target - 2 * k) / UINT_RANGE;
    assert Down(target, k) == target - 2 * (k + INT_LIMIT * wraps);
  }

  lemma {:induction false} StopsAt(f: Driven, target: Pwm, k: nat)
    requires target < UINT_RANGE && Still(f, Down(target, k))
    ensures Stops(f, target, k + 1)
    decreases k
  {
    DownNext(target, if k > 0 then k - 1 else 0);
    if k > 0 {
      StopsAt(f, Down(target, 1), k - 1);
    }
  }

  lemma {:induction false} StopsBy(f: Driven, target: Pwm, n: nat) returns (k: nat)
    requires target < UINT_RANGE && Stops(f, target, n)
    ensures k < n && Still(f, Down(target, k))
    decreases n
  {
    DownNext(target, 0);
    if Still(f, target) {
      k := 0;
    } else {
      k := StopsBy(f, Down(target, 1), n - 1);
      DownNext(target, k);
      k := k + 1;
    }
  }

  /** Some PWM the driver takes, of the given parity, stands the fan still. */
  ghost predicate StillSomewhere(f: Driven, parity: nat) {
    exists p: Pwm :: Still(f, p) && p % 2 == parity
  }

  lemma {:induction false} Reaches(target: Pwm, p: Pwm) returns (k: nat)
    requires target < UINT_RANGE && p < UINT_RANGE && p % 2 == target % 2
    ensures Down(target, k) == p
  {
    k := (if p <= target then target - p else target - p + UINT_RANGE) / 2;
  }

  /** In steps of two modulo 2^32 the slowing phase reaches every PWM of its start's parity: it ends exactly when
      the driver takes one of them and it stands the fan still. */
  lemma {:induction false} StopsEventuallyIff(f: Driven, target: Pwm)
    requires target < UINT_RANGE
    ensures (exists n: nat :: Stops(f, target, n)) <==> StillSomewhere(f, target % 2)
  {
    hide Stops, Down;
    if n: nat :| Stops(f, target, n) {
      var k := StopsBy(f, target, n);
      DownParity(target, k);
      assert StillSomewhere(f, target % 2);
    }
    if StillSomewhere(f, target % 2) {
      var p: Pwm :| Still(f, p) && p % 2 == target % 2;
      var k := Reaches(target, p);
      StopsAt(f, target, k);
      assert Stops(f, target, k + 1);
    }
  }

  lemma {:induction false} CompletesIff(f: Driven, n: nat)
    ensures Test(SteadyTrace(f, n)).Done? <==> Stops(f, StartPwm(f, 0), n)
  {
    hide Test, SteadyTrace, Stops, Tested, Measured, AfterSlowing, Maps;
    SteadyTraceTested(f, n);
    SteadyTest(SteadyTrace(f, n), 3, f, n);
  }

  /** The test of a steady fan completes, after enough answers, if and only if some even PWM that its driver takes
      stands the fan still: one up to 254 under a driver that refuses more than 255. */
  lemma {:induction false} SteadyTestEndsIff(f: Driven)
    ensures (exists n: nat :: Test(SteadyTrace(f, n)).Done?) <==> StillSomewhere(f, 0)
  {
    hide Test, SteadyTrace, Stops, StillSomewhere;
    var start := StartPwm(f, 0);
    StopsEventuallyIff(f, start);
    if n: nat :| Test(SteadyTrace(f, n)).Done? {
      CompletesIff(f, n);
    }
    if n: nat :| Stops(f, start, n) {
      CompletesIff(f, n);
    }
  }

  /** Under a driver that takes 0..255 only, the slowing phase wraps through all the refused targets and comes
      down on the range again: the test completes exactly when some even PWM up to 254 stands the fan still. */
  lemma {:induction false} OrdinaryTestEndsIff(f: Driven)
    requires f.limit == PWM_MAX + 1
    ensures (exists n: nat :: Test(SteadyTrace(f, n)).Done?) <==>
            exists p: Pwm :: p <= 254 && p % 2 == 0 && f.speed(p) == 0
  {
    hide Test, SteadyTrace;
    SteadyTestEndsIff(f);
    if StillSomewhere(f, 0) {
      var p: Pwm :| Still(f, p) && p % 2 == 0;
      assert p <= 254 && f.speed(p) == 0;
    }
    if p: Pwm :| p <= 254 && p % 2 == 0 && f.speed(p) == 0 {
      assert Still(f, p);
    }
  }

  lemma {:induction false} RecordedGet(t: Table, f: Driven, target: Pwm, p: Pwm)
    requires Sorted(t)
    ensures Sorted(Recorded(t, f, Maps(target)))
    ensures Get(Recorded(t, f, Maps(target)), p) == if Visits(target, p) then Some(f.speed(p)) else Get(t, p)
    decreases PWM_MAX + 1 - target
  {
    hide Get, Put, Sorted;
    if target <= PWM_MAX {
      assert Maps(target)[1..] == Maps(NextTarget(target));
      PutSorted(t, target, f.speed(target));
      GetPut(t, target, f.speed(target), p);
      RecordedGet(Put(t, target, f.speed(target)), f, NextTarget(target), p);
    }
  }

  lemma {:induction false} StillAtOnce(f: Driven, target: Pwm, n: nat)
    requires Still(f, target)
    ensures n > 0 ==> Stops(f, target, n)
    ensures n > 0 ==> Results(f, target, n - 1) == []
  {
  }

  lemma {:induction false} EmptyPut(t: Table, results: seq<Entry>)
    requires |results| <= 2
    ensures PutAll(t, results[..0]) == t
  {
  }

  /** A fan that stops at zero has at most one result in its slowing phase, and none is kept. */
  lemma {:induction false} NoneKept(f: Driven, n: nat)
    requires f.speed(0) == 0
    ensures Slowest(f, n) == Put(Put([], PWM_MIN, f.speed(PWM_MIN)), StartPwm(f, 0), f.speed(StartPwm(f, 0)))
    ensures StartPwm(f, 0) > 0 && (n >= 2 ==> Stops(f, StartPwm(f, 0), n))
  {
    hide StartPwm, PutAll, Put;
    var start := StartPwm(f, 0);
    assert start > 0 by { StartPwmIs(f, 0, 0); }
    StartPwmIs(f, 0, start - 2);
    assert AsUint(start - 2) == start - 2 && f.speed(start - 2) == 0;
    StillAtOnce(f, start - 2, n);
    EmptyPut(Put(Put([], PWM_MIN, f.speed(PWM_MIN)), start, f.speed(start)), Results(f, start, n));
  }

  lemma {:induction false} EmptySorted(p: int)
    ensures Sorted([]) && Get([], p) == None
  {
  }

  /** What a completed test of such a fan has measured: its speed at standstill, at its start PWM, at every
      even PWM above that and at 255, and nothing else. */
  lemma {:induction false} MeasuredIs(f: Driven, n: nat, p: Pwm)
    requires f.speed(0) == 0
    ensures Measurement(Measured(f, n))
    ensures Get(Measured(f, n), p) ==
            if p == 0 || p == 255 || (StartPwm(f, 0) <= p <= 254 && p % 2 == 0) then Some(f.speed(p)) else None
  {
    hide Get, Put, Maps, Recorded, Sorted;
    var start := StartPwm(f, 0);
    NoneKept(f, n);
    EmptySorted(p);
    PutSorted([], 0, f.speed(0));
    GetPut([], 0, f.speed(0), p);
    PutSorted(Put([], 0, f.speed(0)), start, f.speed(start));
    GetPut(Put([], 0, f.speed(0)), start, f.speed(start), p);
    RecordedGet(Slowest(f, n), f, FirstTarget(start), p);
    RecordedGet(Slowest(f, n), f, FirstTarget(start), 255);
    MappingVisits(start, p);
    MappingVisits(start, 255);
    assert Get([], 255) == None by { EmptySorted(255); }
    assert Get(Measured(f, n), 255).Some?;
  }

  /** Such a fan, if it also turns strictly faster with every PWM from its start PWM on. */
  ghost predicate Regular(f: Driven) {
    && f.speed(0) == 0 && f.speed(StartPwm(f, 0)) > 0
    && forall p, q :: StartPwm(f, 0) <= p < q <= PWM_MAX ==> f.speed(p) < f.speed(q)
  }

  lemma {:induction false} RecordedKeys(t: Table, f: Driven, targets: seq<Pwm>)
    requires KeysNatural(t)
    ensures KeysNatural(Recorded(t, f, targets))
    decreases |targets|
  {
    if targets != [] {
      RecordedKeys(Put(t, targets[0], f.speed(targets[0])), f, targets[1..]);
    }
  }

  lemma {:induction false} MeasuredKeys(f: Driven, n: nat)
    requires f.speed(0) == 0
    ensures KeysNatural(Measured(f, n))
  {
    NoneKept(f, n);
    RecordedKeys(Slowest(f, n), f, Maps(FirstTarget(StartPwm(f, 0))));
  }

  lemma {:induction false} MeasuredRises(f: Driven, n: nat)
    requires Regular(f)
    ensures var t := Measured(f, n);
            && Sorted(t) && PwmKeys(t)
            && (forall i :: 0 <= i < |t| ==> t[i].value == f.speed(t[i].key))
            && forall i, j :: 0 <= i < j < |t| ==> t[i].value < t[j].value
  {
    hide Measured, Get, StartPwm;
    var t := Measured(f, n);
    MeasuredIs(f, n, 0);
    MeasuredKeys(f, n);
    forall i | 0 <= i < |t|
      ensures 0 <= t[i].key <= PWM_MAX && t[i].value == f.speed(t[i].key)
      ensures t[i].key == 0 || StartPwm(f, 0) <= t[i].key
    {
      GetAt(t, i);
      MeasuredIs(f, n, t[i].key);
    }
  }

  lemma {:induction false} IndexOf(t: Table, k: int) returns (i: nat)
    requires Get(t, k).Some?
    ensures i < |t| && t[i].key == k
  {
    i := LowerBound(t, k);
  }

  /** The calibration its completed test leaves is the exact inverse of its speed: at every PWM the test
      measured, the map takes the fan's RPM back to that PWM. */
  lemma {:induction false} SteadyCalibration(f: Driven, n: nat, p: Pwm)
    requires Regular(f) && n >= 2
    requires p == 0 || p == 255 || (StartPwm(f, 0) <= p <= 254 && p % 2 == 0)
    ensures var r := Test(SteadyTrace(f, n));
            && r.Done? && r.value.Some?
            && r.value.value.startPwm == StartPwm(f, 0)
            && Get(Repair(r.value.value.measured), f.speed(p)) == Some(p)
  {
    hide Test, SteadyTrace, Tested, Measured, Get, Repair, StartPwm, Stops, Maps, AfterSlowing;
    SteadyTraceTested(f, n);
    SteadyTest(SteadyTrace(f, n), 3, f, n);
    NoneKept(f, n);
    var t := Measured(f, n);
    MeasuredRises(f, n);
    MeasuredIs(f, n, p);
    RepairInverts(t);
    var i := IndexOf(t, p);
    assert t[i].value == f.speed(p);
  }

  /** A fan that starts at PWM 40 and gains 10 RPM a step: its test completes, and leaves 1280 RPM at 128. */
  lemma {:induction false} SteadyExample(f: Driven)
    requires forall p: Pwm :: f.speed(p) == if p < 40 then 0 else 10 * p
    ensures var r := Test(SteadyTrace(f, 2));
            && r.Done? && r.value.Some?
            && r.value.value.startPwm == 40
            && Get(Repair(r.value.value.measured), 1280) == Some(128)
  {
    hide Test, SteadyTrace, StartPwm, Get, Repair;
    StartPwmIs(f, 0, 40);
    assert StartPwm(f, 0) == 40;
    SteadyCalibration(f, 2, 128);
  }
}
