/** `Fan::test` against an arbitrary fan. The fan is a trace of answers: each step of the test takes the
    next one. A trace that runs out leaves the test unfinished, so the traces cover every finite run,
    and a test that never ends is unfinished on all of them. */
module FanTest {
  import opened Basics
  import opened Tables
  import opened Calibration

  /** What the driver answers in one step: whether a write succeeds, and the PWM and RPM read back. */
  datatype Answer = Answer(ok: bool, pwm: Pwm, rpm: Rpm)
  type Trace = seq<Answer>

  /** The result of a part of the test and the trace position after it. */
  datatype Run<+T> = Unfinished | Broken | Done(next: nat, value: T)

  /** Two successive readings differ by at most a tenth of the newer one. */
  predicate Close(prev: Rpm, cur: Rpm) {
    10 * Abs(AsInt(cur - prev)) <= cur
  }

  /** For readings an int holds: the older one lies within a tenth of the newer one, on either side. */
  lemma {:induction false} CloseIff(prev: Rpm, cur: Rpm)
    requires prev < INT_LIMIT && cur < INT_LIMIT
    ensures Close(prev, cur) <==> 9 * cur <= 10 * prev <= 11 * cur
  {
  }

  /** The loop of `set_stabilised_pwm`: four close pairs in a row end it, a changed PWM aborts it. */
  function Watch(trace: Trace, i: nat, target: Pwm, cur: Rpm, reached: nat): Run<Option<Rpm>>
    decreases |trace| - i
  {
    if reached > 3 then Done(i, Some(cur))
    else if i >= |trace| then Unfinished
    else if trace[i].pwm != target then Done(i + 1, None)
    else Watch(trace, i + 1, target, trace[i].rpm, if Close(cur, trace[i].rpm) then reached + 1 else 0)
  }

  function SetStabilised(trace: Trace, i: nat, target: Pwm): Run<Option<Rpm>> {
    if i >= |trace| then Unfinished
    else if !trace[i].ok then Done(i + 1, None)
    else Watch(trace, i + 1, target, trace[i].rpm, 0)
  }

  /** The reading at `j` closes a row of four close pairs. */
  predicate FourClose(trace: Trace, j: nat) {
    && 4 <= j < |trace|
    && Close(trace[j - 4].rpm, trace[j - 3].rpm) && Close(trace[j - 3].rpm, trace[j - 2].rpm)
    && Close(trace[j - 2].rpm, trace[j - 1].rpm) && Close(trace[j - 1].rpm, trace[j].rpm)
  }

  /** The last `reached` pairs before `i` were close, the one before them was not. */
  ghost predicate Counted(trace: Trace, start: nat, i: nat, reached: nat) {
    && start < i <= |trace| && reached <= 4 && start + reached < i
    && (forall j :: i - reached <= j < i ==> Close(trace[j - 1].rpm, trace[j].rpm))
    && (reached < 4 && start + reached + 1 < i ==> !Close(trace[i - reached - 2].rpm, trace[i - reached - 1].rpm))
  }

  lemma {:induction false} CountedStep(trace: Trace, start: nat, i: nat, reached: nat)
    requires Counted(trace, start, i, reached) && reached < 4 && 0 < i < |trace|
    ensures var next := if Close(trace[i - 1].rpm, trace[i].rpm) then reached + 1 else 0;
            && next <= 4
            && (next == 4 <==> start + 4 <= i && FourClose(trace, i))
            && (next < 4 ==> Counted(trace, start, i + 1, next))
  {
    hide Close;
  }

  lemma {:induction false} WatchAdvances(trace: Trace, i: nat, target: Pwm, cur: Rpm, reached: nat)
    ensures var r := Watch(trace, i, target, cur, reached);
            r.Done? ==> i <= r.next && (reached <= 3 ==> i < r.next <= |trace|) && (reached > 3 ==> r.next == i)
    decreases |trace| - i
  {
    if reached <= 3 && i < |trace| && trace[i].pwm == target {
      WatchAdvances(trace, i + 1, target, trace[i].rpm, if Close(cur, trace[i].rpm) then reached + 1 else 0);
    }
  }

  lemma {:induction false} WatchStable(trace: Trace, start: nat, i: nat, target: Pwm, reached: nat, n: nat)
    requires Counted(trace, start, i, reached)
    requires reached < 4
    requires 0 < i <= n < |trace|
    ensures Watch(trace, i, target, trace[i - 1].rpm, reached) == Done(n + 1, Some(trace[n].rpm))
       <==> && (forall j :: i <= j <= n ==> trace[j].pwm == target)
            && start + 4 <= n && FourClose(trace, n)
            && (forall j :: i <= j < n && start + 4 <= j ==> !FourClose(trace, j))
    decreases |trace| - i
  {
    hide Counted, FourClose, Close;
    if trace[i].pwm == target {
      var next := if Close(trace[i - 1].rpm, trace[i].rpm) then reached + 1 else 0;
      CountedStep(trace, start, i, reached);
      if next < 4 && i < n {
        WatchStable(trace, start, i + 1, target, next, n);
      } else if next < 4 {
        WatchAdvances(trace, i + 1, target, trace[i].rpm, next);
      }
    }
  }

  /** A returned RPM means exactly this: the write succeeded, the PWM read back as set on every step, and
      the reading returned is the first to end a row of four changes of at most 10 %. */
  lemma {:induction false} StabilisedIff(trace: Trace, i: nat, target: Pwm, n: nat)
    requires i < n < |trace|
    ensures SetStabilised(trace, i, target) == Done(n + 1, Some(trace[n].rpm))
       <==> && trace[i].ok
            && (forall j :: i < j <= n ==> trace[j].pwm == target)
            && i + 4 <= n && FourClose(trace, n)
            && (forall j :: i + 4 <= j < n ==> !FourClose(trace, j))
  {
    if trace[i].ok {
      WatchStable(trace, i, i + 1, target, 0, n);
    }
  }

  lemma {:induction false} WatchConstant(trace: Trace, i: nat, target: Pwm, reached: nat, rpm: Rpm)
    requires reached <= 4 && i + 4 - reached <= |trace|
    requires forall j :: i <= j < i + 4 - reached ==> trace[j].pwm == target && trace[j].rpm == rpm
    ensures Watch(trace, i, target, rpm, reached) == Done(i + 4 - reached, Some(rpm))
    decreases 4 - reached
  {
    if reached < 4 {
      WatchConstant(trace, i + 1, target, reached + 1, rpm);
    }
  }

  lemma {:induction false} WatchLost(trace: Trace, start: nat, i: nat, target: Pwm, reached: nat, n: nat)
    requires Counted(trace, start, i, reached)
    requires reached < 4
    requires 0 < i <= n < |trace|
    ensures Watch(trace, i, target, trace[i - 1].rpm, reached) == Done(n + 1, None)
       <==> && trace[n].pwm != target
            && (forall j :: i <= j < n ==> trace[j].pwm == target)
            && (forall j :: i <= j < n && start + 4 <= j ==> !FourClose(trace, j))
    decreases |trace| - i
  {
    hide Counted, FourClose, Close;
    if trace[i].pwm == target {
      var next := if Close(trace[i - 1].rpm, trace[i].rpm) then reached + 1 else 0;
      CountedStep(trace, start, i, reached);
      if next < 4 && i < n {
        WatchLost(trace, start, i + 1, target, next, n);
      } else if next < 4 {
        WatchAdvances(trace, i + 1, target, trace[i].rpm, next);
      }
    }
  }

  /** An attempt is lost exactly here: the write was refused, or the PWM read back is another one before four
      changes in a row were small. */
  lemma {:induction false} LostIff(trace: Trace, i: nat, target: Pwm, n: nat)
    requires i <= n < |trace|
    ensures SetStabilised(trace, i, target) == Done(n + 1, None)
       <==> if !trace[i].ok then n == i
            else
              && i < n && trace[n].pwm != target
              && (forall j :: i < j < n ==> trace[j].pwm == target)
              && (forall j :: i + 4 <= j < n ==> !FourClose(trace, j))
  {
    if trace[i].ok {
      if i < n {
        WatchLost(trace, i, i + 1, target, 0, n);
      } else {
        WatchAdvances(trace, i + 1, target, trace[i].rpm, 0);
      }
    }
  }

  /** If the PWM holds and the readings are constant from the n-th one on, the loop ends within n + 4
      iterations, with that reading. */
  lemma {:induction false} WatchEnds(trace: Trace, i: nat, target: Pwm, cur: Rpm, reached: nat, from: nat, rpm: Rpm)
    requires reached <= 4 && i <= from + 1 && from + 4 < |trace|
    requires forall j :: i <= j < |trace| ==> trace[j].pwm == target
    requires forall j :: i <= j < |trace| && from <= j ==> trace[j].rpm == rpm
    requires i == from + 1 ==> cur == rpm
    ensures var r := Watch(trace, i, target, cur, reached);
            r.Done? && r.value.Some? && r.next <= from + 5
    decreases from + 1 - i
  {
    if reached <= 3 {
      if i <= from {
        WatchEnds(trace, i + 1, target, trace[i].rpm, if Close(cur, trace[i].rpm) then reached + 1 else 0, from, rpm);
      } else {
        WatchConstant(trace, i, target, reached, rpm);
      }
    }
  }

  lemma {:induction false} StabilisationEnds(trace: Trace, i: nat, target: Pwm, n: nat, rpm: Rpm)
    requires i + n + 4 < |trace| && trace[i].ok
    requires forall j :: i < j < |trace| ==> trace[j].pwm == target
    requires forall j :: i + n <= j < |trace| ==> trace[j].rpm == rpm
    ensures var r := SetStabilised(trace, i, target);
            r.Done? && r.value.Some? && r.next - (i + 1) <= n + 4
  {
    WatchEnds(trace, i + 1, target, trace[i].rpm, 0, i + n, rpm);
  }

  lemma {:induction false} SetStabilisedAdvances(trace: Trace, i: nat, target: Pwm)
    ensures var r := SetStabilised(trace, i, target); r.Done? ==> i < r.next <= |trace|
  {
    if i < |trace| && trace[i].ok {
      WatchAdvances(trace, i + 1, target, trace[i].rpm, 0);
    }
  }

  /** What the test has learnt so far. */
  datatype Findings = Findings(measured: Table, startPwm: Pwm)

  function TestStopped(trace: Trace, i: nat): Run<Table> {
    var r := SetStabilised(trace, i, PWM_MIN);
    if !r.Done? || r.next >= |trace| then Unfinished
    else Done(r.next + 1, Put([], trace[r.next].pwm, trace[r.next].rpm))
  }

  /** Raise the PWM by two until the fan turns or the range is exhausted. */
  function FindStart(trace: Trace, i: nat, target: Pwm, cur: Option<Rpm>): Run<Option<Rpm>>
    decreases |trace| - i
  {
    if (cur == None || cur == Some(0)) && target <= PWM_MAX then
      SetStabilisedAdvances(trace, i, target);
      var r := SetStabilised(trace, i, target);
      if r.Done? then FindStart(trace, r.next, target + 2, r.value) else Unfinished
    else Done(i, cur)
  }

  /** The start PWM is whatever the driver reads back afterwards. A last attempt without a stable RPM
      leaves an empty optional to be dereferenced. */
  function TestStart(trace: Trace, i: nat, measured: Table): Run<Findings> {
    var r := FindStart(trace, i, PWM_MIN, Some(0));
    if !r.Done? || r.next >= |trace| then Unfinished
    else if r.value == None then Broken
    else
      var start := trace[r.next].pwm;
      Done(r.next + 1, Findings(Put(measured, start, r.value.value), start))
  }

  /** Lower the PWM by two until the fan stands still. The target is unsigned: below zero it wraps, so only
      a stable reading of zero ends the loop. */
  function Slowing(trace: Trace, i: nat, target: Pwm, results: seq<Entry>): Run<seq<Entry>>
    decreases |trace| - i
  {
    SetStabilisedAdvances(trace, i, target);
    var r := SetStabilised(trace, i, target);
    if !r.Done? then Unfinished
    else if r.value == None then Slowing(trace, r.next, AsUint(target - 2), results)
    else if r.value.value == 0 then Done(r.next, results)
    else Slowing(trace, r.next, AsUint(target - 2), results + [Entry(target, r.value.value)])
  }

  function PutAll(t: Table, entries: seq<Entry>): Table {
    if entries == [] then t
    else
      var e := entries[|entries| - 1];
      Put(PutAll(t, entries[..|entries| - 1]), e.key, e.value)
  }

  /** All but the last two results are kept. */
  function TestRunningMin(trace: Trace, i: nat, f: Findings): Run<Findings> {
    var r := Slowing(trace, i, f.startPwm, []);
    if !r.Done? then Unfinished
    else Done(r.next, f.(measured := PutAll(f.measured, r.value[..if |r.value| > 2 then |r.value| - 2 else 0])))
  }

  function FirstTarget(start: Pwm): Pwm {
    var t := AsUint(start + if start % 2 != 0 then 1 else 2);
    if t < PWM_MAX then t else PWM_MAX
  }

  function NextTarget(target: Pwm): Pwm {
    target + if target < PWM_MAX - 1 then 2 else 1
  }

  /** A stable reading is recorded, a lost one is not. */
  function Noted(measured: Table, target: Pwm, reading: Option<Rpm>): Table {
    if reading.Some? then Put(measured, target, reading.value) else measured
  }

  function Mapping(trace: Trace, i: nat, target: Pwm, measured: Table): Run<Table>
    decreases |trace| - i
  {
    if target > PWM_MAX then Done(i, measured)
    else
      SetStabilisedAdvances(trace, i, target);
      var r := SetStabilised(trace, i, target);
      if !r.Done? then Unfinished
      else Mapping(trace, r.next, NextTarget(target), Noted(measured, target, r.value))
  }

  /** `set_pwm_test`: set the opposite end of the range and wait up to ten reads for it to show. */
  function AwaitPwm(trace: Trace, i: nat, target: Pwm, left: nat): Run<bool>
    decreases left
  {
    if left == 0 then Done(i, false)
    else if i >= |trace| then Unfinished
    else if trace[i].pwm == target then Done(i + 1, true)
    else AwaitPwm(trace, i + 1, target, left - 1)
  }

  function TakeControl(trace: Trace, i: nat): Run<bool> {
    if i >= |trace| then Unfinished
    else if !trace[i].ok then Done(i + 1, false)
    else if i + 1 >= |trace| then Unfinished
    else if !trace[i + 1].ok then Done(i + 2, false)
    else AwaitPwm(trace, i + 2, if trace[i + 1].pwm != PWM_MIN then PWM_MIN else PWM_MAX, 10)
  }

  /** The whole test: `None` when control of the fan cannot be taken. */
  function Test(trace: Trace): Run<Option<Findings>> {
    var control := TakeControl(trace, 0);
    if !control.Done? then Unfinished
    else if !control.value then Done(control.next, None)
    else
      var stopped := TestStopped(trace, control.next);
      if !stopped.Done? then Unfinished
      else
        var started := TestStart(trace, stopped.next, stopped.value);
        if started.Broken? then Broken
        else if !started.Done? then Unfinished
        else
          var slowed := TestRunningMin(trace, started.next, started.value);
          if !slowed.Done? then Unfinished
          else
            var mapped := Mapping(trace, slowed.next, FirstTarget(slowed.value.startPwm), slowed.value.measured);
            if !mapped.Done? then Unfinished
            else Done(mapped.next, Some(Findings(mapped.value, slowed.value.startPwm)))
  }

  /** The start search's attempt at PWM `2 * m`, made where the one before it ended. */
  function Attempt(trace: Trace, i: nat, m: nat): Run<Option<Rpm>> {
    if m == 0 then SetStabilised(trace, i, PWM_MIN)
    else
      match Attempt(trace, i, m - 1)
      case Done(next, _) => SetStabilised(trace, next, 2 * m)
      case _ => Unfinished
  }

  /** An attempt after which the fan is not known to turn: lost, or a standstill. */
  predicate NotTurning(r: Run<Option<Rpm>>) {
    r.Done? && (r.value == None || r.value == Some(0))
  }

  ghost predicate NoneTurns(trace: Trace, i: nat, m: nat) {
    forall a :: 0 <= a < m ==> NotTurning(Attempt(trace, i, a))
  }

  /** The attempt the search ends with: the first after which the fan turns, or the last one, at 254. */
  ghost predicate EndsWith(trace: Trace, i: nat, m: nat) {
    && m <= 127 && Attempt(trace, i, m).Done?
    && NoneTurns(trace, i, m)
    && (m < 127 ==> !NotTurning(Attempt(trace, i, m)))
  }

  lemma {:induction false} SearchFrom(trace: Trace, i: nat, m: nat, j: nat, cur: Option<Rpm>)
    requires m <= 127 && NoneTurns(trace, i, m)
    requires if m == 0 then j == i && cur == Some(0) else Attempt(trace, i, m - 1) == Done(j, cur)
    ensures forall b :: m <= b && EndsWith(trace, i, b) ==> FindStart(trace, j, 2 * m, cur) == Attempt(trace, i, b)
    ensures FindStart(trace, j, 2 * m, cur).Done? ==> exists b :: m <= b && EndsWith(trace, i, b)
    decreases 127 - m
  {
    hide SetStabilised;
    assert m > 0 ==> NotTurning(Attempt(trace, i, m - 1));
    SetStabilisedAdvances(trace, j, 2 * m);
    var r := SetStabilised(trace, j, 2 * m);
    assert r == Attempt(trace, i, m);
    if r.Done? {
      assert FindStart(trace, j, 2 * m, cur) == FindStart(trace, r.next, 2 * m + 2, r.value);
      if NotTurning(r) && m < 127 {
        SearchFrom(trace, i, m + 1, r.next, r.value);
      } else {
        assert EndsWith(trace, i, m);
      }
    }
  }

  lemma {:induction false} EndsDone(trace: Trace, i: nat)
    ensures forall m :: EndsWith(trace, i, m) ==> 0 <= m <= 127 && Attempt(trace, i, m).Done?
  {
  }

  /** The search for the start PWM is over exactly when some attempt ends it, and yields what that one did. */
  lemma {:induction false} FindStartIff(trace: Trace, i: nat)
    ensures FindStart(trace, i, PWM_MIN, Some(0)).Done? <==> exists m :: EndsWith(trace, i, m)
    ensures forall m :: EndsWith(trace, i, m) ==> FindStart(trace, i, PWM_MIN, Some(0)) == Attempt(trace, i, m)
  {
    hide EndsWith, FindStart, Attempt;
    SearchFrom(trace, i, 0, i, Some(0));
    assert forall m :: EndsWith(trace, i, m) ==> Attempt(trace, i, m).Done? by { EndsDone(trace, i); }
  }

  /** The empty optional is dereferenced exactly when no attempt at 0, 2, ..., 252 finds the fan turning, the
      attempt at 254 is lost, and the PWM is then read back. */
  lemma {:induction false} StartBrokenIff(trace: Trace, i: nat, measured: Table)
    ensures TestStart(trace, i, measured) == Broken
       <==> && NoneTurns(trace, i, 127)
            && Attempt(trace, i, 127).Done? && Attempt(trace, i, 127).value == None
            && Attempt(trace, i, 127).next < |trace|
  {
    hide FindStart, Attempt;
    FindStartIff(trace, i);
    var r := FindStart(trace, i, PWM_MIN, Some(0));
    if r.Done? {
      var m :| EndsWith(trace, i, m);
      assert r == Attempt(trace, i, m);
      assert r.value == None ==> NotTurning(r) && m == 127;
    }
    assert NoneTurns(trace, i, 127) && Attempt(trace, i, 127).Done? ==> EndsWith(trace, i, 127);
  }

  /** The first phase ends with one answer after its attempt at 0, and records the RPM of that answer under the PWM
      it reads back. */
  lemma {:induction false} StoppedIs(trace: Trace, i: nat)
    ensures var r := SetStabilised(trace, i, 0);
            TestStopped(trace, i) ==
            if r.Done? && r.next < |trace| then
              Done(r.next + 1, [Entry(trace[r.next].pwm, trace[r.next].rpm)])
            else Unfinished
  {
    hide SetStabilised, Put;
    var r := SetStabilised(trace, i, 0);
    if r.Done? && r.next < |trace| {
      PutLast([], trace[r.next].pwm, trace[r.next].rpm);
      assert [] + [Entry(trace[r.next].pwm, trace[r.next].rpm)] == [Entry(trace[r.next].pwm, trace[r.next].rpm)];
    }
  }

  /** The second phase ends with one answer after the attempt that ends the search: the PWM it reads back is the
      start PWM, the RPM recorded under it is that attempt's, and every other point stays. */
  lemma {:induction false} StartRecords(trace: Trace, i: nat, measured: Table, m: nat, p: Pwm)
    requires Sorted(measured) && EndsWith(trace, i, m)
    ensures var r := Attempt(trace, i, m);
            var s := TestStart(trace, i, measured);
            r.value.Some? && r.next < |trace| ==>
              && s.Done? && s.next == r.next + 1 && s.value.startPwm == trace[r.next].pwm
              && Get(s.value.measured, p) ==
                 if p == trace[r.next].pwm then r.value else Get(measured, p)
  {
    hide Get, Put, FindStart, EndsWith;
    FindStartIff(trace, i);
    var r := Attempt(trace, i, m);
    if r.Done? && r.value.Some? && r.next < |trace| {
      GetPut(measured, trace[r.next].pwm, r.value.value, p);
    }
    EndsDone(trace, i);
  }

  lemma {:induction false} LostAttempts(trace: Trace, i: nat, m: nat)
    requires i + m < |trace| && forall j :: i <= j <= i + m ==> !trace[j].ok
    ensures Attempt(trace, i, m) == Done(i + m + 1, None)
  {
    if m > 0 {
      LostAttempts(trace, i, m - 1);
    }
  }

  /** A driver that grants control, lets the PWM be set once and then refuses every write. */
  const REFUSING: Trace := [Answer(true, 90, 1000), Answer(true, 90, 1000), Answer(true, 0, 0)]
                           + seq(131, _ => Answer(false, 0, 0))

  /** On that driver the test dereferences an empty optional. */
  lemma {:induction false} StartBrokenExample()
    ensures Test(REFUSING) == Broken
  {
    hide Attempt, FindStart;
    var trace := REFUSING;
    assert trace[0].ok && trace[1].ok && trace[1].pwm == 90 && trace[2].pwm == 0;
    assert |trace| == 134 && forall j :: 3 <= j < 134 ==> trace[j] == Answer(false, 0, 0);
    assert AwaitPwm(trace, 2, PWM_MIN, 10) == Done(3, true);
    assert TakeControl(trace, 0) == Done(3, true);
    forall a | 0 <= a <= 127 ensures Attempt(trace, 5, a) == Done(6 + a, None) {
      LostAttempts(trace, 5, a);
    }
    StartBrokenIff(trace, 5, Put([], 0, 0));
  }

  /** The PWM that the test sets to see whether it can: the end opposite to the one read back. */
  function Opposite(trace: Trace): Pwm
    requires |trace| > 1
  {
    if trace[1].pwm == 0 then 255 else 0
  }

  lemma {:induction false} AwaitIff(trace: Trace, i: nat, target: Pwm, left: nat, n: nat)
    ensures AwaitPwm(trace, i, target, left) == Done(n, true)
       <==> && i < n <= i + left && n <= |trace| && trace[n - 1].pwm == target
            && forall j :: i <= j < n - 1 ==> trace[j].pwm != target
    ensures AwaitPwm(trace, i, target, left) == Done(n, false)
       <==> && n == i + left && (left > 0 ==> n <= |trace|)
            && forall j :: i <= j < n && j < |trace| ==> trace[j].pwm != target
    decreases left
  {
    if left > 0 && i < |trace| && trace[i].pwm != target {
      AwaitIff(trace, i + 1, target, left - 1, n);
    }
  }

  /** A test fails exactly in three ways: enabling control is refused, or the write after it, or ten reads in a row
      miss the opposite end of the range; it then stops at that answer. */
  lemma {:induction false} TestFailsIff(trace: Trace, n: nat)
    ensures Test(trace) == Done(n, None)
       <==> || (n == 1 && |trace| >= 1 && !trace[0].ok)
            || (n == 2 && |trace| >= 2 && trace[0].ok && !trace[1].ok)
            || (n == 12 && |trace| >= 12 && trace[0].ok && trace[1].ok
                && forall j :: 2 <= j < 12 ==> trace[j].pwm != Opposite(trace))
  {
    hide TestStopped, TestStart, TestRunningMin, Mapping, AwaitPwm;
    if |trace| >= 2 {
      AwaitIff(trace, 2, Opposite(trace), 10, n);
    }
  }

  /** Control is taken exactly when the opposite end is read back within ten reads; the test goes on after the first
      such read. */
  lemma {:induction false} TakesControlIff(trace: Trace, n: nat)
    ensures TakeControl(trace, 0) == Done(n, true)
       <==> && 3 <= n <= 12 && n <= |trace| && trace[0].ok && trace[1].ok
            && trace[n - 1].pwm == Opposite(trace)
            && forall j :: 2 <= j < n - 1 ==> trace[j].pwm != Opposite(trace)
  {
    hide AwaitPwm;
    if |trace| >= 2 {
      AwaitIff(trace, 2, Opposite(trace), 10, n);
    }
  }

  ghost predicate Measurement(t: Table) {
    t != [] && Sorted(t)
  }

  lemma {:induction false} PutMeasurement(t: Table, k: int, v: nat)
    requires Sorted(t)
    ensures Measurement(Put(t, k, v))
  {
  }

  lemma {:induction false} PutAllMeasurement(t: Table, entries: seq<Entry>)
    requires Measurement(t)
    ensures Measurement(PutAll(t, entries))
  {
    if entries != [] {
      PutAllMeasurement(t, entries[..|entries| - 1]);
      PutMeasurement(PutAll(t, entries[..|entries| - 1]), entries[|entries| - 1].key, entries[|entries| - 1].value);
    }
  }

  /** The value of the last entry with a key. */
  function LastOf(entries: seq<Entry>, k: int): (r: Option<nat>)
    ensures r.Some? ==> exists j :: 0 <= j < |entries| && entries[j] == Entry(k, r.value)
    ensures r.None? ==> forall j :: 0 <= j < |entries| ==> entries[j].key != k
  {
    if entries == [] then None
    else if entries[|entries| - 1].key == k then Some(entries[|entries| - 1].value)
    else LastOf(entries[..|entries| - 1], k)
  }

  /** Recorded one after the other: a key holds the value of its last entry, or what it held before. */
  lemma {:induction false} PutAllGet(t: Table, entries: seq<Entry>, k: int)
    requires Sorted(t)
    ensures Sorted(PutAll(t, entries))
    ensures Get(PutAll(t, entries), k) == if LastOf(entries, k).Some? then LastOf(entries, k) else Get(t, k)
  {
    hide Get, Put, Sorted;
    if entries != [] {
      var init, e := entries[..|entries| - 1], entries[|entries| - 1];
      PutAllGet(t, init, k);
      PutSorted(PutAll(t, init), e.key, e.value);
      GetPut(PutAll(t, init), e.key, e.value, k);
    }
  }

  /** What the slowing phase records: every result but the last two, a repeated PWM with its last one, and no other
      point of the measurement changes. */
  lemma {:induction false} RunningMinRecords(trace: Trace, i: nat, f: Findings, p: Pwm)
    requires Sorted(f.measured) && Slowing(trace, i, f.startPwm, []).Done?
    ensures var results := Slowing(trace, i, f.startPwm, []).value;
            var kept := if |results| < 2 then [] else results[..|results| - 2];
            var r := TestRunningMin(trace, i, f);
            && r.Done? && r.value.startPwm == f.startPwm
            && Get(r.value.measured, p) == if LastOf(kept, p).Some? then LastOf(kept, p) else Get(f.measured, p)
  {
    hide Get, PutAll, Slowing, Sorted, LastOf;
    var results := Slowing(trace, i, f.startPwm, []).value;
    var kept := if |results| < 2 then [] else results[..|results| - 2];
    assert results[..if |results| > 2 then |results| - 2 else 0] == kept;
    PutAllGet(f.measured, kept, p);
  }

  lemma {:induction false} MappingMeasures(trace: Trace, i: nat, target: Pwm, measured: Table)
    requires Measurement(measured)
    ensures var r := Mapping(trace, i, target, measured); r.Done? ==> Measurement(r.value)
    decreases |trace| - i
  {
    if target <= PWM_MAX {
      SetStabilisedAdvances(trace, i, target);
      var r := SetStabilised(trace, i, target);
      if r.Done? {
        if r.value.Some? {
          PutMeasurement(measured, target, r.value.value);
        }
        MappingMeasures(trace, r.next, NextTarget(target), Noted(measured, target, r.value));
      }
    }
  }

  lemma {:induction false} StoppedMeasures(trace: Trace, i: nat)
    ensures var r := TestStopped(trace, i); r.Done? ==> Measurement(r.value)
  {
  }

  lemma {:induction false} StartMeasures(trace: Trace, i: nat, measured: Table)
    requires Measurement(measured)
    ensures var r := TestStart(trace, i, measured); r.Done? ==> Measurement(r.value.measured)
  {
    hide FindStart, Put, Sorted;
    var r := FindStart(trace, i, PWM_MIN, Some(0));
    if r.Done? && r.next < |trace| && r.value.Some? {
      PutMeasurement(measured, trace[r.next].pwm, r.value.value);
    }
  }

  lemma {:induction false} SlowedMeasures(trace: Trace, i: nat, f: Findings)
    requires Measurement(f.measured)
    ensures var r := TestRunningMin(trace, i, f); r.Done? ==> Measurement(r.value.measured)
  {
    hide Slowing;
    var r := Slowing(trace, i, f.startPwm, []);
    if r.Done? {
      PutAllMeasurement(f.measured, r.value[..if |r.value| > 2 then |r.value| - 2 else 0]);
    }
  }

  /** A test that succeeds on any fan whatsoever leaves a usable calibration: non-empty, non-decreasing,
      within 0..255. */
  lemma {:induction false} TestCalibrates(trace: Trace)
    ensures var r := Test(trace);
            r.Done? && r.value.Some? ==>
              Measurement(r.value.value.measured) && Calibrated(Repair(r.value.value.measured))
  {
    var r := Test(trace);
    if r.Done? && r.value.Some? {
      var stopped := TestStopped(trace, TakeControl(trace, 0).next);
      var started := TestStart(trace, stopped.next, stopped.value);
      var slowed := TestRunningMin(trace, started.next, started.value);
      StoppedMeasures(trace, TakeControl(trace, 0).next);
      StartMeasures(trace, stopped.next, stopped.value);
      SlowedMeasures(trace, started.next, started.value);
      MappingMeasures(trace, slowed.next, FirstTarget(slowed.value.startPwm), slowed.value.measured);
      RepairCalibrates(r.value.value.measured);
    }
  }

  lemma {:induction false} WatchReads(trace: Trace, i: nat, target: Pwm, cur: Rpm, reached: nat)
    requires cur > 0 && forall j :: i <= j < |trace| ==> trace[j].rpm > 0
    ensures var r := Watch(trace, i, target, cur, reached);
            r.Done? && r.value.Some? ==> r.value.value > 0
    decreases |trace| - i
  {
    if reached <= 3 && i < |trace| && trace[i].pwm == target {
      WatchReads(trace, i + 1, target, trace[i].rpm, if Close(cur, trace[i].rpm) then reached + 1 else 0);
    }
  }

  /** On a fan that never stands still the slowing phase has no end. */
  lemma {:induction false} SlowingNeverEnds(trace: Trace, i: nat, target: Pwm, results: seq<Entry>)
    requires forall j :: i <= j < |trace| ==> trace[j].rpm > 0
    ensures Slowing(trace, i, target, results) == Unfinished
    decreases |trace| - i
  {
    SetStabilisedAdvances(trace, i, target);
    if i < |trace| && trace[i].ok {
      WatchReads(trace, i + 1, target, trace[i].rpm, 0);
    }
    var r := SetStabilised(trace, i, target);
    if r.Done? {
      SlowingNeverEnds(trace, r.next, AsUint(target - 2),
        if r.value.Some? then results + [Entry(target, r.value.value)] else results);
    }
  }

  /** Only a fan that reports a standstill can complete the test. */
  lemma {:induction false} TestNeedsStandstill(trace: Trace)
    requires Test(trace).Done? && Test(trace).value.Some?
    ensures exists j :: 0 <= j < |trace| && trace[j].rpm == 0
  {
    if forall j :: 0 <= j < |trace| ==> trace[j].rpm > 0 {
      var stopped := TestStopped(trace, TakeControl(trace, 0).next);
      var started := TestStart(trace, stopped.next, stopped.value);
      SlowingNeverEnds(trace, started.next, started.value.startPwm, []);
    }
  }

  /** The mapping phase, at `target`, will still try `p`. */
  ghost predicate Visits(target: Pwm, p: Pwm)
    decreases PWM_MAX + 1 - target
  {
    target <= PWM_MAX && (p == target || Visits(NextTarget(target), p))
  }

  lemma {:induction false} VisitsIff(target: Pwm, p: Pwm)
    requires target <= PWM_MAX && (target % 2 == 0 || target == PWM_MAX)
    ensures Visits(target, p) <==> target <= p <= PWM_MAX && (p % 2 == 0 || p == PWM_MAX)
    decreases PWM_MAX - target
  {
    if target < PWM_MAX {
      VisitsIff(NextTarget(target), p);
    } else {
      assert !Visits(NextTarget(target), p);
    }
  }

  /** From any start PWM the mapping phase tries exactly the even PWMs above it and 255, so it hits both
      128 and 255 whenever the fan starts below 128. */
  lemma {:induction false} MappingVisits(start: Pwm, p: Pwm)
    requires start <= PWM_MAX
    ensures Visits(FirstTarget(start), p) <==> (start < p <= PWM_MAX && p % 2 == 0) || p == PWM_MAX
  {
    VisitsIff(FirstTarget(start), p);
  }

  lemma {:induction false} NotedGet(measured: Table, target: Pwm, reading: Option<Rpm>, p: Pwm)
    requires Measurement(measured)
    ensures Measurement(Noted(measured, target, reading))
    ensures Get(Noted(measured, target, reading), p) ==
            if p == target && reading.Some? then reading else Get(measured, p)
  {
    hide Get;
    if reading.Some? {
      PutMeasurement(measured, target, reading.value);
      GetPut(measured, target, reading.value, p);
    }
  }

  /** The mapping phase leaves every other PWM of the measurement as it was. */
  lemma {:induction false} MappingFrame(trace: Trace, i: nat, target: Pwm, measured: Table, p: Pwm)
    requires Measurement(measured)
    requires Mapping(trace, i, target, measured).Done? && !Visits(target, p)
    ensures Get(Mapping(trace, i, target, measured).value, p) == Get(measured, p)
    decreases |trace| - i
  {
    if target <= PWM_MAX {
      SetStabilisedAdvances(trace, i, target);
      var r := SetStabilised(trace, i, target);
      if r.value.Some? {
        PutMeasurement(measured, target, r.value.value);
        GetPut(measured, target, r.value.value, p);
      }
      MappingFrame(trace, r.next, NextTarget(target), Noted(measured, target, r.value), p);
    }
  }

  lemma {:induction false} VisitsAbove(target: Pwm, p: Pwm)
    requires Visits(target, p)
    ensures target <= p
    decreases PWM_MAX + 1 - target
  {
    if p != target {
      VisitsAbove(NextTarget(target), p);
    }
  }

  /** The mapping phase's attempt at `p`, made where the one before it ended. */
  ghost function MapAttempt(trace: Trace, i: nat, target: Pwm, p: Pwm): Run<Option<Rpm>>
    requires Visits(target, p)
    decreases PWM_MAX + 1 - target
  {
    var r := SetStabilised(trace, i, target);
    if p == target then r
    else if r.Done? then MapAttempt(trace, r.next, NextTarget(target), p)
    else Unfinished
  }

  /** A completed mapping has made its attempt at every PWM it tries, and holds there the stable RPM it
      returned, or after a lost attempt what was measured before. */
  lemma {:induction false} MappingRecords(trace: Trace, i: nat, target: Pwm, measured: Table, p: Pwm)
    requires Measurement(measured) && Visits(target, p)
    requires Mapping(trace, i, target, measured).Done?
    ensures var r := MapAttempt(trace, i, target, p);
            && r.Done?
            && Get(Mapping(trace, i, target, measured).value, p) == if r.value.Some? then r.value else Get(measured, p)
    decreases |trace| - i
  {
    hide SetStabilised, Get, Measurement, Put;
    SetStabilisedAdvances(trace, i, target);
    var r := SetStabilised(trace, i, target);
    NotedGet(measured, target, r.value, p);
    if p == target {
      assert Visits(NextTarget(target), p) ==> NextTarget(target) <= p by {
        if Visits(NextTarget(target), p) {
          VisitsAbove(NextTarget(target), p);
        }
      }
      MappingFrame(trace, r.next, NextTarget(target), Noted(measured, target, r.value), p);
    } else {
      MappingRecords(trace, r.next, NextTarget(target), Noted(measured, target, r.value), p);
    }
  }
}
