/** `Sensor::get_average_temp`: a ring buffer of the last readings and its mean. */
module SensorHistory {
  import opened Basics
  import opened Division

  /** The index test decides when the ring buffer wraps. As written it compares the index itself with the
      size, so the index can reach the size, one past the last slot; the meant test compares its successor. */
  datatype WrapRule = AsWritten | Meant

  datatype History = History(window: seq<Temp>, index: nat)

  const EMPTY := History([], 0)

  function Advance(rule: WrapRule, i: nat, size: nat): nat {
    match rule
    case AsWritten => if i < size then i + 1 else 0
    case Meant => if i + 1 < size then i + 1 else 0
  }

  function Filled(n: nat, t: Temp): (w: seq<Temp>)
    ensures |w| == n
    ensures forall i :: 0 <= i < n ==> w[i] == t
  {
    if n == 0 then [] else [t] + Filled(n - 1, t)
  }

  /** The effect of one reading on the history; the first successful one fills all `n` slots. */
  function Record(rule: WrapRule, n: nat, h: History, reading: Option<Temp>): Outcome<History> {
    match reading
    case None => Defined(h)
    case Some(t) =>
      if h.window == [] then Defined(h.(window := Filled(n, t)))
      else if h.index < |h.window| then
        Defined(History(h.window[h.index := t], Advance(rule, h.index, |h.window|)))
      else Undefined
  }

  function Sum(w: seq<Temp>): int {
    if w == [] then 0 else Sum(w[..|w| - 1]) + w[|w| - 1]
  }

  /** The signed sum is divided by an unsigned 64-bit size, then narrowed to an int. */
  function Average(sum: int, size: nat): Temp
    requires size > 0
  {
    AsInt(sum % 0x1_0000_0000_0000_0000 / size)
  }

  /** One call: the new history, the returned temperature. An empty history divides by zero. */
  function Read(rule: WrapRule, n: nat, h: History, reading: Option<Temp>): Outcome<(History, Temp)> {
    match Record(rule, n, h, reading)
    case Defined(h') => if h'.window == [] then Undefined else Defined((h', Average(Sum(h'.window), |h'.window|)))
    case _ => Undefined
  }

  /** The history after a sequence of readings since start-up. */
  function Readings(rule: WrapRule, n: nat, readings: seq<Option<Temp>>): Outcome<History> {
    if readings == [] then Defined(EMPTY)
    else
      match Readings(rule, n, readings[..|readings| - 1])
      case Defined(h) =>
        (match Read(rule, n, h, readings[|readings| - 1])
         case Defined((h', _)) => Defined(h')
         case _ => Undefined)
      case _ => Undefined
  }

  /** The successful readings, in order. */
  function Values(readings: seq<Option<Temp>>): (v: seq<Temp>)
    ensures |v| <= |readings|
  {
    if readings == [] then []
    else
      Values(readings[..|readings| - 1]) +
      match readings[|readings| - 1] { case None => [] case Some(t) => [t] }
  }

  /** The readings start with a success, or there are none yet. */
  predicate StartsWell(n: nat, readings: seq<Option<Temp>>) {
    readings == [] || (n > 0 && readings[0].Some?)
  }

  lemma {:induction false} ValuesStart(readings: seq<Option<Temp>>)
    requires readings != [] && readings[0].Some?
    ensures Values(readings) != [] && Values(readings)[0] == readings[0].value
  {
    var init := readings[..|readings| - 1];
    if init != [] {
      ValuesStart(init);
    } else {
      assert Values(init) == [];
    }
  }

  /** The abstract window: the last `n` of the readings, padded in front with the first one. */
  function Window(n: nat, values: seq<Temp>): (w: seq<Temp>)
    requires values != []
    ensures |w| == n
  {
    var padded := Filled(n, values[0]) + values[1..];
    padded[|padded| - n..]
  }

  /** The buffer read from the index on, oldest reading first. */
  function Rotated(h: History): seq<Temp>
    requires h.index <= |h.window|
  {
    h.window[h.index..] + h.window[..h.index]
  }

  lemma {:induction false} WindowSlides(n: nat, values: seq<Temp>, t: Temp)
    requires values != [] && n > 0
    ensures Window(n, values + [t]) == Window(n, values)[1..] + [t]
  {
  }

  lemma {:induction false} RotationSlides(h: History, t: Temp)
    requires h.index < |h.window|
    ensures var r := Record(Meant, |h.window|, h, Some(t));
            r.Defined? && r.value.index < |h.window| && Rotated(r.value) == Rotated(h)[1..] + [t]
  {
  }

  /** The state of the buffer agrees with the abstract window. */
  ghost predicate Refines(n: nat, h: History, values: seq<Temp>) {
    values != [] && |h.window| == n && h.index < n && Rotated(h) == Window(n, values)
  }

  lemma {:induction false} FirstReading(n: nat, t: Temp)
    requires n > 0
    ensures Refines(n, History(Filled(n, t), 0), [t])
  {
  }

  lemma {:induction false} RefinesRecord(n: nat, h: History, values: seq<Temp>, t: Temp)
    requires Refines(n, h, values)
    ensures var r := Record(Meant, n, h, Some(t)); r.Defined? && Refines(n, r.value, values + [t])
  {
    RotationSlides(h, t);
    WindowSlides(n, values, t);
  }

  /** The ring buffer with the meant wrap test refines the sliding window: after any readings that start
      well it is a rotation of the last `n` successful ones, padded with the first. */
  lemma {:induction false} RefinesWindow(n: nat, readings: seq<Option<Temp>>)
    requires readings != [] && StartsWell(n, readings)
    ensures var r := Readings(Meant, n, readings);
            r.Defined? && Refines(n, r.value, Values(readings))
  {
    hide Rotated, Window, Sum, Average;
    var init, last := readings[..|readings| - 1], readings[|readings| - 1];
    if init == [] {
      assert Readings(Meant, n, init) == Defined(EMPTY) && Values(init) == [];
      FirstReading(n, last.value);
      assert Values(readings) == [last.value];
    } else {
      RefinesWindow(n, init);
      if last.Some? {
        RefinesRecord(n, Readings(Meant, n, init).value, Values(init), last.value);
      } else {
        assert Values(readings) == Values(init) + [] == Values(init);
      }
    }
  }

  /** With the wrap test as written, readings stay within the buffer exactly until `n + 1` of them have
      succeeded: the one after that would be written past its end. */
  lemma {:induction false} AsWrittenInBoundsIff(n: nat, readings: seq<Option<Temp>>)
    ensures Readings(AsWritten, n, readings).Defined?
       <==> StartsWell(n, readings) && |Values(readings)| <= n + 1
    ensures Readings(AsWritten, n, readings).Defined? && readings != [] ==>
              var h := Readings(AsWritten, n, readings).value;
              |h.window| == n && h.index == |Values(readings)| - 1
  {
    if readings != [] {
      AsWrittenInBoundsIff(n, readings[..|readings| - 1]);
      if readings[0].Some? {
        ValuesStart(readings);
      }
    }
  }

  /** While it stays in bounds the code as written keeps the same window as the meant one. */
  lemma {:induction false} AsWrittenAgrees(n: nat, readings: seq<Option<Temp>>)
    requires Readings(AsWritten, n, readings).Defined? && readings != []
    ensures Readings(Meant, n, readings).Defined?
    ensures Readings(AsWritten, n, readings).value.window == Readings(Meant, n, readings).value.window
    ensures var i := Readings(AsWritten, n, readings).value.index;
            Readings(Meant, n, readings).value.index == if i < n then i else 0
  {
    AsWrittenInBoundsIff(n, readings);
    if |readings| > 1 {
      var init := readings[..|readings| - 1];
      AsWrittenInBoundsIff(n, init);
      AsWrittenAgrees(n, init);
    } else {
      assert readings[..0] == [];
    }
  }

  lemma {:induction false} AllValues(readings: seq<Option<Temp>>)
    requires forall i :: 0 <= i < |readings| ==> readings[i].Some?
    ensures |Values(readings)| == |readings|
    ensures forall i :: 0 <= i < |readings| ==> Values(readings)[i] == readings[i].value
  {
    if readings != [] {
      AllValues(readings[..|readings| - 1]);
    }
  }

  /** The default eight intervals: the tenth successful reading is the first out of bounds. */
  lemma {:induction false} OutOfBoundsExample(readings: seq<Option<Temp>>)
    requires |readings| == 10 && forall i :: 0 <= i < 10 ==> readings[i].Some?
    ensures !Readings(AsWritten, 8, readings).Defined?
  {
    AllValues(readings);
    AsWrittenInBoundsIff(8, readings);
  }

  lemma {:induction false} SumAppend(a: seq<Temp>, b: seq<Temp>)
    ensures Sum(a + b) == Sum(a) + Sum(b)
  {
    if b == [] {
      assert a + b == a;
    } else {
      SumAppend(a, b[..|b| - 1]);
      assert (a + b)[..|a + b| - 1] == a + b[..|b| - 1];
    }
  }

  /** One changed reading moves the window sum by exactly that change. */
  lemma {:induction false} SumUpdate(w: seq<Temp>, i: nat, t: Temp)
    requires i < |w|
    ensures Sum(w[i := t]) == Sum(w) + t - w[i]
  {
    assert w == w[..i] + [w[i]] + w[i + 1..];
    assert w[i := t] == w[..i] + [t] + w[i + 1..];
    SumAppend(w[..i] + [w[i]], w[i + 1..]);
    SumAppend(w[..i] + [t], w[i + 1..]);
    SumAppend(w[..i], [w[i]]);
    SumAppend(w[..i], [t]);
    assert Sum([t]) == t by { assert [t][..0] == []; }
    assert Sum([w[i]]) == w[i] by { assert [w[i]][..0] == []; }
  }

  lemma {:induction false} SumBounds(w: seq<Temp>, lo: Temp, hi: Temp)
    requires forall i :: 0 <= i < |w| ==> lo <= w[i] <= hi
    ensures |w| * lo <= Sum(w) <= |w| * hi
  {
    if w != [] {
      SumBounds(w[..|w| - 1], lo, hi);
      assert |w| * lo == (|w| - 1) * lo + lo;
      assert |w| * hi == (|w| - 1) * hi + hi;
    }
  }

  lemma {:induction false} SumRotated(h: History)
    requires h.index <= |h.window|
    ensures Sum(Rotated(h)) == Sum(h.window)
  {
    SumAppend(h.window[h.index..], h.window[..h.index]);
    SumAppend(h.window[..h.index], h.window[h.index..]);
    assert h.window == h.window[..h.index] + h.window[h.index..];
  }

  /** Narrowing q + t to an int gives t exactly when q is a multiple of 2^32. */
  lemma {:induction false} NarrowedIs(q: int, t: Temp)
    requires -INT_LIMIT <= t < INT_LIMIT
    ensures AsInt(q + t) == t <==> q % UINT_RANGE == 0
  {
    var k := (q + t + INT_LIMIT) / UINT_RANGE;
    assert AsInt(q + t) == q + t - k * UINT_RANGE;
    QuotientUnique(k * UINT_RANGE, UINT_RANGE, k);
    if q % UINT_RANGE == 0 {
      QuotientUnique(q + t + INT_LIMIT, UINT_RANGE, q / UINT_RANGE);
    }
  }

  /** Division that truncates toward zero: what the mean of a window is meant to be. */
  function TruncMean(sum: int, n: nat): Temp
    requires n > 0
  {
    if sum >= 0 then sum / n else -(-sum / n)
  }

  /** The mean lies between the bounds of its readings, whatever their signs. */
  lemma {:induction false} MeanBetween(sum: int, n: nat, lo: Temp, hi: Temp)
    requires n > 0 && n * lo <= sum <= n * hi
    ensures lo <= TruncMean(sum, n) <= hi
  {
    if sum >= 0 {
      DivAtLeast(sum, n, lo);
      DivAtLeast(sum, n, hi + 1);
      assert n * (hi + 1) == n * hi + n;
    } else {
      DivAtLeast(-sum, n, -hi);
      DivAtLeast(-sum, n, 1 - lo);
      assert n * -hi == -(n * hi) && n * (1 - lo) == n - n * lo;
    }
  }

  /** A sum that is not negative is averaged exactly. */
  lemma {:induction false} AverageInRange(sum: int, n: nat, lo: Temp, hi: Temp)
    requires 0 < n < UINT_RANGE && -INT_LIMIT <= lo <= hi < INT_LIMIT
    requires n * lo <= sum <= n * hi && sum >= 0
    ensures Average(sum, n) == sum / n && lo <= sum / n <= hi
  {
    MeanBetween(sum, n, lo, hi);
    MulOrder(n, hi, INT_LIMIT);
    MulOrder(INT_LIMIT, n, UINT_RANGE);
    QuotientUnique(sum, 0x1_0000_0000_0000_0000, 0);
  }

  /** What remains of the quotient of 2^64 beyond a multiple of 2^32. */
  lemma {:induction false} WideQuotient(n: nat)
    requires 0 < n < UINT_RANGE
    ensures var q := UINT_RANGE * UINT_RANGE / n;
            q % UINT_RANGE == (UINT_RANGE % n) * UINT_RANGE / n
  {
    var k, r := UINT_RANGE / n, UINT_RANGE % n;
    var s := r * UINT_RANGE / n;
    MulOrder(UINT_RANGE, 0, r);
    MulOrder(UINT_RANGE, r, n - 1);
    DivAtLeast(r * UINT_RANGE, n, 0);
    DivAtLeast(r * UINT_RANGE, n, UINT_RANGE);
    assert UINT_RANGE * UINT_RANGE == n * (k * UINT_RANGE) + r * UINT_RANGE;
    assert n * (k * UINT_RANGE + s) == n * (k * UINT_RANGE) + n * s;
    QuotientUnique(UINT_RANGE * UINT_RANGE, n, k * UINT_RANGE + s);
    QuotientUnique(k * UINT_RANGE + s, UINT_RANGE, k);
  }

  /** It is nothing exactly when the divisor divides 2^32, and one exactly when the divisor is 2^32 - 1. */
  lemma {:induction false} WideRest(n: nat)
    requires 0 < n < UINT_RANGE
    ensures var rest := (UINT_RANGE % n) * UINT_RANGE / n;
            (rest == 0 <==> UINT_RANGE % n == 0) && (rest == 1 <==> n == UINT_RANGE - 1)
  {
    var r := UINT_RANGE % n;
    DivAtLeast(r * UINT_RANGE, n, 0);
    DivAtLeast(r * UINT_RANGE, n, 1);
    DivAtLeast(r * UINT_RANGE, n, 2);
    if 2 * n <= UINT_RANGE {
      if r > 0 {
        MulOrder(UINT_RANGE, 1, r);
      }
    } else {
      QuotientUnique(UINT_RANGE, n, 1);
      assert r == UINT_RANGE - n;
      if r > 1 {
        MulOrder(UINT_RANGE, 2, r);
      }
    }
  }

  lemma {:induction false} DivDifference(w: nat, a: nat, n: nat)
    requires n > 0
    ensures (w - a) / n == w / n - a / n - if w % n < a % n then 1 else 0
  {
    var q := w / n - a / n - if w % n < a % n then 1 else 0;
    assert n * q == n * (w / n) - n * (a / n) - if w % n < a % n then n else 0;
    QuotientUnique(w - a, n, q);
  }

  /** The remainders of 2^64 that matter. */
  lemma {:induction false} WideRemainder(n: nat)
    requires 0 < n < UINT_RANGE
    ensures UINT_RANGE % n == 0 ==> UINT_RANGE * UINT_RANGE % n == 0
    ensures n == UINT_RANGE - 1 ==> UINT_RANGE * UINT_RANGE % n == 1
  {
    var k := UINT_RANGE / n;
    if UINT_RANGE % n == 0 {
      assert UINT_RANGE * UINT_RANGE == n * (k * UINT_RANGE);
      QuotientUnique(UINT_RANGE * UINT_RANGE, n, k * UINT_RANGE);
    }
  }

  /** The program's average of any sum of `n` ints is the truncated mean exactly when the sum is not negative, or
      `n` divides both 2^32 and the sum; over 2^32 - 1 intervals, also when the sum leaves a remainder above one. */
  ghost predicate Exact(sum: int, n: nat)
    requires n > 0
  {
    || sum >= 0
    || (UINT_RANGE % n == 0 && -sum % n == 0)
    || (n == UINT_RANGE - 1 && -sum % n > 1)
  }

  /** The quotient the program narrows, for a sum below zero. */
  lemma {:induction false} NegativeQuotient(a: int, n: nat)
    requires 0 < n < UINT_RANGE && 0 < a <= n * INT_LIMIT
    ensures var wide := UINT_RANGE * UINT_RANGE;
            Average(-a, n) == AsInt(wide / n - (if wide % n < a % n then 1 else 0) + -(a / n))
    ensures 0 <= a / n <= INT_LIMIT
  {
    hide AsInt;
    MulOrder(INT_LIMIT, n, UINT_RANGE);
    QuotientUnique(-a, UINT_RANGE * UINT_RANGE, -1);
    DivDifference(UINT_RANGE * UINT_RANGE, a, n);
    DivAtLeast(a, n, 0);
    DivAtLeast(a, n, INT_LIMIT + 1);
    assert n * (INT_LIMIT + 1) == n * INT_LIMIT + n;
  }

  lemma {:induction false} LessOne(q: int, e: int)
    requires e == 0 || e == 1
    ensures (q - e) % UINT_RANGE == 0 <==> q % UINT_RANGE == e
  {
  }

  lemma {:induction false} NegativeSum(a: int, n: nat)
    requires 0 < n < UINT_RANGE && 0 < a <= n * INT_LIMIT
    ensures Average(-a, n) == -(a / n) <==> Exact(-a, n)
  {
    hide Average, AsInt;
    var q := UINT_RANGE * UINT_RANGE / n;
    var e := if UINT_RANGE * UINT_RANGE % n < a % n then 1 else 0;
    NegativeQuotient(a, n);
    NarrowedIs(q - e, -(a / n));
    LessOne(q, e);
    WideQuotient(n);
    WideRest(n);
    WideRemainder(n);
  }

  lemma {:induction false} SumNatural(sum: nat, n: nat)
    requires 0 < n < UINT_RANGE && sum < n * INT_LIMIT
    ensures Average(sum, n) == sum / n
  {
    MulOrder(INT_LIMIT, n, UINT_RANGE);
    QuotientUnique(sum, 0x1_0000_0000_0000_0000, 0);
    DivAtLeast(sum, n, 0);
    DivAtLeast(sum, n, INT_LIMIT);
  }

  lemma {:induction false} AverageExactIff(sum: int, n: nat)
    requires 0 < n < UINT_RANGE && -(n * INT_LIMIT) <= sum < n * INT_LIMIT
    ensures Average(sum, n) == TruncMean(sum, n) <==> Exact(sum, n)
  {
    hide Average;
    if sum >= 0 {
      assert n * -INT_LIMIT == -(n * INT_LIMIT);
      SumNatural(sum, n);
    } else {
      NegativeSum(-sum, n);
    }
  }

  /** The temperature returned against the mean of the abstract window, for any readings an int holds: the meant
      mean lies between the least and greatest reading, and the program returns it exactly when the window's sum
      is not negative, or the number of intervals divides both 2^32 and the sum. */
  lemma {:induction false} AverageOfWindow(n: nat, readings: seq<Option<Temp>>, lo: Temp, hi: Temp)
    requires readings != [] && StartsWell(n, readings) && Values(readings) != [] && n < UINT_RANGE
    requires -INT_LIMIT <= lo <= hi < INT_LIMIT
    requires forall i :: 0 <= i < n ==> lo <= Window(n, Values(readings))[i] <= hi
    ensures var w := Window(n, Values(readings));
            var r := Readings(Meant, n, readings);
            && r.Defined? && lo <= TruncMean(Sum(w), n) <= hi
            && (Average(Sum(r.value.window), n) == TruncMean(Sum(w), n) <==> Exact(Sum(w), n))
  {
    hide Readings, Window, Average, TruncMean, Exact;
    RefinesWindow(n, readings);
    var w := Window(n, Values(readings));
    SumRotated(Readings(Meant, n, readings).value);
    SumBounds(w, lo, hi);
    MeanBetween(Sum(w), n, lo, hi);
    MulOrder(n, -INT_LIMIT, lo);
    MulOrder(n, hi, INT_LIMIT - 1);
    assert n * -INT_LIMIT == -(n * INT_LIMIT) && n * (INT_LIMIT - 1) == n * INT_LIMIT - n;
    AverageExactIff(Sum(w), n);
  }

  /** Whether a window of `n` times the same reading averages to that reading. */
  predicate AveragesToItself(t: Temp, n: nat)
    requires n > 0
  {
    -INT_LIMIT <= t < INT_LIMIT && (t >= 0 || UINT_RANGE % n == 0)
  }

  /** Below zero the unsigned division counts: a constant negative temperature is averaged to itself
      exactly when the number of intervals divides 2^32. */
  lemma {:induction false} NegativeAverageIff(n: nat, t: Temp)
    requires 0 < n < UINT_RANGE && -INT_LIMIT <= t < 0
    ensures Average(n * t, n) == t <==> UINT_RANGE % n == 0
  {
    hide Average;
    MulOrder(n, -INT_LIMIT, t);
    MulOrder(n, t, -1);
    assert n * -t == -(n * t) && n * -INT_LIMIT == -(n * INT_LIMIT);
    QuotientUnique(-(n * t), n, -t);
    NegativeSum(-(n * t), n);
  }

  /** A constant temperature is averaged to itself exactly then. */
  lemma {:induction false} ConstantAverageIff(n: nat, t: Temp)
    requires 0 < n < UINT_RANGE && -INT_LIMIT <= t < INT_LIMIT
    ensures Average(n * t, n) == t <==> AveragesToItself(t, n)
  {
    hide Average;
    if t >= 0 {
      MulOrder(n, 0, t);
      AverageInRange(n * t, n, t, t);
      QuotientUnique(n * t, n, t);
    } else {
      NegativeAverageIff(n, t);
    }
  }

  /** Seven readings of zero and one of -1 over the default eight intervals average to -1 instead of 0. */
  lemma {:induction false} NegativeReadingExample()
    ensures Sum([0, 0, 0, 0, 0, 0, 0, -1]) == -1
    ensures Average(-1, 8) == -1 && TruncMean(-1, 8) == 0
  {
    SumBounds([0, 0, 0, 0, 0, 0, 0], 0, 0);
    assert [0, 0, 0, 0, 0, 0, 0, -1] == [0, 0, 0, 0, 0, 0, 0] + [-1];
  }

  /** Averaging over three intervals, a steady -1 reads as 1431655764. */
  lemma {:induction false} NegativeAverageExample()
    ensures Average(-3, 3) == 1431655764
  {
  }

  /** The sensor object: each call overwrites one slot of its history and stores the mean. */
  class Sensor {
    const rule: WrapRule
    const intervals: nat
    var tempHistory: seq<Temp>
    var tempHistoryI: nat
    var lastAvgTemp: Temp

    function State(): History
      reads this
    {
      History(tempHistory, tempHistoryI)
    }

    constructor (rule: WrapRule, intervals: nat)
      ensures State() == EMPTY && this.rule == rule && this.intervals == intervals
    {
      this.rule, this.intervals := rule, intervals;
      tempHistory, tempHistoryI, lastAvgTemp := [], 0, 0;
    }

    method Accumulate() returns (sum: int)
      ensures sum == Sum(tempHistory)
    {
      sum := 0;
      for i := 0 to |tempHistory|
        invariant sum == Sum(tempHistory[..i])
      {
        assert tempHistory[..i + 1][..i] == tempHistory[..i];
        sum := sum + tempHistory[i];
      }
      assert tempHistory[..|tempHistory|] == tempHistory;
    }

    /** `reading` is what the hardware returned for this call. */
    method GetAverageTemp(reading: Option<Temp>) returns (r: Outcome<Temp>)
      modifies this
      ensures match Read(rule, intervals, old(State()), reading)
              case Defined((h, t)) => State() == h && lastAvgTemp == t && r == Defined(t)
              case _ => r == Undefined
    {
      if reading.Some? {
        if tempHistory != [] {
          if tempHistoryI >= |tempHistory| {
            return Undefined;
          }
          tempHistory := tempHistory[tempHistoryI := reading.value];
          tempHistoryI := Advance(rule, tempHistoryI, |tempHistory|);
        } else {
          tempHistory := Filled(intervals, reading.value);
        }
      }
      if |tempHistory| == 0 {
        return Undefined;
      }
      var sum := Accumulate();
      lastAvgTemp := Average(sum, |tempHistory|);
      r := Defined(lastAvgTemp);
    }
  }
}
