/** The temperature-to-RPM curve as `Fan::update` reads it: constant outside the knots, and between two
    knots either the lower one (static) or an interpolation (dynamic). */
module Curve {
  import opened Basics
  import opened Division
  import opened Tables

  /** floor(x / y) for any non-zero divisor. */
  function FloorDiv(x: int, y: int): int
    requires y != 0
  {
    if y > 0 then x / y else (-x) / (-y)
  }

  /** floor + floor(temp / (floor key + ceiling key) * range). The RPM range is an unsigned difference; a
      zero key sum or a sum outside the unsigned range has no defined conversion back to an RPM. */
  function Interpolate(floor: Entry, ceil: Entry, temp: Temp): Outcome<Rpm> {
    var range := AsUint(ceil.value - floor.value);
    var keys := floor.key + ceil.key;
    if keys == 0 then Undefined
    else
      var r := floor.value + FloorDiv(temp * range, keys);
      if 0 <= r < UINT_RANGE then Defined(r) else Undefined
  }

  function CurveRpm(curve: Table, temp: Temp, isDynamic: bool): Outcome<Rpm> {
    var i := LowerBound(curve, temp);
    if i == |curve| then
      if curve == [] then Undefined else Defined(curve[|curve| - 1].value)
    else if i == 0 || curve[i].key == temp then Defined(curve[i].value)
    else if !isDynamic then Defined(curve[i - 1].value)
    else Interpolate(curve[i - 1], curve[i], temp)
  }

  /** A usable curve: some knot, no negative temperature, RPMs that never fall as it gets hotter. */
  ghost predicate Rising(curve: Table) {
    && curve != [] && Sorted(curve) && Monotone(curve)
    && curve[0].key >= 0
    && curve[|curve| - 1].value < UINT_RANGE
  }

  lemma {:induction false} InterpolateBetween(floor: Entry, ceil: Entry, temp: Temp)
    requires 0 <= floor.key < temp < ceil.key && floor.value <= ceil.value < UINT_RANGE
    ensures var r := Interpolate(floor, ceil, temp);
            && r == Defined(floor.value + temp * (ceil.value - floor.value) / (floor.key + ceil.key))
            && floor.value <= r.value <= ceil.value
  {
    var range := ceil.value - floor.value;
    var keys := floor.key + ceil.key;
    MulOrder(range, 0, temp);
    MulOrder(range, temp, keys);
    DivMonotone(0, temp * range, keys);
    DivMonotone(temp * range, keys * range, keys);
    QuotientUnique(0, keys, 0);
    QuotientUnique(keys * range, keys, range);
  }

  /** The curve's RPM lies between the knots on either side of the temperature, in both modes. */
  lemma {:induction false} BetweenKnots(curve: Table, temp: Temp, isDynamic: bool)
    requires Rising(curve)
    ensures var r := CurveRpm(curve, temp, isDynamic);
            var i := LowerBound(curve, temp);
            && r.Defined?
            && (0 < i ==> curve[i - 1].value <= r.value)
            && (i < |curve| ==> r.value <= curve[i].value)
            && curve[0].value <= r.value <= curve[|curve| - 1].value
  {
    var i := LowerBound(curve, temp);
    if 0 < i < |curve| && curve[i].key != temp && isDynamic {
      assert curve[0].key <= curve[i - 1].key;
      assert curve[i].value <= curve[|curve| - 1].value;
      InterpolateBetween(curve[i - 1], curve[i], temp);
    }
  }

  lemma {:induction false} LowerBoundOrder(t: Table, x: int, y: int)
    requires x <= y
    ensures LowerBound(t, x) <= LowerBound(t, y)
  {
  }

  /** Within one segment the interpolation follows the temperature. */
  lemma {:induction false} InterpolateMonotone(floor: Entry, ceil: Entry, cool: Temp, hot: Temp)
    requires 0 <= floor.key < cool <= hot < ceil.key && floor.value <= ceil.value < UINT_RANGE
    ensures Interpolate(floor, ceil, cool).Defined? && Interpolate(floor, ceil, hot).Defined?
    ensures Interpolate(floor, ceil, cool).value <= Interpolate(floor, ceil, hot).value
  {
    InterpolateBetween(floor, ceil, cool);
    InterpolateBetween(floor, ceil, hot);
    MulOrder(ceil.value - floor.value, cool, hot);
    DivMonotone(cool * (ceil.value - floor.value), hot * (ceil.value - floor.value), floor.key + ceil.key);
  }

  /** Across all knots, in both modes, a hotter reading never asks for a lower RPM. */
  lemma {:induction false} CurveMonotone(curve: Table, cool: Temp, hot: Temp, isDynamic: bool)
    requires Rising(curve) && cool <= hot
    ensures CurveRpm(curve, cool, isDynamic).Defined? && CurveRpm(curve, hot, isDynamic).Defined?
    ensures CurveRpm(curve, cool, isDynamic).value <= CurveRpm(curve, hot, isDynamic).value
  {
    var i, j := LowerBound(curve, cool), LowerBound(curve, hot);
    LowerBoundOrder(curve, cool, hot);
    BetweenKnots(curve, cool, isDynamic);
    BetweenKnots(curve, hot, isDynamic);
    if i == j && 0 < i < |curve| && curve[i].key != cool && curve[i].key != hot && isDynamic {
      assert curve[0].key <= curve[i - 1].key;
      InterpolateMonotone(curve[i - 1], curve[i], cool, hot);
    }
  }

  /** What the curve asks for: the first knot's RPM up to its temperature; from there on, in static mode the
      RPM of the last knot not hotter than the reading, in dynamic mode that knot's RPM at the knot and beyond
      the last one, and the interpolation in between. */
  lemma {:induction false} CurveIs(curve: Table, temp: Temp, i: nat)
    requires Sorted(curve) && i < |curve|
    requires curve[i].key <= temp && (i + 1 < |curve| ==> temp < curve[i + 1].key)
    ensures CurveRpm(curve, temp, false) == Defined(curve[i].value)
    ensures CurveRpm(curve, temp, true) ==
            if curve[i].key == temp || i + 1 == |curve| then Defined(curve[i].value)
            else Interpolate(curve[i], curve[i + 1], temp)
    ensures forall cold, isDynamic :: cold <= curve[0].key ==>
              CurveRpm(curve, cold, isDynamic) == Defined(curve[0].value)
  {
    hide Interpolate;
    LowerBoundIs(curve, temp, if curve[i].key == temp then i else i + 1);
    forall cold, isDynamic | cold <= curve[0].key ensures CurveRpm(curve, cold, isDynamic) == Defined(curve[0].value) {
      LowerBoundIs(curve, cold, 0);
    }
  }

  /** On a rising segment the interpolation adds the weighted range. */
  lemma {:induction false} CurveRises(curve: Table, temp: Temp, i: nat)
    requires Sorted(curve) && i + 1 < |curve| && 0 <= curve[i].key < temp < curve[i + 1].key
    requires curve[i].value <= curve[i + 1].value < UINT_RANGE
    ensures CurveRpm(curve, temp, true) ==
            Defined(curve[i].value + temp * (curve[i + 1].value - curve[i].value) / (curve[i].key + curve[i + 1].key))
  {
    hide CurveRpm, Interpolate, Sorted;
    CurveIs(curve, temp, i);
    InterpolateBetween(curve[i], curve[i + 1], temp);
  }

  /** `x` with the sign it has relative to `y`. */
  function Toward(x: int, y: int): int {
    if y > 0 then x else -x
  }

  lemma {:induction false} FloorDivWithin(x: int, y: int, lo: int, hi: int)
    requires y != 0
    ensures lo <= FloorDiv(x, y) < hi <==> Abs(y) * lo <= Toward(x, y) < Abs(y) * hi
  {
    DivAtLeast(Toward(x, y), Abs(y), lo);
    DivAtLeast(Toward(x, y), Abs(y), hi);
  }

  /** The interpolated RPM is one the program's type can hold, without dividing. */
  ghost predicate Fits(floor: Entry, ceil: Entry, temp: Temp) {
    var keys := floor.key + ceil.key;
    var share := Toward(temp, keys) * AsUint(ceil.value - floor.value);
    keys != 0 && -(Abs(keys) * floor.value) <= share < Abs(keys) * (UINT_RANGE - floor.value)
  }

  lemma {:induction false} ShareOf(temp: Temp, keys: int, range: nat)
    ensures Toward(temp * range, keys) == Toward(temp, keys) * range
  {
  }

  /** The interpolation is defined exactly when the two knots are not opposite and the RPM fits. */
  lemma {:induction false} InterpolateDefinedIff(floor: Entry, ceil: Entry, temp: Temp)
    ensures Interpolate(floor, ceil, temp).Defined? <==> Fits(floor, ceil, temp)
  {
    hide FloorDiv, Toward;
    var range := AsUint(ceil.value - floor.value);
    var keys := floor.key + ceil.key;
    if keys != 0 {
      ShareOf(temp, keys, range);
      FloorDivWithin(temp * range, keys, 0 - floor.value, UINT_RANGE - floor.value);
    }
  }

  /** The curve has an RPM for the temperature: some knot and, strictly between two knots in dynamic mode, an
      interpolation that fits. */
  ghost predicate Answers(curve: Table, temp: Temp, isDynamic: bool) {
    var i := LowerBound(curve, temp);
    && curve != []
    && (isDynamic && 0 < i < |curve| && curve[i].key != temp ==> Fits(curve[i - 1], curve[i], temp))
  }

  lemma {:induction false} CurveDefinedIff(curve: Table, temp: Temp, isDynamic: bool)
    ensures CurveRpm(curve, temp, isDynamic).Defined? <==> Answers(curve, temp, isDynamic)
  {
    var i := LowerBound(curve, temp);
    if 0 < i < |curve| {
      InterpolateDefinedIff(curve[i - 1], curve[i], temp);
    }
  }

  /** The RPM lies between those of the two knots. */
  ghost predicate Between(r: Outcome<Rpm>, floor: Entry, ceil: Entry) {
    r.Defined? && (floor.value <= r.value <= ceil.value || ceil.value <= r.value <= floor.value)
  }

  /** When it does: the weight stays within 0 and 1 up to rounding on a rising segment; on a falling one, whose
      unsigned range is 2^32 less the drop, only if the weighted range is within the drop below zero. */
  ghost predicate StaysBetween(floor: Entry, ceil: Entry, temp: Temp) {
    var keys := floor.key + ceil.key;
    var range := AsUint(ceil.value - floor.value);
    && keys != 0
    && if floor.value <= ceil.value then
         range == 0 || (0 <= Toward(temp, keys) && (Toward(temp, keys) - Abs(keys)) * range < Abs(keys))
       else
         Abs(keys) * (ceil.value - floor.value) <= Toward(temp, keys) * range < Abs(keys)
  }

  lemma {:induction false} WithinRise(x: int, n: nat, range: nat)
    ensures n * 0 <= x * range < n * (range + 1) <==>
            (range == 0 && n > 0) || (range > 0 && 0 <= x && (x - n) * range < n)
  {
    assert n * (range + 1) == n * range + n;
    assert (x - n) * range == x * range - n * range;
    if range > 0 {
      assert 0 <= x * range <==> 0 <= x by {
        if x >= 0 {
          MulOrder(range, 0, x);
        } else {
          MulOrder(range, x, -1);
        }
      }
    }
  }

  lemma {:induction false} InterpolateBetweenIff(floor: Entry, ceil: Entry, temp: Temp)
    requires floor.value < UINT_RANGE && ceil.value < UINT_RANGE
    ensures Between(Interpolate(floor, ceil, temp), floor, ceil) <==> StaysBetween(floor, ceil, temp)
  {
    hide FloorDiv, Toward;
    var range := AsUint(ceil.value - floor.value);
    var keys := floor.key + ceil.key;
    if keys != 0 {
      ShareOf(temp, keys, range);
      if floor.value <= ceil.value {
        FloorDivWithin(temp * range, keys, 0, range + 1);
        WithinRise(Toward(temp, keys), Abs(keys), range);
      } else {
        FloorDivWithin(temp * range, keys, ceil.value - floor.value, 1);
      }
    }
  }

  /** Between knots that are not below zero, with RPMs an int can hold: exactly on segments that do not fall. */
  lemma {:induction false} FallingLeaves(floor: Entry, ceil: Entry, temp: Temp)
    requires 0 <= floor.key < temp < ceil.key < INT_LIMIT && floor.value < INT_LIMIT && ceil.value < INT_LIMIT
    ensures StaysBetween(floor, ceil, temp) <==> floor.value <= ceil.value
  {
    var range := AsUint(ceil.value - floor.value);
    var keys := floor.key + ceil.key;
    if floor.value <= ceil.value {
      MulOrder(range, temp - keys, 0);
      assert (temp - keys) * range <= 0;
    } else {
      assert range > INT_LIMIT;
      MulOrder(range, if floor.key == 0 then 1 else 2, temp);
      assert temp * range >= keys;
    }
  }

  /** The code's RPM against the promise that it lies between the knots on either side, for every curve in
      dynamic mode: exactly on segments where the weighted range stays between, and with knots not below zero
      exactly on those that do not fall. */
  lemma {:induction false} BetweenKnotsIff(curve: Table, temp: Temp, i: nat)
    requires Sorted(curve) && i + 1 < |curve| && curve[i].key < temp < curve[i + 1].key
    requires curve[i].value < UINT_RANGE && curve[i + 1].value < UINT_RANGE
    ensures Between(CurveRpm(curve, temp, true), curve[i], curve[i + 1]) <==>
            StaysBetween(curve[i], curve[i + 1], temp)
    ensures 0 <= curve[i].key && curve[i + 1].key < INT_LIMIT && curve[i].value < INT_LIMIT
            && curve[i + 1].value < INT_LIMIT ==>
              (Between(CurveRpm(curve, temp, true), curve[i], curve[i + 1]) <==>
               curve[i].value <= curve[i + 1].value)
  {
    hide StaysBetween, Interpolate;
    CurveIs(curve, temp, i);
    InterpolateBetweenIff(curve[i], curve[i + 1], temp);
    if 0 <= curve[i].key && curve[i + 1].key < INT_LIMIT && curve[i].value < INT_LIMIT
       && curve[i + 1].value < INT_LIMIT
    {
      FallingLeaves(curve[i], curve[i + 1], temp);
    }
  }

  /** A curve that falls from 1200 to 800 RPM asks for 2147484648 halfway and for 800 beyond; one from -5 to 10
      degrees asks for 1440 RPM at 8, above both of its knots. */
  lemma {:induction false} NotBetweenExample()
    ensures CurveRpm([Entry(30, 1200), Entry(50, 800)], 40, true) == Defined(2147484648)
    ensures CurveRpm([Entry(30, 1200), Entry(50, 800)], 60, true) == Defined(800)
    ensures CurveRpm([Entry(-5, 800), Entry(10, 1200)], 8, true) == Defined(1440)
  {
    CurveIs([Entry(30, 1200), Entry(50, 800)], 40, 0);
    CurveIs([Entry(30, 1200), Entry(50, 800)], 60, 1);
    CurveIs([Entry(-5, 800), Entry(10, 1200)], 8, 0);
  }

  lemma {:induction false} CrossMultiply(a: int, b: int, c: int, d: int)
    requires b != 0 && d != 0
    ensures a as real / b as real == c as real / d as real <==> a * d == c * b
  {
    var x, y := a as real / b as real, c as real / d as real;
    assert x * b as real == a as real && y * d as real == c as real;
    assert (a * d) as real == x * (b as real * d as real);
    assert (c * b) as real == y * (b as real * d as real);
    assert b as real * d as real != 0.0;
  }

  /** The documentation promises interpolation between the two knots. The weight in use is
      temp / (floor + ceiling) instead of (temp - floor) / (ceiling - floor): they agree exactly when the
      lower knot is at zero or the temperature is the midpoint, whatever the signs of the knots. */
  lemma {:induction false} WeightIsLinearIff(floor: int, ceil: int, temp: Temp)
    requires floor < temp < ceil && floor + ceil != 0
    ensures temp as real / (floor + ceil) as real == (temp - floor) as real / (ceil - floor) as real
       <==> floor == 0 || 2 * temp == floor + ceil
  {
    CrossMultiply(temp, floor + ceil, temp - floor, ceil - floor);
    assert temp * (ceil - floor) - (temp - floor) * (floor + ceil) == floor * (floor + ceil - 2 * temp);
  }

  /** One degree above the lower knot of (30: 800, 50: 1200) the curve already asks for 955, not 820. */
  lemma {:induction false} WeightExample()
    ensures CurveRpm([Entry(30, 800), Entry(50, 1200)], 40, true) == Defined(1000)
    ensures CurveRpm([Entry(30, 800), Entry(50, 1200)], 31, true) == Defined(955)
  {
  }
}
