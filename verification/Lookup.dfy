/** Lookups in a fan's rpm_to_pwm map: the PWM for an RPM with its kick-start, and the RPM for a
    configured PWM or percentage. */
module Lookup {
  import opened Basics
  import opened Division
  import opened Tables

  /** The entry whose key is closest to `rpm`, as `find_closest_pwm` picks it. */
  function ClosestIndex(t: Table, rpm: Rpm): (c: nat)
    requires t != []
    ensures c < |t|
  {
    var ge := LowerBound(t, rpm);
    if ge == 0 then 0
    else if ge < |t| && rpm - t[ge - 1].key > t[ge].key - rpm then ge
    else ge - 1
  }

  /** A stopped fan needs its start PWM to begin turning; at or below the lowest point the function
      returns before asking. */
  function FindClosestPwm(t: Table, startPwm: Pwm, rpm: Rpm, fanRpm: Rpm): Outcome<Pwm> {
    if t == [] then Undefined
    else
      var pwm := t[ClosestIndex(t, rpm)].value;
      if LowerBound(t, rpm) == 0 then Defined(pwm)
      else if 0 < pwm < startPwm && fanRpm == 0 then Defined(startPwm)
      else Defined(pwm)
  }

  function Distance(t: Table, i: nat, rpm: Rpm): nat
    requires i < |t|
  {
    Abs(t[i].key - rpm)
  }

  /** The index minimises the distance over the whole map, and every lower entry is strictly further. */
  ghost predicate LeastArgmin(t: Table, rpm: Rpm, c: nat) {
    && c < |t|
    && (forall j :: 0 <= j < |t| ==> Distance(t, c, rpm) <= Distance(t, j, rpm))
    && (forall j :: 0 <= j < c ==> Distance(t, c, rpm) < Distance(t, j, rpm))
  }

  /** Two neighbours suffice: the choice is the argmin over the whole map, ties to the lower RPM, and no
      other index is. */
  lemma {:induction false} ClosestIsArgmin(t: Table, rpm: Rpm, c: nat)
    requires t != [] && Sorted(t)
    ensures LeastArgmin(t, rpm, c) <==> c == ClosestIndex(t, rpm)
  {
    var k := ClosestIndex(t, rpm);
    var ge := LowerBound(t, rpm);
    forall j | 0 <= j < |t|
      ensures Distance(t, k, rpm) <= Distance(t, j, rpm)
      ensures j < k ==> Distance(t, k, rpm) < Distance(t, j, rpm)
    {
      if j < ge {
        assert t[j].key <= t[ge - 1].key;
      } else {
        assert t[ge].key <= t[j].key;
      }
    }
    assert LeastArgmin(t, rpm, k);
    assert LeastArgmin(t, rpm, c) ==> Distance(t, c, rpm) <= Distance(t, k, rpm);
  }

  /** The PWM written is that of the nearest entry; only a stopped fan may get its start PWM instead, and
      only when the entry's own would not get it turning. */
  lemma {:induction false} WritesNearest(t: Table, startPwm: Pwm, rpm: Rpm, fanRpm: Rpm, c: nat)
    requires t != [] && Sorted(t) && LeastArgmin(t, rpm, c)
    ensures var p := FindClosestPwm(t, startPwm, rpm, fanRpm);
            p == Defined(t[c].value) || (fanRpm == 0 && 0 < t[c].value < startPwm && p == Defined(startPwm))
  {
    ClosestIsArgmin(t, rpm, c);
  }

  /** A stopped fan is never left on a non-zero PWM below its start PWM, except at the lowest point. */
  lemma {:induction false} KickStartIff(t: Table, startPwm: Pwm, rpm: Rpm)
    requires t != [] && Sorted(t)
    ensures var p := FindClosestPwm(t, startPwm, rpm, 0);
            p.Defined? && ((p.value == 0 || p.value >= startPwm) <==> !(rpm <= t[0].key && 0 < t[0].value < startPwm))
  {
  }

  /** A fan left below its start PWM: lowest point 800 RPM at PWM 60, start PWM 90. */
  lemma {:induction false} KickStartExample()
    ensures FindClosestPwm([Entry(800, 60), Entry(2000, 255)], 90, 700, 0) == Defined(60)
  {
  }

  /** On a monotone map a higher RPM never gets a lower PWM, the kick-start included. */
  lemma {:induction false} FindClosestMonotone(t: Table, startPwm: Pwm, low: Rpm, high: Rpm, fanRpm: Rpm)
    requires t != [] && Sorted(t) && Monotone(t) && low <= high
    ensures FindClosestPwm(t, startPwm, low, fanRpm).Defined? && FindClosestPwm(t, startPwm, high, fanRpm).Defined?
    ensures FindClosestPwm(t, startPwm, low, fanRpm).value <= FindClosestPwm(t, startPwm, high, fanRpm).value
  {
  }

  /** The first entry whose PWM is not below `pwm`. */
  function FirstReaching(t: Table, pwm: Pwm): (i: nat)
    ensures i <= |t|
    ensures i < |t| ==> pwm <= t[i].value
    ensures forall j :: 0 <= j < i ==> t[j].value < pwm
  {
    if t == [] || pwm <= t[0].value then 0 else 1 + FirstReaching(t[1..], pwm)
  }

  /** The entry `pwm_to_rpm` picks; `prev(begin)` has no defined value. */
  function PwmIndex(t: Table, pwm: Pwm): Outcome<nat>
    requires t != []
  {
    var p := ClampPwm(pwm);
    var i := FirstReaching(t, p);
    if i == |t| then Defined(i - 1)
    else if t[i].value == p then Defined(i)
    else if i == 0 then Undefined
    else if i == 1 || t[i].value - p < p - t[i - 1].value then Defined(i)
    else Defined(i - 1)
  }

  function PwmToRpm(t: Table, pwm: Pwm): Outcome<Rpm> {
    if t == [] then Thrown
    else
      match PwmIndex(t, pwm)
      case Defined(i) => if t[i].key >= 0 then Defined(t[i].key) else Undefined
      case _ => Undefined
  }

  /** A PWM has an RPM exactly when it is not below the first entry's PWM. */
  lemma {:induction false} PwmToRpmDefinedIff(t: Table, pwm: Pwm)
    requires t != [] && KeysNatural(t)
    ensures PwmToRpm(t, pwm).Defined? <==> t[0].value <= ClampPwm(pwm)
  {
  }

  /** PWM 30 on a map that starts at PWM 60. */
  lemma {:induction false} PwmToRpmUndefinedExample()
    ensures PwmToRpm([Entry(800, 60), Entry(2000, 255)], 30) == Undefined
  {
  }

  /** Every PWM of a monotone map survives the trip to an RPM and back while the fan spins. */
  lemma {:induction false} PwmRoundTrip(t: Table, startPwm: Pwm, i: nat, fanRpm: Rpm)
    requires i < |t| && Sorted(t) && Monotone(t) && KeysNatural(t)
    requires t[i].value <= PWM_MAX && fanRpm > 0
    ensures PwmToRpm(t, t[i].value).Defined?
    ensures FindClosestPwm(t, startPwm, PwmToRpm(t, t[i].value).value, fanRpm) == Defined(t[i].value)
  {
  }

  /** The entry is the nearest by PWM, unless the request falls between the first two entries and closer
      to the first: there the code always takes the second. */
  lemma {:induction false} PwmToRpmNearestIff(t: Table, pwm: Pwm)
    requires Sorted(t) && Monotone(t) && t != []
    requires t[0].value <= ClampPwm(pwm)
    ensures var p := ClampPwm(pwm);
            var i := PwmIndex(t, pwm);
            && i.Defined? && i.value < |t|
            && ((forall j :: 0 <= j < |t| ==> Abs(t[i.value].value - p) <= Abs(t[j].value - p))
                <==> !(|t| > 1 && t[0].value < p < t[1].value && p - t[0].value < t[1].value - p))
  {
  }

  /** PWM 10 is nearest to the standstill at 0, and read as 800 RPM at 60. */
  lemma {:induction false} PwmToRpmNearestExample()
    ensures PwmToRpm([Entry(0, 0), Entry(800, 60)], 10) == Defined(800)
  {
  }

  /** The lowest running speed: the first entry, or the second when the first is a standstill. */
  function MinRunning(t: Table): int
    requires t != []
  {
    if t[0].key == 0 && |t| > 1 then t[1].key else t[0].key
  }

  function PercentToRpm(t: Table, percent: Percent): Outcome<Rpm> {
    if percent == 0 then Defined(0)
    else if t == [] then Thrown
    else
      var percent := if percent > 100 then 100 else percent;
      var range := AsUint(t[|t| - 1].key - MinRunning(t));
      Defined(AsUint(if percent == 1 then MinRunning(t) else percent / 100 * range + MinRunning(t)))
  }

  /** What a percentage is meant to be: that share of the range from the lowest running speed to the top. */
  function Proportional(t: Table, percent: Percent): int
    requires t != []
  {
    if percent == 0 then 0
    else if percent == 1 then MinRunning(t)
    else
      var percent := if percent > 100 then 100 else percent;
      percent * (t[|t| - 1].key - MinRunning(t)) / 100 + MinRunning(t)
  }

  lemma {:induction false} MinRunningBounds(t: Table)
    requires t != [] && Sorted(t) && KeysNatural(t)
    ensures 0 <= MinRunning(t) <= t[|t| - 1].key
  {
  }

  /** Every percentage in between gives the lowest running speed, and is meant to give its share above that. */
  lemma {:induction false} PercentBetween(t: Table, percent: Percent)
    requires t != [] && 0 <= MinRunning(t) <= t[|t| - 1].key < UINT_RANGE && 1 < percent < 100
    ensures PercentToRpm(t, percent) == Defined(MinRunning(t))
    ensures Proportional(t, percent) == MinRunning(t) <==> percent * (t[|t| - 1].key - MinRunning(t)) < 100
  {
    hide AsUint, MinRunning;
    var range := t[|t| - 1].key - MinRunning(t);
    QuotientUnique(percent, 100, 0);
    MulOrder(percent, 0, range);
    DivAtLeast(percent * range, 100, 0);
    DivAtLeast(percent * range, 100, 1);
  }

  lemma {:induction false} PercentEnds(t: Table, percent: Percent)
    requires t != [] && 0 <= MinRunning(t) <= t[|t| - 1].key < UINT_RANGE && (percent <= 1 || percent >= 100)
    ensures PercentToRpm(t, percent) == Defined(Proportional(t, percent))
  {
    hide AsUint, MinRunning;
    QuotientUnique(100 * (t[|t| - 1].key - MinRunning(t)), 100, t[|t| - 1].key - MinRunning(t));
  }

  /** The division comes before the multiplication, so every percentage from 2 to 99 gives the lowest
      running speed. The result is the meant share exactly at 0, 1 and from 100 on, or when the
      share rounds to nothing anyway. */
  lemma {:induction false} PercentIff(t: Table, percent: Percent)
    requires t != [] && Sorted(t) && KeysNatural(t) && t[|t| - 1].key < UINT_RANGE
    ensures PercentToRpm(t, percent) == Defined(Proportional(t, percent))
       <==> percent <= 1 || percent >= 100 || percent * (t[|t| - 1].key - MinRunning(t)) < 100
  {
    hide Sorted, AsUint, PercentToRpm, Proportional;
    MinRunningBounds(t);
    if 1 < percent < 100 {
      PercentBetween(t, percent);
    } else {
      PercentEnds(t, percent);
    }
  }

  /** The greatest key of the map. */
  ghost predicate TopKey(t: Table, r: int) {
    && (exists i :: 0 <= i < |t| && t[i].key == r)
    && forall i :: 0 <= i < |t| ==> t[i].key <= r
  }

  /** The least key of the map at which the fan turns, or its only key. */
  ghost predicate LowestRunning(t: Table, r: int) {
    && (exists i :: 0 <= i < |t| && t[i].key == r)
    && (r != 0 || |t| == 1)
    && forall i :: 0 <= i < |t| && t[i].key != 0 ==> r <= t[i].key
  }

  lemma {:induction false} LowestIs(t: Table, r: int)
    requires t != [] && Sorted(t) && KeysNatural(t)
    ensures LowestRunning(t, r) <==> r == MinRunning(t)
  {
  }

  lemma {:induction false} TopIs(t: Table, r: int)
    requires t != [] && Sorted(t)
    ensures TopKey(t, r) <==> r == t[|t| - 1].key
  {
    assert t[|t| - 1].key == t[|t| - 1].key;
  }

  /** What a percentage of the map yields: nothing for 0, the lowest running speed up to 99, the top speed from
      100 on. */
  lemma {:induction false} PercentIs(t: Table, percent: Percent, r: Rpm)
    requires t != [] && Sorted(t) && KeysNatural(t) && t[|t| - 1].key < UINT_RANGE
    ensures PercentToRpm(t, percent) == Defined(r)
       <==> if percent == 0 then r == 0
            else if percent < 100 then LowestRunning(t, r)
            else TopKey(t, r)
  {
    hide AsUint;
    MinRunningBounds(t);
    if 1 < percent < 100 {
      PercentBetween(t, percent);
    }
    LowestIs(t, r);
    TopIs(t, r);
  }

  /** On an untested fan both conversions throw, except that nothing asked for is nothing. */
  lemma {:induction false} EmptyMap(request: nat)
    ensures PwmToRpm([], request) == Thrown
    ensures PercentToRpm([], request) == if request == 0 then Defined(0) else Thrown
  {
  }

  /** A PWM of the map yields the key of its first entry, as long as no earlier PWM exceeds it. */
  lemma {:induction false} PwmOfEntry(t: Table, i: nat)
    requires i < |t| && KeysNatural(t) && t[i].value <= PWM_MAX
    requires forall j :: 0 <= j < i ==> t[j].value < t[i].value
    ensures PwmToRpm(t, t[i].value) == Defined(t[i].key)
  {
  }

  /** The entry after the first that is nearest by PWM, the lower of two that are as near. */
  ghost predicate NearestAfterFirst(t: Table, p: Pwm, i: nat) {
    && 0 < i < |t|
    && (forall j :: 0 < j < |t| ==> Abs(t[i].value - p) <= Abs(t[j].value - p))
    && (forall j :: 0 < j < i ==> Abs(t[i].value - p) < Abs(t[j].value - p))
  }

  lemma {:induction false} PwmIndexNearest(t: Table, pwm: Pwm)
    requires |t| > 1 && t[0].value < ClampPwm(pwm) && forall j, k :: 0 <= j < k < |t| ==> t[j].value < t[k].value
    ensures var c := PwmIndex(t, pwm); c.Defined? && NearestAfterFirst(t, ClampPwm(pwm), c.value)
  {
    var p := ClampPwm(pwm);
    var f := FirstReaching(t, p);
    var c := PwmIndex(t, pwm).value;
    forall j | 0 < j < |t|
      ensures Abs(t[c].value - p) <= Abs(t[j].value - p) && (j < c ==> Abs(t[c].value - p) < Abs(t[j].value - p))
    {
      if j < f {
        assert t[j].value <= t[f - 1].value;
      } else {
        assert t[f].value <= t[j].value;
      }
    }
  }

  /** On a strictly rising map any PWM above the first yields that entry and no other. */
  lemma {:induction false} PwmBetweenEntries(t: Table, pwm: Pwm, i: nat)
    requires Sorted(t) && KeysNatural(t) && forall j, k :: 0 <= j < k < |t| ==> t[j].value < t[k].value
    requires |t| > 1 && t[0].value < ClampPwm(pwm) && i < |t|
    ensures PwmToRpm(t, pwm) == Defined(t[i].key) <==> NearestAfterFirst(t, ClampPwm(pwm), i)
  {
    hide PwmIndex, Abs;
    PwmIndexNearest(t, pwm);
    var c := PwmIndex(t, pwm).value;
    assert t[i].key == t[c].key ==> i == c;
  }

  /** Half speed of a 1000 to 5000 RPM fan comes out as 1000 RPM. */
  lemma {:induction false} PercentExample()
    ensures PercentToRpm([Entry(0, 0), Entry(1000, 90), Entry(5000, 255)], 50) == Defined(1000)
    ensures Proportional([Entry(0, 0), Entry(1000, 90), Entry(5000, 255)], 50) == 3000
  {
  }
}
