/** The repair of NVIDIA's coolbits value: five flag bits, of which bit 2 (value 4) enables manual fan
    control. */
module Coolbits {
  import opened Basics
  import opened Division

  const BITS: nat := 5
  const FAN_CONTROL: nat := 2

  /** The value of a bit. */
  function Power(i: nat): (p: nat)
    ensures p >= 1
  {
    if i == 0 then 1 else 2 * Power(i - 1)
  }

  predicate BitSet(v: nat, i: nat) {
    v / Power(i) % 2 == 1
  }

  /** The five bits of `v` if it fits in them, all of them otherwise. */
  function Capped(v: nat): nat {
    Min(v, 31)
  }

  /** `v` capped, with the fan control bit set. */
  function Repaired(v: nat): nat {
    Capped(v) + if BitSet(Capped(v), FAN_CONTROL) then 0 else 4
  }

  /** What is left of `v` once the bits from `i` up have been subtracted greedily. */
  function Left(v: nat, i: nat): int {
    if v >= 31 then v - 32 + Power(i) else v % Power(i)
  }

  lemma {:induction false} HalfStep(v: nat, p: nat)
    requires p >= 1
    ensures v % (2 * p) == v % p + p * (v / p % 2)
  {
    var q, r := v / p, v % p;
    var a, b := q / 2, q % 2;
    assert q == 2 * a + b && v == p * q + r;
    assert p * q == 2 * p * a + p * b;
    QuotientUnique(v, 2 * p, a);
  }

  lemma {:induction false} Powers()
    ensures Power(0) == 1 && Power(1) == 2 && Power(2) == 4 && Power(3) == 8 && Power(4) == 16 && Power(5) == 32
  {
  }

  lemma {:induction false} AllBits(i: nat)
    requires i < BITS
    ensures BitSet(31, i)
  {
    Powers();
    if i == 0 {
    } else if i == 1 {
    } else if i == 2 {
    } else if i == 3 {
    } else {
      assert i == 4;
    }
  }

  lemma {:induction false} Greedy(v: nat, i: nat)
    requires i < BITS
    ensures Left(v, i + 1) >= Power(i) <==> BitSet(Capped(v), i)
    ensures Left(v, i) == if Left(v, i + 1) >= Power(i) then Left(v, i + 1) - Power(i) else Left(v, i + 1)
  {
    AllBits(i);
    HalfStep(v, Power(i));
    var b := v / Power(i) % 2;
    assert Power(i) * b == if b == 1 then Power(i) else 0;
  }

  lemma {:induction false} QuotientAtLeastOne(v: nat, p: nat)
    requires p >= 1
    ensures v / p >= 1 <==> v >= p
  {
  }

  /** The greedy subtraction sets exactly the bits of the capped value and leaves what exceeds 31; the new
      value has the fan control bit and every other bit of the capped value, and it is written exactly when
      it differs from the initial one. */
  method EnableFanControlBit(initial: nat) returns (value: nat, remainder: nat, changed: bool)
    ensures remainder == if initial > 31 then initial - 31 else 0
    ensures value == Repaired(initial)
    ensures changed <==> initial > 31 || !BitSet(initial, FAN_CONTROL)
  {
    Powers();
    QuotientUnique(if initial < 32 then initial else 0, 32, 0);
    var cur: nat := initial;
    var isSet := new bool[5](_ => false);
    var i: nat := BITS;
    while i > 0
      invariant i <= BITS
      invariant cur == Left(initial, i)
      invariant forall j: nat :: i <= j < BITS ==> isSet[j] == BitSet(Capped(initial), j)
    {
      i := i - 1;
      Greedy(initial, i);
      QuotientAtLeastOne(cur, Power(i));
      isSet[i] := cur / Power(i) >= 1;
      if isSet[i] {
        cur := cur - Power(i);
      }
    }
    QuotientUnique(initial, 1, initial);
    remainder := cur;
    value := initial;
    if cur > 0 {
      value := value - cur;
    }
    if !isSet[FAN_CONTROL] {
      value := value + Power(FAN_CONTROL);
    }
    changed := value != initial;
  }

  /** Adding 4 where bit 2 is clear changes only that bit. */
  lemma {:induction false} SetsBit(c: nat, i: nat)
    requires c < 32 && i < BITS
    ensures !BitSet(c, FAN_CONTROL) ==> c + 4 < 32 && (BitSet(c + 4, i) <==> i == FAN_CONTROL || BitSet(c, i))
  {
    Powers();
    if i == 0 {
    } else if i == 1 {
    } else if i == 2 {
    } else if i == 3 {
    } else {
      assert i == 4;
    }
  }

  /** The repaired value has the fan control bit, keeps every other bit of the capped value, and repairing
      it again changes nothing. */
  lemma {:induction false} RepairedOnce(v: nat, i: nat)
    requires i < BITS
    ensures Repaired(v) <= 31
    ensures BitSet(Repaired(v), i) <==> i == FAN_CONTROL || BitSet(Capped(v), i)
    ensures Repaired(Repaired(v)) == Repaired(v)
  {
    Powers();
    var c := Capped(v);
    assert c < 32;
    SetsBit(c, i);
    SetsBit(c, FAN_CONTROL);
  }
}
