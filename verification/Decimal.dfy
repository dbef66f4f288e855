/** Numbers as text: what an output stream prints and `Util::from_string` reads back. */
module Decimal {
  import opened Basics
  import opened Division

  predicate IsDigit(c: char) {
    '0' <= c <= '9'
  }

  predicate AllDigits(s: string) {
    forall i :: 0 <= i < |s| ==> IsDigit(s[i])
  }

  function Digit(d: nat): (c: char)
    requires d < 10
    ensures IsDigit(c)
  {
    ('0' as int + d) as char
  }

  function PrintNat(n: nat): (s: string)
    ensures s != "" && AllDigits(s)
  {
    if n < 10 then [Digit(n)] else PrintNat(n / 10) + [Digit(n % 10)]
  }

  function PrintInt(x: int): string {
    if x < 0 then "-" + PrintNat(-x) else PrintNat(x)
  }

  /** The value of a string of digits. */
  function Value(s: string): nat
    requires AllDigits(s)
  {
    if s == "" then 0 else 10 * Value(s[..|s| - 1]) + (s[|s| - 1] as int - '0' as int)
  }

  /** `from_chars` on a captured run of digits: a value past the type's limit is an error. */
  function FromString(s: string, limit: int): Option<nat> {
    if s == "" || !AllDigits(s) then None
    else if Value(s) < limit then Some(Value(s))
    else None
  }

  /** Printing then parsing gives the number back. */
  lemma {:induction false} ValueOfPrint(n: nat)
    ensures Value(PrintNat(n)) == n
  {
    if n >= 10 {
      ValueOfPrint(n / 10);
      var s := PrintNat(n);
      assert s[..|s| - 1] == PrintNat(n / 10);
    } else {
      assert [Digit(n)][..0] == "";
    }
  }

  lemma {:induction false} FromStringOfPrint(n: nat, limit: int)
    ensures FromString(PrintNat(n), limit) == if n < limit then Some(n) else None
  {
    ValueOfPrint(n);
  }

  /** A PWM takes at most three digits. */
  lemma {:induction false} PwmWidth(pwm: Pwm)
    requires pwm <= PWM_MAX
    ensures |PrintNat(pwm)| <= 3
  {
    if pwm >= 10 {
      assert |PrintNat(pwm)| == |PrintNat(pwm / 10)| + 1;
      if pwm >= 100 {
        assert |PrintNat(pwm / 10)| == |PrintNat(pwm / 10 / 10)| + 1;
      }
    }
  }
}
