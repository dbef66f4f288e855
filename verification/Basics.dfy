/** Values shared by every component: optional results, runs that may reach undefined behaviour,
    the PWM range and the machine widths of the program's integers. */
module Basics {
  datatype Option<+T> = None | Some(value: T)

  /** The result of a computation that C++ may leave undefined: a range whose end precedes its start,
      a write past the end of a vector, a dereferenced end iterator or empty optional, a division by zero.
      `Thrown` is an exception the program raises itself. */
  datatype Outcome<+T> = Undefined | Thrown | Defined(value: T)

  /** RPM, PWM and percentages are uint, temperatures int. Sums and differences that may leave the
      32-bit range go through AsUint and AsInt. */
  type Rpm = nat
  type Pwm = nat
  type Percent = nat
  type Temp = int

  const PWM_MIN: Pwm := 0
  const PWM_MAX: Pwm := 255

  /** One more than the largest unsigned and signed 32-bit values. */
  const UINT_RANGE: int := 0x1_0000_0000
  const INT_LIMIT: int := 0x8000_0000

  /** Conversion to uint: reduction modulo 2^32. */
  function AsUint(x: int): (u: nat)
    ensures u < UINT_RANGE
    ensures 0 <= x < UINT_RANGE ==> u == x
  {
    x % UINT_RANGE
  }

  /** Conversion to int of a value that may exceed its range: two's complement. */
  function AsInt(x: int): (i: int)
    ensures -INT_LIMIT <= i < INT_LIMIT
    ensures -INT_LIMIT <= x < INT_LIMIT ==> i == x
  {
    (x + INT_LIMIT) % UINT_RANGE - INT_LIMIT
  }

  function ClampPwm(pwm: Pwm): (c: Pwm)
    ensures c <= PWM_MAX
    ensures pwm <= PWM_MAX ==> c == pwm
    ensures pwm > PWM_MAX ==> c == PWM_MAX
  {
    if pwm > PWM_MAX then PWM_MAX else pwm
  }

  function Abs(x: int): nat {
    if x < 0 then -x else x
  }

  function Min(x: int, y: int): int {
    if x <= y then x else y
  }
}
