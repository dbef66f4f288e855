/** Facts about integer division by a positive divisor, each from the defining equation. */
module Division {
  lemma {:induction false} MulOrder(n: nat, a: int, b: int)
    requires a <= b
    ensures n * a <= n * b
  {
  }

  /** The quotient is the only number that leaves a remainder below the divisor. */
  lemma {:induction false} QuotientUnique(g: int, n: nat, q: int)
    requires n >= 1 && n * q <= g < n * q + n
    ensures g / n == q
  {
    var p := g / n;
    assert n * p <= g < n * p + n;
    if p > q {
      MulOrder(n, q + 1, p);
    } else if p < q {
      MulOrder(n, p + 1, q);
    }
  }

  lemma {:induction false} DivMonotone(a: int, b: int, n: nat)
    requires a <= b && n >= 1
    ensures a / n <= b / n
  {
    if a / n > b / n {
      MulOrder(n, b / n + 1, a / n);
    }
  }

  /** A quotient reaches `q` exactly when the dividend reaches `n * q`. */
  lemma {:induction false} DivAtLeast(g: int, n: nat, q: int)
    requires n >= 1
    ensures q <= g / n <==> n * q <= g
  {
    assert n * (g / n) <= g < n * (g / n) + n;
    if q <= g / n {
      MulOrder(n, q, g / n);
    } else {
      MulOrder(n, g / n + 1, q);
    }
  }

  lemma {:induction false} DivStep(g: nat, d: nat, n: nat)
    requires n >= 1 && n <= d <= g
    ensures (g - d) / n + 1 <= g / n
  {
  }

  lemma {:induction false} QuotientBounds(g: nat, n: nat)
    requires n >= 1
    ensures 0 <= g / n <= g && (g >= n ==> 1 <= g / n) && (g < n ==> g / n == 0) && (n == 1 ==> g / n == g)
  {
    DivAtLeast(g, n, 0);
    DivAtLeast(g, n, 1);
    DivAtLeast(g, n, g + 1);
    MulOrder(g + 1, 1, n);
    if n == 1 {
      QuotientUnique(g, n, g);
    }
  }

  /** Taking away an n-th part of at least `n` leaves at least `n - 1`. */
  lemma {:induction false} Quotient(g: nat, n: nat)
    requires n >= 1
    ensures 0 <= g / n <= g
    ensures g >= n ==> 1 <= g / n && g - g / n >= n - 1
    ensures g < n ==> g / n == 0
    ensures n == 1 ==> g / n == g
  {
    QuotientBounds(g, n);
    var q := g / n;
    assert n * q <= g;
    if g >= n {
      MulOrder(n - 1, 1, q);
      assert (n - 1) * q == n * q - q;
    }
  }
}
