/** Arithmetic that the other modules share, mostly about division with a variable divisor. */
module Arithmetic {

  function Min(a: int, b: int): int { if a <= b then a else b }

  function Max(a: int, b: int): int { if a >= b then a else b }

  lemma MulMono(d: int, a: int, b: int)
    requires d >= 0 && a <= b
    ensures d * a <= d * b
  {
  }

  /** Quotient and remainder are unique. */
  lemma DivUnique(x: int, d: int, q: int, r: int)
    requires d > 0 && 0 <= r < d && x == d * q + r
    ensures x / d == q && x % d == r
  {
    var p := x / d;
    assert x == d * p + x % d;
    if p > q {
      MulMono(d, q + 1, p);
    } else if p < q {
      MulMono(d, p + 1, q);
    }
  }

  lemma DivStep(x: int, d: int)
    requires d > 0
    ensures (x + d) / d == x / d + 1 && (x + d) % d == x % d
  {
    DivUnique(x + d, d, x / d + 1, x % d);
  }

  lemma DivByTwoOrMore(h: nat, d: int)
    requires d >= 2
    ensures 2 * h / d <= h
  {
  }

  function Pow2(n: nat): (p: nat)
    ensures p >= 1
  {
    if n == 0 then 1 else 2 * Pow2(n - 1)
  }

  lemma {:induction false} Pow2Sum(m: nat, n: nat)
    ensures Pow2(m + n) == Pow2(m) * Pow2(n)
  {
    if m > 0 {
      Pow2Sum(m - 1, n);
      assert Pow2(m) * Pow2(n) == 2 * (Pow2(m - 1) * Pow2(n));
    }
  }

  lemma {:induction false} Pow2Mono(m: nat, n: nat)
    requires m <= n
    ensures Pow2(m) <= Pow2(n)
    decreases n - m
  {
    if m < n {
      Pow2Mono(m, n - 1);
    }
  }

  /** Residues modulo an even number, one bit at a time. */
  lemma ModTwice(x: int, m: int)
    requires m > 0
    ensures x % (2 * m) == 2 * (x / 2 % m) + x % 2
    ensures x / (2 * m) == x / 2 / m
  {
    var q, r := x / 2 / m, x / 2 % m;
    assert x / 2 == m * q + r;
    assert x == 2 * m * q + (2 * r + x % 2) by {
      assert 2 * (m * q) == 2 * m * q;
    }
    DivUnique(x, 2 * m, q, 2 * r + x % 2);
  }

  /** Two numbers have one quotient exactly when clearing their remainders leaves the same. */
  lemma SameQuotientIff(x: nat, y: nat, d: nat)
    requires d > 0
    ensures 0 <= x - x % d <= x
    ensures x - x % d == y - y % d <==> x / d == y / d
  {
    var a, b := x / d, y / d;
    assert x - x % d == d * a && y - y % d == d * b;
    MulMono(d, 0, a);
    if a < b {
      MulMono(d, a + 1, b);
    } else if b < a {
      MulMono(d, b + 1, a);
    }
  }

  /** Having the quotient of `y` means lying in its aligned block of length `d`. */
  lemma SameBlockIff(x: nat, y: nat, d: nat)
    requires d > 0
    ensures x / d == y / d <==> y - y % d <= x < y - y % d + d
    ensures (y - y % d) % d == 0 && y - y % d >= 0
  {
    var q, base := y / d, y - y % d;
    assert base == d * q;
    DivUnique(base, d, q, 0);
    if base <= x < base + d {
      DivUnique(x, d, q, x - base);
    }
    MulMono(d, 0, q);
  }

  /** The block of `y` ends within the multiple of `d` that bounds `y`. */
  lemma BlockEnds(y: nat, d: nat, n: nat)
    requires d > 0 && y < d * n
    ensures y - y % d + d <= d * n
  {
    var q := y / d;
    assert y - y % d == d * q;
    if q >= n {
      MulMono(d, n, q);
    }
    MulMono(d, q + 1, n);
  }
}
