/** JavaScript's 32-bit integer operators, on unbounded integers. */
module JsNumbers {
  import opened Arithmetic

  /** Equal modulo 2^32. */
  predicate Congruent(x: int, y: int) {
    (x - y) % 0x1_0000_0000 == 0
  }

  /** `x >>> 0` */
  function ToUint32(x: int): (r: nat)
    ensures r < 0x1_0000_0000 && Congruent(r, x)
  {
    x % 0x1_0000_0000
  }

  /** `x | 0` */
  function ToInt32(x: int): (r: int)
    ensures -0x8000_0000 <= r < 0x8000_0000 && Congruent(r, x)
  {
    var m := ToUint32(x);
    if m < 0x8000_0000 then m else m - 0x1_0000_0000
  }

  lemma SameInt32Iff(x: int, y: int)
    ensures ToInt32(x) == ToInt32(y) <==> Congruent(x, y)
    ensures ToUint32(x) == ToUint32(y) <==> Congruent(x, y)
  {
  }

  /** The conjunction of the low `n` bits. */
  function AndBits(x: nat, y: nat, n: nat): nat
    decreases n, x, y
  {
    if n == 0 then 0
    else 2 * AndBits(x / 2, y / 2, n - 1) + if x % 2 == 1 && y % 2 == 1 then 1 else 0
  }

  /** The disjunction of the low `n` bits. */
  function OrBits(x: nat, y: nat, n: nat): nat
    decreases n, x, y
  {
    if n == 0 then 0
    else 2 * OrBits(x / 2, y / 2, n - 1) + if x % 2 == 1 || y % 2 == 1 then 1 else 0
  }

  /** `x & y` */
  function BitAnd(x: int, y: int): int {
    ToInt32(AndBits(ToUint32(x), ToUint32(y), 32))
  }

  /** `x | y` */
  function BitOr(x: int, y: int): int {
    ToInt32(OrBits(ToUint32(x), ToUint32(y), 32))
  }

  /** `x << n` */
  function ShiftLeft(x: int, n: nat): int
    requires n < 32
  {
    ToInt32(x * Pow2(n))
  }

  lemma {:induction false} AndOnes(x: nat, n: nat)
    requires x < Pow2(n)
    ensures AndBits(x, Pow2(n) - 1, n) == x
  {
    if n > 0 {
      AndOnes(x / 2, n - 1);
    }
  }

  /** A mask of n - k ones over k zeros clears the low k bits. */
  lemma {:induction false} AndMask(x: nat, n: nat, k: nat)
    requires x < Pow2(n) && k <= n
    ensures Pow2(k) <= Pow2(n)
    ensures AndBits(x, Pow2(n) - Pow2(k), n) == x - x % Pow2(k)
  {
    if k == 0 {
      AndOnes(x, n);
    } else {
      AndMask(x / 2, n - 1, k - 1);
      ModTwice(x, Pow2(k - 1));
    }
  }

  lemma {:induction false} OrZero(x: nat, n: nat)
    requires x < Pow2(n)
    ensures OrBits(x, 0, n) == x
  {
    if n > 0 {
      OrZero(x / 2, n - 1);
    }
  }

  /** Or-ing a value into cleared low bits adds it. */
  lemma {:induction false} OrDisjoint(x: nat, y: nat, n: nat, k: nat)
    requires x < Pow2(n) && k <= n && x % Pow2(k) == 0 && y < Pow2(k)
    ensures OrBits(x, y, n) == x + y
  {
    if k == 0 {
      OrZero(x, n);
    } else {
      ModTwice(x, Pow2(k - 1));
      OrDisjoint(x / 2, y / 2, n - 1, k - 1);
    }
  }

  /** Words below 2^32 are their own unsigned reading. */
  lemma SmallUint32(x: int)
    requires 0 <= x < 0x1_0000_0000
    ensures ToUint32(x) == x
  {
  }

  lemma Uint32OfInt32Any(x: int)
    ensures ToUint32(ToInt32(x)) == ToUint32(x)
  {
  }

  lemma Uint32OfInt32(x: int)
    requires 0 <= x < 0x1_0000_0000
    ensures ToUint32(ToInt32(x)) == x
  {
  }

  /** `(~0 << n) >>> 0`: all ones but n zeros at the end. */
  lemma OnesShifted(n: nat)
    requires n < 32 && Pow2(n) <= 0x8000_0000
    ensures ToUint32(ShiftLeft(-1, n)) == 0x1_0000_0000 - Pow2(n)
  {
    NegativeUint32(Pow2(n));
  }

  lemma NegativeUint32(m: nat)
    requires 0 < m <= 0x8000_0000
    ensures ToUint32(ToInt32(-1 * m)) == 0x1_0000_0000 - m
  {
  }

  lemma SmallSameInt32(x: int, y: int)
    requires 0 <= x < 0x1_0000_0000 && 0 <= y < 0x1_0000_0000
    ensures ToInt32(x) == ToInt32(y) <==> x == y
  {
    SmallUint32(x);
    SmallUint32(y);
    SameInt32Iff(x, y);
  }

  /** `x & mask` for a mask of 32 - k ones over k zeros. */
  lemma BitAndMask(x: nat, mask: nat, n: nat, k: nat)
    requires n == 32 && k <= n && Pow2(n) == 0x1_0000_0000
    requires x < 0x1_0000_0000 && mask == 0x1_0000_0000 - Pow2(k)
    ensures BitAnd(x, mask) == ToInt32(x - x % Pow2(k))
  {
    SmallUint32(x);
    SmallUint32(mask);
    assert AndBits(x, mask, n) == x - x % Pow2(k) by {
      AndMask(x, n, k);
    }
  }

  /** `x | y` for a word with k clear low bits and a value of k bits. */
  lemma BitOrDisjoint(x: int, w: nat, y: nat, n: nat, k: nat)
    requires n == 32 && k <= n && Pow2(n) == 0x1_0000_0000
    requires ToUint32(x) == w && w % Pow2(k) == 0 && y < Pow2(k) && w + y < 0x1_0000_0000
    ensures ToUint32(BitOr(x, y)) == w + y
  {
    SmallUint32(y);
    OrDisjoint(w, y, n, k);
    Uint32OfInt32(w + y);
  }
}
