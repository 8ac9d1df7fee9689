/** Powers of two, and how often a number can be halved. */
module Arithmetic {

  function Pow2(k: nat): (p: nat)
    ensures p > 0
  {
    if k == 0 then 1 else 2 * Pow2(k - 1)
  }

  /** n can be halved k times without a remainder. */
  predicate HalvesTo(k: nat, n: int) {
    k == 0 || (n % 2 == 0 && HalvesTo(k - 1, n / 2))
  }

  /** Halving k times is dividing by 2^k. */
  lemma {:induction false} HalvesToIsDivisibility(k: nat, n: int)
    ensures HalvesTo(k, n) <==> n % Pow2(k) == 0
  {
    if k > 0 {
      HalvesToIsDivisibility(k - 1, n / 2);
      HalveModulus(n, Pow2(k - 1));
    }
  }

  lemma HalveModulus(n: int, p: int)
    requires p > 0
    ensures n % (2 * p) == 2 * ((n / 2) % p) + n % 2
  {
    var h, b := n / 2, n % 2;
    var q, r := h / p, h % p;
    assert n == (2 * p) * q + (2 * r + b) by {
      assert h == p * q + r;
      assert 2 * (p * q) == (2 * p) * q;
    }
    RemainderUnique(n, 2 * p, q, 2 * r + b);
  }

  /** Quotient and remainder are determined by their equation. */
  lemma RemainderUnique(n: int, d: int, q: int, r: int)
    requires d > 0 && n == d * q + r && 0 <= r < d
    ensures n % d == r && n / d == q
  {
    var e := q - n / d;
    assert d * e == n % d - r by {
      assert d * e == d * q - d * (n / d);
    }
    NoSmallMultiple(d, e);
  }

  lemma NoSmallMultiple(d: int, e: int)
    requires -d < d * e < d
    ensures e == 0
  {
  }

  /** Multiplying by an odd number keeps the parity. */
  lemma OddTimes(x: int, odd: int)
    requires odd % 2 == 1
    ensures (x * odd) % 2 == x % 2
    ensures x % 2 == 0 ==> (x * odd) / 2 == (x / 2) * odd
  {
    var xh := x * (odd / 2);
    TimesTwicePlusOne(x, odd / 2, odd);
    RemainderUnique(x * odd, 2, xh + x / 2, x % 2);
    if x % 2 == 0 {
      TimesTwicePlusOne(x / 2, odd / 2, odd);
      DoubleProduct(x, x / 2, odd / 2);
    }
  }

  lemma TimesTwicePlusOne(x: int, h: int, odd: int)
    requires odd == 2 * h + 1
    ensures x * odd == 2 * (x * h) + x
  {
  }

  lemma DoubleProduct(x: int, y: int, h: int)
    requires x == 2 * y
    ensures x * h == 2 * (y * h)
  {
  }

  /** An odd factor carries no factor of two. */
  lemma {:induction false} CancelOdd(k: nat, x: int, odd: int)
    requires odd % 2 == 1
    ensures HalvesTo(k, x * odd) <==> HalvesTo(k, x)
  {
    if k > 0 {
      OddTimes(x, odd);
      CancelOdd(k - 1, x / 2, odd);
    }
  }

  lemma AddMultiple(x: int, d: int, k: int)
    requires d > 0
    ensures (x + d * k) % d == x % d
  {
    assert x + d * k == d * (x / d + k) + x % d by {
      assert d * (x / d + k) == d * (x / d) + d * k;
    }
    RemainderUnique(x + d * k, d, x / d + k, x % d);
  }

  /** Reducing a summand first does not change the reduced sum. */
  lemma ReduceSummand(a: int, x: int, d: int)
    requires d > 0
    ensures (a % d + x) % d == (a + x) % d
  {
    AddMultiple(a % d + x, d, a / d);
    assert a % d + x + d * (a / d) == a + x;
  }
}
