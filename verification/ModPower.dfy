/** Powers of a number modulo m, and when the first of them to be one is the n-th. */
module ModPower {
  import opened Arithmetic

  function Times(m: int, x: int, y: int): (z: int)
    requires m > 1
    ensures 0 <= z < m
  {
    (x * y) % m
  }

  function Power(m: int, b: int, e: nat): (p: int)
    requires m > 1
    ensures 0 <= p < m
  {
    if e == 0 then 1 else Times(m, b, Power(m, b, e - 1))
  }

  // ----- laws -----

  lemma ReduceFactor(m: int, x: int, y: int)
    requires m > 1
    ensures ((x % m) * y) % m == (x * y) % m
  {
    var q, r := x / m, x % m;
    Expand(m, q, r, x, y);
    AddMultiple(r * y, m, q * y);
  }

  lemma Expand(m: int, q: int, r: int, x: int, y: int)
    requires x == m * q + r
    ensures x * y == r * y + m * (q * y)
  {
  }

  lemma TimesCommutes(m: int, x: int, y: int)
    requires m > 1
    ensures Times(m, x, y) == Times(m, y, x)
  {
    assert x * y == y * x;
  }

  lemma TimesAssociates(m: int, x: int, y: int, z: int)
    requires m > 1
    ensures Times(m, Times(m, x, y), z) == Times(m, x, Times(m, y, z))
  {
    ReduceFactor(m, x * y, z);
    ReduceFactor(m, y * z, x);
    TimesCommutes(m, x, (y * z) % m);
    Regroup(x, y, z);
  }

  lemma Regroup(x: int, y: int, z: int)
    ensures (x * y) * z == (y * z) * x
  {
  }

  lemma TimesOne(m: int, x: int)
    requires m > 1 && 0 <= x < m
    ensures Times(m, 1, x) == x && Times(m, x, 1) == x
  {
  }

  lemma {:induction false} PowerSplits(m: int, b: int, i: nat, j: nat)
    requires m > 1
    ensures Power(m, b, i + j) == Times(m, Power(m, b, i), Power(m, b, j))
  {
    hide Times;
    if i == 0 {
      TimesOne(m, Power(m, b, j));
    } else {
      PowerSplits(m, b, i - 1, j);
      assert i + j - 1 == i - 1 + j;
      TimesAssociates(m, b, Power(m, b, i - 1), Power(m, b, j));
    }
  }

  /** Multiples of an exponent that gives one give one. */
  lemma {:induction false} PowerOfMultiple(m: int, b: int, i: nat, k: nat, n: nat)
    requires m > 1 && Power(m, b, i) == 1 && n == i * k
    ensures Power(m, b, n) == 1
  {
    hide Times;
    if k > 0 {
      OneLess(i, k);
      PowerOfMultiple(m, b, i, k - 1, n - i);
      hide Power;
      PowerSplits(m, b, i, n - i);
      assert i + (n - i) == n;
      TimesOne(m, 1);
    } else {
      assert n == 0;
    }
  }

  lemma OneLess(i: nat, k: nat)
    requires k > 0
    ensures i * (k - 1) == i * k - i >= 0
  {
  }

  lemma PowerOfRemainder(m: int, b: int, i: nat, j: nat)
    requires m > 1 && j > 0 && Power(m, b, j) == 1
    ensures Power(m, b, i % j) == Power(m, b, i)
  {
    hide Times, Power;
    var n := i - i % j;
    PowerOfMultiple(m, b, j, i / j, n);
    PowerSplits(m, b, n, i % j);
    TimesOne(m, Power(m, b, i % j));
  }

  // ----- primes -----

  predicate NoFactorUpTo(p: int, r: int) {
    r < 2 || (p % r != 0 && NoFactorUpTo(p, r - 1))
  }

  predicate IsPrime(p: int) {
    p > 1 && NoFactorUpTo(p, p - 1)
  }

  lemma {:induction false} NotAFactor(p: int, r: int, s: int)
    requires NoFactorUpTo(p, s) && 2 <= r <= s
    ensures p % r != 0
  {
    if r < s {
      NotAFactor(p, r, s - 1);
    }
  }

  /** A prime that divides a product, but not its first factor, divides the second: descends as Euclid's
      algorithm does. */
  lemma {:induction false} PrimeDividesFactor(p: int, a: nat, b: nat)
    requires IsPrime(p) && 0 < a < p && (a * b) % p == 0
    ensures b % p == 0
    decreases a
  {
    if a > 1 {
      NotAFactor(p, a, p - 1);
      var q, s := p / a, p % a;
      RemainderTimes(p, a, q, s, b, (a * b) / p);
      RemainderUnique(s * b, p, b - q * ((a * b) / p), 0);
      PrimeDividesFactor(p, s, b);
    }
  }

  /** Below 19^2 it is enough to look for factors up to 18. */
  lemma PrimeBelow361(p: int)
    requires 18 < p < 361 && NoFactorUpTo(p, 18)
    ensures IsPrime(p)
  {
    NoLargeFactor(p, p - 1);
  }

  lemma {:induction false} NoLargeFactor(p: int, r: int)
    requires 18 <= r < p < 361 && NoFactorUpTo(p, 18)
    ensures NoFactorUpTo(p, r)
  {
    if r > 18 {
      NoLargeFactor(p, r - 1);
      if p % r == 0 {
        var t := Cofactor(p, r);
        NotAFactor(p, t, 18);
        assert false;
      }
    }
  }

  lemma AtLeast(n: int, r: int, t: int)
    requires r >= n
    ensures t >= 0 ==> r * t >= n * t
  {
  }

  lemma Cofactor(p: int, r: int) returns (t: int)
    requires 18 < r < p < 361 && p % r == 0
    ensures 2 <= t <= 18 && p % t == 0
  {
    t := p / r;
    assert p == r * t;
    AtLeast(19, r, t);
    RemainderUnique(p, t, r, 0);
  }

  lemma RemainderTimes(p: int, a: int, q: int, s: int, b: int, t: int)
    requires p == a * q + s && a * b == p * t
    ensures s * b == p * (b - q * t)
  {
    Expand(a, q, s, p, b);
    assert a * (q * b) == q * (a * b);
    assert q * (p * t) == p * (q * t);
    assert p * (b - q * t) == p * b - p * (q * t);
  }

  lemma PrimeIsLarge(p: int)
    requires IsPrime(p)
    ensures p > 1
  {
  }

  predicate AllPrime(ps: seq<int>) {
    forall i :: 0 <= i < |ps| ==> IsPrime(ps[i])
  }

  function Product(ps: seq<int>): int {
    if ps == [] then 1 else ps[0] * Product(ps[1..])
  }

  /** A factor greater than one of a product of primes is divisible by one of them. */
  lemma {:induction false} FactorHasPrime(ps: seq<int>, k: nat, g: nat) returns (i: nat)
    requires AllPrime(ps) && k > 1 && k * g == Product(ps)
    ensures i < |ps| && k % ps[i] == 0
  {
    hide IsPrime;
    if ps == [] {
      OneHasNoFactor(k, g);
      assert false;
    }
    var p := ps[0];
    i := 0;
    PrimeIsLarge(p);
    if k % p != 0 {
      var h := DividedOut(p, k, g, Product(ps[1..]));
      i := FactorHasPrime(ps[1..], k, h);
      i := i + 1;
    }
  }

  lemma OneHasNoFactor(k: nat, g: nat)
    requires k > 1
    ensures k * g != 1
  {
    if g > 0 {
      assert k * g >= k * 1;
    }
  }

  lemma DividedOut(p: int, k: nat, g: nat, rest: int) returns (h: nat)
    requires IsPrime(p) && k % p != 0 && k * g == p * rest
    ensures k * h == rest
  {
    RemainderUnique(k * g, p, rest, 0);
    ReduceFactor(p, k, g);
    PrimeDividesFactor(p, k % p, g);
    h := g / p;
    assert g == p * h;
    assert p * (k * h) == k * (p * h);
    CancelFactor(p, k * h, rest);
  }

  lemma CancelFactor(p: int, x: int, y: int)
    requires p > 0 && p * x == p * y
    ensures x == y
  {
    assert p * (x - y) == 0;
    NoSmallMultiple(p, x - y);
  }

  // ----- the order of b -----

  /** Two exponents that give one have a common divisor that gives one. */
  lemma {:induction false} CommonDivisor(m: int, b: int, i: nat, j: nat) returns (g: nat)
    requires m > 1 && i > 0
    requires Power(m, b, i) == 1 && Power(m, b, j) == 1
    ensures g > 0 && i % g == 0 && j % g == 0 && Power(m, b, g) == 1
    decreases j
  {
    hide Power;
    if j == 0 {
      g := i;
    } else {
      PowerOfRemainder(m, b, i, j);
      g := CommonDivisor(m, b, j, i % j);
      DivisorOfSum(g, j / g, i / j, (i % j) / g, i, j);
    }
  }

  lemma DivisorOfSum(g: int, q: int, k: int, r: int, i: int, j: int)
    requires g > 0 && i == j * k + g * r && j == g * q
    ensures i % g == 0
  {
    assert (g * q) * k == g * (q * k);
    assert g * (q * k + r) == g * (q * k) + g * r;
    RemainderUnique(i, g, q * k + r, 0);
  }

  /** If b^n is one, and b^(n/p) is not for any prime p in n, then only the multiples of n give one. */
  lemma OrderIs(m: int, b: int, n: nat, ps: seq<int>, e: nat)
    requires m > 1 && n > 0 && AllPrime(ps) && n == Product(ps)
    requires Power(m, b, n) == 1
    requires forall i :: 0 <= i < |ps| ==> GivesOther(m, b, n, ps[i])
    ensures Power(m, b, e) == 1 <==> e % n == 0
  {
    hide IsPrime, Power, Product;
    if e % n == 0 {
      PowerOfMultiple(m, b, n, e / n, e);
    }
    if Power(m, b, e) == 1 {
      var g := CommonDivisor(m, b, n, e);
      var k := n / g;
      WholeQuotient(n, g);
      if k > 1 {
        var i := FactorHasPrime(ps, k, g);
        PrimeIsLarge(ps[i]);
        assert GivesOther(m, b, n, ps[i]);
        PowerOfPart(m, b, n, g, k, ps[i]);
        assert false;
      }
    }
  }

  /** b^(n/p) is not one. */
  predicate GivesOther(m: int, b: int, n: nat, p: int)
    requires m > 1
  {
    p > 1 ==> Power(m, b, Quotient(n, p)) != 1
  }

  function Quotient(n: nat, p: int): nat
    requires p > 1
  {
    QuotientIsNat(n, p);
    n / p
  }

  lemma QuotientIsNat(n: nat, p: int)
    requires p > 1
    ensures n / p >= 0
  {
    var q, r := n / p, n % p;
    assert n == p * q + r;
    SmallProduct(p, q);
  }

  lemma SmallProduct(p: int, q: int)
    requires p > 0
    ensures q < 0 ==> p * q <= -p
  {
    if q < 0 {
      assert p * q <= p * -1;
    }
  }

  lemma WholeQuotient(n: nat, g: nat)
    requires n > 0 && g > 0 && n % g == 0
    ensures n / g > 0 && (n / g) * g == n && (n / g == 1 ==> g == n)
  {
    assert n == g * (n / g);
  }

  lemma PowerOfPart(m: int, b: int, n: nat, g: nat, k: nat, p: int)
    requires m > 1 && n == k * g && p > 1 && k % p == 0 && Power(m, b, g) == 1
    ensures Power(m, b, Quotient(n, p)) == 1
  {
    hide Power;
    var j := k / p;
    RegroupQuotient(n, p, j, g, k);
    RemainderUnique(n, p, g * j, 0);
    PowerOfMultiple(m, b, g, j, Quotient(n, p));
  }

  lemma RegroupQuotient(n: int, p: int, j: int, g: int, k: int)
    requires n == k * g && k == p * j
    ensures n == p * (g * j)
  {
  }
}
