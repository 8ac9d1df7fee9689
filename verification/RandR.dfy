/** The re-entrant generator of the C library: an affine step on a 32-bit seed, a tempering map on
    the bits of the new seed, and one bit dropped. */
module RandR {
  import opened Arithmetic
  import opened Counting
  import opened Words

  const MULTIPLIER: int := 1103515245
  const INCREMENT: int := 12345
  const RAND_LIMIT: int := 0x8000_0000

  // ----- what one call computes -----

  function NextSeed(seed: Word): Word {
    (seed * MULTIPLIER + INCREMENT) % WORD_MODULUS
  }

  function MixDown(x: bv32): bv32 { x ^ (x >> 11) }

  function MixUp7(x: bv32): bv32 { x ^ ((x << 7) & 0x9D2C5680) }

  function MixUp15(x: bv32): bv32 { x ^ ((x << 15) & 0xEFC60000) }

  function MixDown18(x: bv32): bv32 { x ^ (x >> 18) }

  function Tempered(x: bv32): bv32 {
    MixDown18(MixUp15(MixUp7(MixDown(x))))
  }

  function TemperedWord(x: Word): Word {
    FromBits(Tempered(ToBits(x)))
  }

  function Output(seed: Word): (r: int)
    ensures 0 <= r < RAND_LIMIT
  {
    TemperedWord(seed) / 2
  }

  /** The seed after n calls, and the value the n-th of them returned. */
  function SeedAfter(seed: Word, n: nat): Word {
    if n == 0 then seed else NextSeed(SeedAfter(seed, n - 1))
  }

  function Call(seed: Word, n: nat): int {
    Output(SeedAfter(seed, n + 1))
  }

  // ----- the code -----

  class Seed {
    var value: Word

    constructor (value: Word)
      ensures this.value == value
    {
      this.value := value;
    }
  }

  method Temper(word: bv32) returns (x: bv32)
    ensures x == Tempered(word)
  {
    x := word;
    x := MixDown(x);
    x := MixUp7(x);
    x := MixUp15(x);
    x := MixDown18(x);
  }

  method RandR(seed: Seed) returns (r: int)
    modifies seed
    ensures seed.value == SeedAfter(old(seed.value), 1)
    ensures r == Call(old(seed.value), 0) && 0 <= r < RAND_LIMIT
  {
    seed.value := (seed.value * MULTIPLIER + INCREMENT) % WORD_MODULUS;
    var x := Temper(ToBits(seed.value));
    r := FromBits(x) / 2;
  }

  // ----- the tempering map loses nothing -----

  function UnmixDown(y: bv32): bv32 { y ^ (y >> 11) ^ (y >> 22) }

  function UnmixUp7(y: bv32): bv32 {
    y ^ ((y << 7) & 0x9D2C5680) ^ ((y << 14) & 0x94284000) ^ ((y << 21) & 0x14200000) ^ ((y << 28) & 0x10000000)
  }

  /** Undoes the four mixing steps, the last one first; two of them undo themselves. */
  function Untempered(y: bv32): bv32 {
    UnmixDown(UnmixUp7(MixUp15(MixDown18(y))))
  }

  lemma MixDown18TwiceIsIdentity(x: bv32)
    ensures MixDown18(MixDown18(x)) == x
  {
    assert MixDown18(x ^ (x >> 18)) == x;
  }

  lemma MixUp15TwiceIsIdentity(x: bv32)
    ensures MixUp15(MixUp15(x)) == x
  {
    assert MixUp15(x ^ ((x << 15) & 0xEFC60000)) == x;
  }

  lemma MixUp7Invertible(x: bv32)
    ensures UnmixUp7(MixUp7(x)) == x
    ensures MixUp7(UnmixUp7(x)) == x
  {
    assert UnmixUp7(x ^ ((x << 7) & 0x9D2C5680)) == x;
    assert MixUp7(x ^ ((x << 7) & 0x9D2C5680) ^ ((x << 14) & 0x94284000)
                    ^ ((x << 21) & 0x14200000) ^ ((x << 28) & 0x10000000)) == x;
  }

  lemma MixDownInvertible(x: bv32)
    ensures UnmixDown(MixDown(x)) == x
    ensures MixDown(UnmixDown(x)) == x
  {
    assert UnmixDown(x ^ (x >> 11)) == x;
    assert MixDown(x ^ (x >> 11) ^ (x >> 22)) == x;
  }

  lemma TemperIsBijective(x: bv32)
    ensures Untempered(Tempered(x)) == x
    ensures Tempered(Untempered(x)) == x
  {
    MixDown18TwiceIsIdentity(MixUp15(MixUp7(MixDown(x))));
    MixUp15TwiceIsIdentity(MixUp7(MixDown(x)));
    MixUp7Invertible(MixDown(x));
    MixDownInvertible(x);
    MixDownInvertible(UnmixUp7(MixUp15(MixDown18(x))));
    MixUp7Invertible(MixUp15(MixDown18(x)));
    MixUp15TwiceIsIdentity(MixDown18(x));
    MixDown18TwiceIsIdentity(x);
  }

  // ----- and is fixed by what it does to single bits -----

  function Xor(x: bv32, y: bv32): bv32 { x ^ y }

  lemma XorRegroups(a: bv32, b: bv32, c: bv32, d: bv32)
    ensures Xor(Xor(a, b), Xor(c, d)) == Xor(Xor(a, c), Xor(b, d))
  {
    XorAssociates(a, b, Xor(c, d));
    XorAssociates(b, c, d);
    XorAssociates(c, b, d);
    XorAssociates(a, c, Xor(b, d));
    XorCommutes(b, c);
    hide Xor;
  }

  lemma XorAssociates(a: bv32, b: bv32, c: bv32)
    ensures Xor(Xor(a, b), c) == Xor(a, Xor(b, c))
  {
    assert (a ^ b) ^ c == a ^ (b ^ c);
  }

  lemma XorCommutes(a: bv32, b: bv32)
    ensures Xor(a, b) == Xor(b, a)
  {
    assert a ^ b == b ^ a;
  }

  function Down(z: bv32): bv32 { z >> 11 }

  lemma MixDownLinear(x: bv32, y: bv32)
    ensures MixDown(Xor(x, y)) == Xor(MixDown(x), MixDown(y))
  {
    DownLinear(x, y);
    DownParts(x);
    DownParts(y);
    DownParts(Xor(x, y));
    XorRegroups(x, y, Down(x), Down(y));
    hide Xor, Down, MixDown;
  }

  lemma DownParts(x: bv32)
    ensures MixDown(x) == Xor(x, Down(x))
  {
    MixDownIsXor(x);
    DownIs(x);
    hide Xor, Down, MixDown;
  }

  lemma MixDownIsXor(x: bv32)
    ensures MixDown(x) == Xor(x, x >> 11)
  {
  }

  lemma DownIs(x: bv32)
    ensures Down(x) == x >> 11
  {
  }

  lemma DownLinear(x: bv32, y: bv32)
    ensures Down(Xor(x, y)) == Xor(Down(x), Down(y))
  {
    assert ((x ^ y) >> 11) == (x >> 11) ^ (y >> 11);
  }

  function Up7(z: bv32): bv32 { (z << 7) & 0x9D2C5680 }

  lemma MixUp7Linear(x: bv32, y: bv32)
    ensures MixUp7(Xor(x, y)) == Xor(MixUp7(x), MixUp7(y))
  {
    Up7Linear(x, y);
    Up7Parts(x);
    Up7Parts(y);
    Up7Parts(Xor(x, y));
    XorRegroups(x, y, Up7(x), Up7(y));
    hide Xor, Up7, MixUp7;
  }

  lemma Up7Parts(x: bv32)
    ensures MixUp7(x) == Xor(x, Up7(x))
  {
    MixUp7IsXor(x);
    Up7Is(x);
    hide Xor, Up7, MixUp7;
  }

  lemma MixUp7IsXor(x: bv32)
    ensures MixUp7(x) == Xor(x, (x << 7) & 0x9D2C5680)
  {
  }

  lemma Up7Is(x: bv32)
    ensures Up7(x) == (x << 7) & 0x9D2C5680
  {
  }

  lemma Up7Linear(x: bv32, y: bv32)
    ensures Up7(Xor(x, y)) == Xor(Up7(x), Up7(y))
  {
    assert (((x ^ y) << 7) & 0x9D2C5680) == ((x << 7) & 0x9D2C5680) ^ ((y << 7) & 0x9D2C5680);
  }

  function Up15(z: bv32): bv32 { (z << 15) & 0xEFC60000 }

  lemma MixUp15Linear(x: bv32, y: bv32)
    ensures MixUp15(Xor(x, y)) == Xor(MixUp15(x), MixUp15(y))
  {
    Up15Linear(x, y);
    Up15Parts(x);
    Up15Parts(y);
    Up15Parts(Xor(x, y));
    XorRegroups(x, y, Up15(x), Up15(y));
    hide Xor, Up15, MixUp15;
  }

  lemma Up15Parts(x: bv32)
    ensures MixUp15(x) == Xor(x, Up15(x))
  {
    MixUp15IsXor(x);
    Up15Is(x);
    hide Xor, Up15, MixUp15;
  }

  lemma MixUp15IsXor(x: bv32)
    ensures MixUp15(x) == Xor(x, (x << 15) & 0xEFC60000)
  {
  }

  lemma Up15Is(x: bv32)
    ensures Up15(x) == (x << 15) & 0xEFC60000
  {
  }

  lemma Up15Linear(x: bv32, y: bv32)
    ensures Up15(Xor(x, y)) == Xor(Up15(x), Up15(y))
  {
    assert (((x ^ y) << 15) & 0xEFC60000) == ((x << 15) & 0xEFC60000) ^ ((y << 15) & 0xEFC60000);
  }

  function Down18(z: bv32): bv32 { z >> 18 }

  lemma MixDown18Linear(x: bv32, y: bv32)
    ensures MixDown18(Xor(x, y)) == Xor(MixDown18(x), MixDown18(y))
  {
    Down18Linear(x, y);
    Down18Parts(x);
    Down18Parts(y);
    Down18Parts(Xor(x, y));
    XorRegroups(x, y, Down18(x), Down18(y));
    hide Xor, Down18, MixDown18;
  }

  lemma Down18Parts(x: bv32)
    ensures MixDown18(x) == Xor(x, Down18(x))
  {
    MixDown18IsXor(x);
    Down18Is(x);
    hide Xor, Down18, MixDown18;
  }

  lemma MixDown18IsXor(x: bv32)
    ensures MixDown18(x) == Xor(x, x >> 18)
  {
  }

  lemma Down18Is(x: bv32)
    ensures Down18(x) == x >> 18
  {
  }

  lemma Down18Linear(x: bv32, y: bv32)
    ensures Down18(Xor(x, y)) == Xor(Down18(x), Down18(y))
  {
    assert ((x ^ y) >> 18) == (x >> 18) ^ (y >> 18);
  }

  /** Tempering respects exclusive or ... */
  lemma TemperedLinear(x: bv32, y: bv32)
    ensures Tempered(Xor(x, y)) == Xor(Tempered(x), Tempered(y))
  {
    MixDownLinear(x, y);
    MixUp7Linear(MixDown(x), MixDown(y));
    MixUp15Linear(MixUp7(MixDown(x)), MixUp7(MixDown(y)));
    MixDown18Linear(MixUp15(MixUp7(MixDown(x))), MixUp15(MixUp7(MixDown(y))));
    hide MixDown, MixUp7, MixUp15, MixDown18, Xor;
  }

  /** ... and so is determined by its values at the words with a single bit. */
  lemma TemperedBits()
    ensures Tempered(0x00000001) == 0x00400091 && Tempered(0x00000002) == 0x00000002
    ensures Tempered(0x00000004) == 0x01020244 && Tempered(0x00000008) == 0x02040489
    ensures Tempered(0x00000010) == 0x00000010 && Tempered(0x00000020) == 0x08001220
    ensures Tempered(0x00000040) == 0x00000040 && Tempered(0x00000080) == 0x20404890
    ensures Tempered(0x00000100) == 0x00800120 && Tempered(0x00000200) == 0x01000240
    ensures Tempered(0x00000400) == 0x02000480 && Tempered(0x00000800) == 0x04440990
    ensures Tempered(0x00001000) == 0x08081200 && Tempered(0x00002000) == 0x01022244
    ensures Tempered(0x00004000) == 0x22244C81 && Tempered(0x00008000) == 0x40009010
    ensures Tempered(0x00010000) == 0x88013220 && Tempered(0x00020000) == 0x01020000
    ensures Tempered(0x00040000) == 0x20444891 && Tempered(0x00080000) == 0x04880022
    ensures Tempered(0x00100000) == 0x09100044 && Tempered(0x00200000) == 0x12200088
    ensures Tempered(0x00400000) == 0x04440911 && Tempered(0x00800000) == 0x08881222
    ensures Tempered(0x01000000) == 0x81000040 && Tempered(0x02000000) == 0x22204888
    ensures Tempered(0x04000000) == 0x44009100 && Tempered(0x08000000) == 0x88012200
    ensures Tempered(0x10000000) == 0x11020440 && Tempered(0x20000000) == 0x20040801
    ensures Tempered(0x40000000) == 0x44081102 && Tempered(0x80000000) == 0x88102204
  {
  }

  /** What a seed with the given hexadecimal digits returns. */
  lemma OutputOf(d7: Hex, d6: Hex, d5: Hex, d4: Hex, d3: Hex, d2: Hex, d1: Hex, d0: Hex,
                 e7: Hex, e6: Hex, e5: Hex, e4: Hex, e3: Hex, e2: Hex, e1: Hex, e0: Hex)
    requires Tempered(PackDigits(d7, d6, d5, d4, d3, d2, d1, d0)) == PackDigits(e7, e6, e5, e4, e3, e2, e1, e0)
    ensures Output(Horner(d7, d6, d5, d4, d3, d2, d1, d0)) == Horner(e7, e6, e5, e4, e3, e2, e1, e0) / 2
  {
    ToBitsOfHorner(d7, d6, d5, d4, d3, d2, d1, d0);
    FromPackedDigits(e7, e6, e5, e4, e3, e2, e1, e0);
    hide Tempered, PackDigits, Horner, ToBits, FromBits;
  }

  lemma Tempered1()
    ensures Tempered(PackDigits(4, 1, 12, 6, 7, 14, 10, 6)) ==
              PackDigits(14, 13, 10, 10, 6, 9, 8, 3)
    ensures Horner(4, 1, 12, 6, 7, 14, 10, 6) == 1103527590 && Horner(14, 13, 10, 10, 6, 9, 8, 3) == 3987368323
  {
    DigitsAsBits();
    hide DigitBits;
  }

  lemma Tempered2()
    ensures Tempered(PackDigits(9, 6, 7, 14, 11, 0, 14, 7)) ==
              PackDigits(10, 5, 8, 0, 4, 6, 13, 1)
    ensures Horner(9, 6, 7, 14, 11, 0, 14, 7) == 2524885223 && Horner(10, 5, 8, 0, 4, 6, 13, 1) == 2776647377
  {
    DigitsAsBits();
    hide DigitBits;
  }

  /** The first two calls on the seed 1: the seeds they leave, and what they return. */
  lemma FirstCalls()
    ensures SeedAfter(1, 1) == 1103527590 && SeedAfter(1, 2) == 2524885223
    ensures Call(1, 0) == 1993684161 && Call(1, 1) == 1388323688
  {
    assert SeedAfter(1, 0) == 1 && NextSeed(1) == 1103527590 && NextSeed(1103527590) == 2524885223;
    Tempered1();
    Tempered2();
    hide Output, Tempered, PackDigits, Horner;
    OutputOf(4, 1, 12, 6, 7, 14, 10, 6, 14, 13, 10, 10, 6, 9, 8, 3);
    OutputOf(9, 6, 7, 14, 11, 0, 14, 7, 10, 5, 8, 0, 4, 6, 13, 1);
  }

  // ----- the seed runs through every word before it repeats -----

  function MultiplierPower(n: nat): int {
    if n == 0 then 1 else MULTIPLIER * MultiplierPower(n - 1)
  }

  /** The sum of the first n powers of the multiplier. */
  function PowerSum(n: nat): int {
    if n == 0 then 0 else 1 + MULTIPLIER * PowerSum(n - 1)
  }

  lemma {:induction false} PowerIsOneModFour(n: nat) returns (q: int)
    ensures MultiplierPower(n) == 4 * q + 1
  {
    if n == 0 {
      q := 0;
    } else {
      var q' := PowerIsOneModFour(n - 1);
      q := MULTIPLIER * q' + MULTIPLIER / 4;
    }
  }

  lemma {:induction false} PowerSumParity(n: nat) returns (q: int)
    ensures PowerSum(n) == 2 * q + n % 2
  {
    if n == 0 {
      q := 0;
    } else {
      var q' := PowerSumParity(n - 1);
      var r := (n - 1) % 2;
      q := MULTIPLIER * q' + (MULTIPLIER / 2) * r + (if r == 1 then 1 else 0);
    }
  }

  lemma {:induction false} PowerSumSplits(m: nat, n: nat)
    ensures PowerSum(m + n) == PowerSum(m) + MultiplierPower(m) * PowerSum(n)
  {
    if m > 0 {
      PowerSumSplits(m - 1, n);
      Distribute(MULTIPLIER, PowerSum(m - 1), MultiplierPower(m - 1), PowerSum(n));
      assert m + n - 1 == m - 1 + n;
    }
  }

  lemma Distribute(a: int, g: int, p: int, h: int)
    ensures a * (g + p * h) == a * g + (a * p) * h
  {
  }

  /** An even-length sum is twice an odd multiple of its half. */
  lemma PowerSumDoubles(m: nat) returns (odd: int)
    ensures odd % 2 == 1 && PowerSum(2 * m) == 2 * (PowerSum(m) * odd)
  {
    assert m + m == 2 * m;
    PowerSumSplits(m, m);
    var q := PowerIsOneModFour(m);
    odd := TwiceOdd(PowerSum(m), MultiplierPower(m), q, PowerSum(2 * m));
  }

  lemma TwiceOdd(g: int, p: int, q: int, sum: int) returns (odd: int)
    requires p == 4 * q + 1 && sum == g + p * g
    ensures odd % 2 == 1 && sum == 2 * (g * odd)
  {
    odd := 2 * q + 1;
    assert p == 2 * odd - 1;
  }

  /** Since the multiplier is 1 mod 4, the sum of n powers has exactly as many factors of two as n. */
  lemma {:induction false} PowerSumHalves(k: nat, n: nat)
    ensures HalvesTo(k, PowerSum(n)) <==> HalvesTo(k, n)
  {
    if k > 0 {
      if n % 2 == 0 {
        var odd := PowerSumDoubles(n / 2);
        PowerSumHalves(k - 1, n / 2);
        CancelOdd(k - 1, PowerSum(n / 2), odd);
        HalvesOfDouble(k, PowerSum(n), PowerSum(n / 2) * odd);
      } else {
        var q := PowerSumParity(n);
        OddHasNoHalf(k, PowerSum(n), q);
      }
    }
  }

  lemma HalvesOfDouble(k: nat, x: int, half: int)
    requires k > 0 && x == 2 * half
    ensures HalvesTo(k, x) <==> HalvesTo(k - 1, half)
  {
    RemainderUnique(x, 2, half, 0);
  }

  lemma OddHasNoHalf(k: nat, x: int, q: int)
    requires k > 0 && x == 2 * q + 1
    ensures !HalvesTo(k, x)
  {
    RemainderUnique(x, 2, q, 1);
  }

  function Drift(seed: int): int {
    seed * (MULTIPLIER - 1) + INCREMENT
  }

  lemma {:induction false} SeedClosedForm(seed: Word, n: nat)
    ensures SeedAfter(seed, n) == (seed + PowerSum(n) * Drift(seed)) % WORD_MODULUS
  {
    if n > 0 {
      SeedClosedForm(seed, n - 1);
      StepClosedForm(seed, Drift(seed), PowerSum(n - 1), SeedAfter(seed, n - 1));
    }
  }

  lemma StepClosedForm(seed: Word, d: int, g: int, before: Word)
    requires d == Drift(seed) && before == (seed + g * d) % WORD_MODULUS
    ensures NextSeed(before) == (seed + (1 + MULTIPLIER * g) * d) % WORD_MODULUS
  {
    var x := g * d;
    assert (1 + MULTIPLIER * g) * d == d + MULTIPLIER * x by {
      Distribute(1, d, MULTIPLIER * g, d);
    }
    var q := (seed + x) / WORD_MODULUS;
    assert seed + d + MULTIPLIER * x == (before * MULTIPLIER + INCREMENT) + WORD_MODULUS * (q * MULTIPLIER);
    AddMultiple(before * MULTIPLIER + INCREMENT, WORD_MODULUS, q * MULTIPLIER);
  }

  /** The seed comes back after exactly the multiples of 2^32 calls. */
  lemma SeedReturns(seed: Word, n: nat)
    ensures SeedAfter(seed, n) == seed <==> n % WORD_MODULUS == 0
  {
    SeedClosedForm(seed, n);
    var d, x := Drift(seed), PowerSum(n) * Drift(seed);
    DriftIsOdd(seed);
    CancelOdd(32, PowerSum(n), d);
    PowerSumHalves(32, n);
    DividedByWord(n);
    DividedByWord(x);
    ReturnsWhenMultiple(seed, x);
  }

  lemma DriftIsOdd(seed: int)
    ensures Drift(seed) % 2 == 1
  {
    RemainderUnique(Drift(seed), 2, seed * (MULTIPLIER / 2) + INCREMENT / 2, 1);
  }

  lemma ReturnsWhenMultiple(seed: Word, x: int)
    ensures (seed + x) % WORD_MODULUS == seed <==> x % WORD_MODULUS == 0
  {
    if x % WORD_MODULUS == 0 {
      RemainderUnique(seed + x, WORD_MODULUS, x / WORD_MODULUS, seed);
    }
    if (seed + x) % WORD_MODULUS == seed {
      RemainderUnique(x, WORD_MODULUS, (seed + x) / WORD_MODULUS, 0);
    }
  }

  lemma DividedByWord(n: int)
    ensures HalvesTo(32, n) <==> n % WORD_MODULUS == 0
  {
    PowerOf32();
    HalvesToIsDivisibility(32, n);
  }

  lemma PowerOf32()
    ensures Pow2(32) == WORD_MODULUS
  {
    assert Pow2(8) == 0x100;
    assert Pow2(16) == 0x1_0000;
    assert Pow2(24) == 0x100_0000;
  }

  lemma {:induction false} SeedAfterSum(seed: Word, m: nat, n: nat)
    ensures SeedAfter(seed, m + n) == SeedAfter(SeedAfter(seed, m), n)
  {
    if n > 0 {
      SeedAfterSum(seed, m, n - 1);
      assert m + n - 1 == m + (n - 1);
    }
  }

  /** Two calls leave the same seed exactly when a multiple of 2^32 calls lies between them. */
  lemma SeedRepeats(seed: Word, i: nat, j: nat)
    requires i <= j
    ensures SeedAfter(seed, i) == SeedAfter(seed, j) <==> (j - i) % WORD_MODULUS == 0
  {
    SeedAfterSum(seed, i, j - i);
    SeedReturns(SeedAfter(seed, i), j - i);
  }

  // ----- so every value comes out equally often -----

  ghost function Halving(f: nat -> nat, n: nat, v: nat): set<nat> {
    set i: nat | i < n && f(i) / 2 == v
  }

  /** Dropping the lowest bit of such an injection meets every value twice. */
  lemma HalvingMeetsTwice(f: nat -> nat, n: nat, v: nat)
    requires forall i: nat :: i < n ==> f(i) < n
    requires forall i: nat, j: nat :: i < j < n ==> f(i) != f(j)
    requires 2 * v + 1 < n
    ensures |Halving(f, n, v)| == 2
  {
    var i0 := InjectionIsOnto(f, n, 2 * v);
    var i1 := InjectionIsOnto(f, n, 2 * v + 1);
    assert Halving(f, n, v) == {i0, i1};
  }

  function UntemperedWord(y: Word): Word {
    FromBits(Untempered(ToBits(y)))
  }

  lemma TemperedWordIsBijective(x: Word)
    ensures UntemperedWord(TemperedWord(x)) == x
    ensures TemperedWord(UntemperedWord(x)) == x
  {
    var b := ToBits(x);
    TemperIsBijective(b);
    BitsRoundTrip(x);
    NumberRoundTrip(Tempered(b));
    NumberRoundTrip(Untempered(b));
  }

  ghost function TemperedCalls(seed: Word): nat -> nat {
    (n: nat) => TemperedWord(SeedAfter(seed, n + 1))
  }

  lemma TemperedWordsDiffer(x: Word, y: Word)
    requires x != y
    ensures TemperedWord(x) != TemperedWord(y)
  {
    TemperedWordIsBijective(x);
    TemperedWordIsBijective(y);
  }

  lemma TemperedCallsDiffer(seed: Word, i: nat, j: nat)
    requires i < j < WORD_MODULUS
    ensures TemperedCalls(seed)(i) != TemperedCalls(seed)(j)
  {
    hide TemperedWord;
    SeedRepeats(seed, i + 1, j + 1);
    TemperedWordsDiffer(SeedAfter(seed, i + 1), SeedAfter(seed, j + 1));
  }

  /** The calls among the first 2^32, made on any seed, that return v. */
  ghost function CallsReturning(seed: Word, v: int): set<nat> {
    set n: nat | n < WORD_MODULUS && Call(seed, n) == v
  }

  /** From any seed, 2^32 consecutive calls return each of the 2^31 possible values exactly twice. */
  lemma Equidistribution(seed: Word, v: int)
    requires 0 <= v < RAND_LIMIT
    ensures |CallsReturning(seed, v)| == 2
  {
    var f := TemperedCalls(seed);
    forall i: nat, j: nat | i < j < WORD_MODULUS
      ensures f(i) != f(j)
    {
      TemperedCallsDiffer(seed, i, j);
    }
    HalvingMeetsTwice(f, WORD_MODULUS, v);
    assert CallsReturning(seed, v) == Halving(f, WORD_MODULUS, v);
  }
}
