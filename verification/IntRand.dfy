/** The 32-bit step of the shell's generator: multiplication by 16807 modulo 2^31 - 1, in signed 32-bit
    arithmetic that never overflows. */
module IntRand {
  import opened Arithmetic
  import opened Counting
  import opened ModPower
  import opened PrimitiveRoot
  import opened Words

  type Int32 = x: int | -0x8000_0000 <= x < 0x8000_0000

  function Seeded(last: Word): Word {
    if last == 0 then 123459876 else last
  }

  /** The seed's product with the multiplier, reduced. */
  function Next(last: Word): Word {
    (MULTIPLIER * Seeded(last)) % MODULUS
  }

  /** The state after n calls. */
  function After(last: Word, n: nat): Word {
    if n == 0 then last else Next(After(last, n - 1))
  }

  /** The declared types are subset types, so that no intermediate value overflows is part of what is checked. */
  method IntRand32(last: Word) returns (ret: Word)
    ensures ret == Next(last)
  {
    ret := if last == 0 then 123459876 else last;
    var h: Int32 := ret / 127773;
    var l: Int32 := ret % 127773;
    StepIsProduct(ret, h, l);
    var scaled: Int32, taken: Int32 := 16807 * l, 2836 * h;
    var t: Int32 := scaled - taken;
    var reduced: Int32 := if t < 0 then t + 0x7fffffff else t;
    ret := reduced;
  }

  /** The modulus is 127773 * 16807 + 2836, so the difference is the product less a multiple of the modulus. */
  lemma StepIsProduct(x: Word, h: int, l: int)
    requires x == 127773 * h + l && 0 <= l < 127773
    ensures var t := 16807 * l - 2836 * h;
            (MULTIPLIER * x) % MODULUS == if t < 0 then t + MODULUS else t
  {
    var t := 16807 * l - 2836 * h;
    if t < 0 {
      RemainderUnique(MULTIPLIER * x, MODULUS, h - 1, t + MODULUS);
    } else {
      RemainderUnique(MULTIPLIER * x, MODULUS, h, t);
    }
  }

  /** The states the step keeps among themselves. */
  predicate InRange(x: int) {
    1 <= x < MODULUS
  }

  // ----- every state in range is a power of the multiplier -----

  ghost function Residue(e: nat): int {
    Power(MODULUS, MULTIPLIER, e)
  }

  lemma ResiduesAdd(i: nat, j: nat)
    ensures Residue(i + j) == Times(MODULUS, Residue(i), Residue(j))
  {
    PowerSplits(MODULUS, MULTIPLIER, i, j);
  }

  lemma ResidueInRange(e: nat)
    ensures InRange(Residue(e))
  {
    hide Power;
    var rest := PERIOD - 1 - (e + PERIOD - 1) % PERIOD;
    assert (e + rest) % PERIOD == 0;
    PowerIsOne(e + rest);
    ResiduesAdd(e, rest);
  }

  /** Two exponents give the same residue exactly when a multiple of the period lies between them. */
  lemma ResidueRepeats(i: nat, j: nat)
    requires i <= j
    ensures Residue(i) == Residue(j) <==> (j - i) % PERIOD == 0
  {
    hide Power, Times;
    var rest := PERIOD - 1 - (i + PERIOD - 1) % PERIOD;
    assert (i + rest) % PERIOD == 0;
    PowerIsOne(i + rest);
    PowerIsOne(j + rest);
    PowerIsOne(j - i);
    ResiduesAdd(i, rest);
    ResiduesAdd(j, rest);
    ResiduesAdd(i, j - i);
    TimesOne(MODULUS, Residue(i));
  }

  ghost function ResidueIndex(): nat -> nat {
    (e: nat) => if Residue(e) > 0 then Residue(e) - 1 else 0
  }

  lemma DiscreteLogarithm(x: int) returns (e: nat)
    requires InRange(x)
    ensures e < PERIOD && Residue(e) == x
  {
    hide Power;
    var f := ResidueIndex();
    forall i: nat
      ensures f(i) == Residue(i) - 1 && InRange(Residue(i))
    {
      ResidueInRange(i);
    }
    forall i: nat, j: nat | i < j < PERIOD
      ensures f(i) != f(j)
    {
      ResidueRepeats(i, j);
    }
    e := InjectionIsOnto(f, PERIOD, x - 1);
  }

  // ----- whole runs -----

  lemma {:induction false} AfterIsPower(last: Word, e: nat, n: nat)
    requires InRange(last) && Residue(e) == last
    ensures After(last, n) == Residue(e + n)
  {
    if n > 0 {
      AfterIsPower(last, e, n - 1);
      ResidueInRange(e + n - 1);
    }
  }

  /** No state in range ever leads to one outside it: the multiplier shares no factor with the modulus. */
  lemma {:induction false} RunsStayInRange(last: Word, n: nat)
    requires InRange(last)
    ensures InRange(After(last, n))
  {
    if n > 0 {
      RunsStayInRange(last, n - 1);
      NextStaysInRange(After(last, n - 1));
    }
  }

  /** 1407677000 is the inverse of the multiplier. */
  lemma NextStaysInRange(x: Word)
    requires InRange(x)
    ensures InRange(Next(x))
  {
    var q, r := (MULTIPLIER * x) / MODULUS, (MULTIPLIER * x) % MODULUS;
    if r == 0 {
      var t := 1407677000 * q - 11017 * x;
      assert x == MODULUS * t;
      NoSmallMultiple(MODULUS, t);
      assert false;
    }
  }

  /** The state comes back exactly after the multiples of 2^31 - 2 calls. */
  lemma StateRepeats(last: Word, i: nat, j: nat)
    requires InRange(last) && i <= j
    ensures After(last, i) == After(last, j) <==> (j - i) % PERIOD == 0
  {
    var e := DiscreteLogarithm(last);
    AfterIsPower(last, e, i);
    AfterIsPower(last, e, j);
    ResidueRepeats(e + i, e + j);
  }

  /** The check that Park and Miller published with the generator: from 1, the 10000th state. */
  lemma ParkMillerCheck()
    ensures After(1, 10000) == 1043618065
  {
    assert Residue(0) == 1;
    hide Power, After;
    TenThousandth();
    AfterIsPower(1, 0, 10000);
  }

  /** A seed of zero is replaced. */
  lemma AfterZero()
    ensures Next(0) == 520932930 == Next(123459876)
  {
  }

  /** What the n-th call returns. */
  function Call(last: Word, n: nat): Word {
    After(last, n + 1)
  }

  /** The calls among the first 2^31 - 2 that return v. */
  ghost function CallsReturning(last: Word, v: int): set<nat> {
    set n: nat | n < PERIOD && Call(last, n) == v
  }

  /** From any state in range, 2^31 - 2 calls return every value in range exactly once. */
  lemma EveryValueOnce(last: Word, v: int)
    requires InRange(last) && InRange(v)
    ensures |CallsReturning(last, v)| == 1
  {
    hide Power, After;
    var e := DiscreteLogarithm(last);
    var d := DiscreteLogarithm(v);
    var n := (d - e - 1) % PERIOD;
    AfterIsPower(last, e, n + 1);
    assert n >= d - e - 1;
    ResidueRepeats(d, e + n + 1);
    assert Call(last, n) == v;
    forall k | k in CallsReturning(last, v)
      ensures k == n
    {
      if k < n {
        StateRepeats(last, k + 1, n + 1);
      } else {
        StateRepeats(last, n + 1, k + 1);
      }
    }
    assert CallsReturning(last, v) == {n};
  }

  /** From any 32-bit seed the first call already returns a value in range, or zero for a multiple of the
      modulus; zero is then replaced like a zero seed. */
  lemma FirstCallInRange(last: Word)
    ensures InRange(Next(last)) <==> last != MODULUS && last != 2 * MODULUS
    ensures !InRange(Next(last)) ==> Next(last) == 0 && InRange(Next(0))
  {
    hide Power;
    var x := Seeded(last);
    MultiplesOfModulus(x);
    NextOfReduced(x);
    if x % MODULUS != 0 {
      RunsStayInRange(x % MODULUS, 1);
      OneStep(x % MODULUS);
    } else {
      RunsStayInRange(123459876, 1);
      OneStep(123459876);
    }
  }

  lemma OneStep(last: Word)
    ensures After(last, 1) == Next(last)
  {
    assert After(last, 0) == last;
  }

  lemma MultiplesOfModulus(x: Word)
    requires x != 0
    ensures x % MODULUS == 0 <==> x == MODULUS || x == 2 * MODULUS
  {
  }

  lemma NextOfReduced(x: Word)
    requires x != 0
    ensures x % MODULUS != 0 ==> Next(x) == Next(x % MODULUS)
    ensures x % MODULUS == 0 ==> Next(x) == 0
  {
    ReduceFactor(MODULUS, x, MULTIPLIER);
    assert MULTIPLIER * x == x * MULTIPLIER;
  }
}
