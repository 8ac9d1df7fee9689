/** 16807 is a primitive root of 2^31 - 1: its powers run through the nonzero residues with period 2^31 - 2.
    The certificate is the factorization of the period and, for each prime p in it, the power with exponent
    (2^31 - 2) / p, one hexadecimal digit of the exponent at a time. */
module PrimitiveRoot {
  import opened Arithmetic
  import opened ModPower

  const MODULUS: int := 0x7fff_ffff
  const MULTIPLIER: int := 16807
  const PERIOD: nat := 0x7fff_fffe
  const PRIMES: seq<int> := [2, 3, 3, 7, 11, 31, 151, 331]

  lemma PrimesArePrime()
    ensures AllPrime(PRIMES)
  {
    assert IsPrime(2) && IsPrime(3) && IsPrime(7) && IsPrime(11);
    assert NoFactorUpTo(31, 9) && NoFactorUpTo(151, 9) && NoFactorUpTo(331, 9);
    PrimeBelow361(31);
    PrimeBelow361(151);
    PrimeBelow361(331);
  }

  lemma PrimesMultiplyToPeriod()
    ensures Product(PRIMES) == PERIOD
  {
    assert Product([151, 331]) == 49981;
    assert Product([31, 151, 331]) == 1549411;
    assert Product([11, 31, 151, 331]) == 17043521;
    assert Product([7, 11, 31, 151, 331]) == 119304647;
    assert Product([3, 7, 11, 31, 151, 331]) == 357913941;
    assert Product([3, 3, 7, 11, 31, 151, 331]) == 1073741823;
  }

  /** The next power. */
  lemma Bit(e: nat, x: int, y: int)
    requires Power(MODULUS, MULTIPLIER, e) == x
    requires (16807 * x) % 0x7fff_ffff == y
    ensures Power(MODULUS, MULTIPLIER, e + 1) == y
  {
  }

  /** Appends a hexadecimal digit to the exponent: four squarings and one product. */
  lemma Digit(e: nat, d: nat, x: int, y: int, x2: int, x4: int, x8: int, x16: int, z: int)
    requires Power(MODULUS, MULTIPLIER, e) == x && Power(MODULUS, MULTIPLIER, d) == y
    requires (x * x) % 0x7fff_ffff == x2 && (x2 * x2) % 0x7fff_ffff == x4
    requires (x4 * x4) % 0x7fff_ffff == x8 && (x8 * x8) % 0x7fff_ffff == x16
    requires (x16 * y) % 0x7fff_ffff == z
    ensures Power(MODULUS, MULTIPLIER, 16 * e + d) == z
  {
    hide Power;
    PowerSplits(MODULUS, MULTIPLIER, e, e);
    PowerSplits(MODULUS, MULTIPLIER, 2 * e, 2 * e);
    PowerSplits(MODULUS, MULTIPLIER, 4 * e, 4 * e);
    PowerSplits(MODULUS, MULTIPLIER, 8 * e, 8 * e);
    PowerSplits(MODULUS, MULTIPLIER, 16 * e, d);
  }

  lemma SmallPowers()
    ensures Power(MODULUS, MULTIPLIER, 0x0) == 1
    ensures Power(MODULUS, MULTIPLIER, 0x1) == 16807
    ensures Power(MODULUS, MULTIPLIER, 0x2) == 282475249
    ensures Power(MODULUS, MULTIPLIER, 0x3) == 1622650073
    ensures Power(MODULUS, MULTIPLIER, 0x4) == 984943658
    ensures Power(MODULUS, MULTIPLIER, 0x5) == 1144108930
    ensures Power(MODULUS, MULTIPLIER, 0x6) == 470211272
    ensures Power(MODULUS, MULTIPLIER, 0x7) == 101027544
    ensures Power(MODULUS, MULTIPLIER, 0x8) == 1457850878
    ensures Power(MODULUS, MULTIPLIER, 0x9) == 1458777923
    ensures Power(MODULUS, MULTIPLIER, 0xa) == 2007237709
    ensures Power(MODULUS, MULTIPLIER, 0xb) == 823564440
    ensures Power(MODULUS, MULTIPLIER, 0xc) == 1115438165
    ensures Power(MODULUS, MULTIPLIER, 0xd) == 1784484492
    ensures Power(MODULUS, MULTIPLIER, 0xe) == 74243042
    ensures Power(MODULUS, MULTIPLIER, 0xf) == 114807987
  {
    assert Power(MODULUS, MULTIPLIER, 0) == 1;
    hide Power;
    Bit(0x0, 1, 16807);
    Bit(0x1, 16807, 282475249);
    Bit(0x2, 282475249, 1622650073);
    Bit(0x3, 1622650073, 984943658);
    Bit(0x4, 984943658, 1144108930);
    Bit(0x5, 1144108930, 470211272);
    Bit(0x6, 470211272, 101027544);
    Bit(0x7, 101027544, 1457850878);
    Bit(0x8, 1457850878, 1458777923);
    Bit(0x9, 1458777923, 2007237709);
    Bit(0xa, 2007237709, 823564440);
    Bit(0xb, 823564440, 1115438165);
    Bit(0xc, 1115438165, 1784484492);
    Bit(0xd, 1784484492, 74243042);
    Bit(0xe, 74243042, 114807987);
  }

  lemma Half()
    ensures Power(MODULUS, MULTIPLIER, 0x3fffffff) == 2147483646
  {
    hide Power;
    SmallPowers();
    Digit(0x3, 0xf, 1622650073, 114807987, 470211272, 1115438165, 1998097157,
          1899894091, 1108728549);
    Digit(0x3f, 0xf, 1108728549, 114807987, 1524325968, 1887638, 501848671,
          1795289992, 754609818);
    Digit(0x3ff, 0xf, 754609818, 114807987, 878627494, 2009050749, 2071703685,
          1587893215, 1181132756);
    Digit(0x3fff, 0xf, 1181132756, 114807987, 1101980020, 1240574072, 998581414,
          963142635, 103492285);
    Digit(0x3ffff, 0xf, 103492285, 114807987, 1055697433, 1242312909, 1264295359,
          492532464, 1799481238);
    Digit(0x3fffff, 0xf, 1799481238, 114807987, 697064706, 225900933, 2100992093,
          827792946, 797756594);
    Digit(0x3ffffff, 0xf, 797756594, 114807987, 1946561783, 1688537117, 1824949437,
          1839179627, 2147483646);
  }

  lemma Third()
    ensures Power(MODULUS, MULTIPLIER, 0x2aaaaaaa) == 634005911
  {
    hide Power;
    SmallPowers();
    Digit(0x2, 0xa, 282475249, 2007237709, 984943658, 1457850878, 1137522503,
          1636807826, 2110010672);
    Digit(0x2a, 0xa, 2110010672, 2007237709, 1478446501, 304987844, 832861200,
          476003622, 1987502657);
    Digit(0x2aa, 0xa, 1987502657, 2007237709, 898003988, 401868524, 512453959,
          84507850, 99284761);
    Digit(0x2aaa, 0xa, 99284761, 2007237709, 578505488, 11294627, 1627986388,
          1158865755, 1175969859);
    Digit(0x2aaaa, 0xa, 1175969859, 2007237709, 1524724550, 1299877462, 1677815163,
          1877619757, 313625057);
    Digit(0x2aaaaa, 0xa, 313625057, 2007237709, 438271176, 446115504, 1638520455,
          176702896, 1252779437);
    Digit(0x2aaaaaa, 0xa, 1252779437, 2007237709, 1388093266, 554809434, 1027646758,
          920240050, 634005911);
  }

  lemma Seventh()
    ensures Power(MODULUS, MULTIPLIER, 0x12492492) == 1600955193
  {
    hide Power;
    SmallPowers();
    Digit(0x1, 0x2, 16807, 282475249, 282475249, 984943658, 1457850878,
          1137522503, 16531729);
    Digit(0x12, 0x4, 16531729, 984943658, 704877633, 824938981, 318153057,
          855007065, 338725129);
    Digit(0x124, 0x9, 338725129, 1458777923, 401203083, 749808928, 2110720068,
          1105460498, 184149733);
    Digit(0x1249, 0x2, 184149733, 282475249, 1588280530, 1292075693, 320365114,
          795457266, 713072451);
    Digit(0x12492, 0x4, 713072451, 984943658, 808531276, 72714612, 821751376,
          1691809704, 1994951511);
    Digit(0x124924, 0x9, 1994951511, 1458777923, 2080243443, 1683044520, 1970866768,
          1272582736, 1491475262);
    Digit(0x1249249, 0x2, 1491475262, 282475249, 1410082339, 1210473470, 2032255744,
          1294654868, 1600955193);
  }

  lemma Eleventh()
    ensures Power(MODULUS, MULTIPLIER, 0xba2e8ba) == 298192073
  {
    hide Power;
    SmallPowers();
    Digit(0xb, 0xa, 823564440, 2007237709, 1474833169, 1617819336, 1557810404,
          784559590, 462242385);
    Digit(0xba, 0x2, 462242385, 282475249, 978719103, 1763464891, 1385869610,
          1047660757, 1503614727);
    Digit(0xba2, 0xe, 1503614727, 74243042, 1426595217, 1593242601, 245677251,
          984865240, 2001314837);
    Digit(0xba2e, 0x8, 2001314837, 1457850878, 1917845806, 450369632, 703814329,
          723275386, 289296328);
    Digit(0xba2e8, 0xb, 289296328, 823564440, 1343207366, 2134136009, 2049340277,
          1935649565, 1008979637);
    Digit(0xba2e8b, 0xa, 1008979637, 2007237709, 547841991, 1476938629, 2065865593,
          1728334681, 298192073);
  }

  lemma ThirtyFirst()
    ensures Power(MODULUS, MULTIPLIER, 0x4210842) == 16384
  {
    hide Power;
    SmallPowers();
    Digit(0x4, 0x2, 984943658, 282475249, 1457850878, 1137522503, 1636807826,
          685118024, 1060806853);
    Digit(0x42, 0x1, 1060806853, 16807, 1400285365, 175530180, 706642601,
          1680351381, 108218770);
    Digit(0x421, 0x0, 108218770, 1, 111398400, 2048666863, 480822013,
          1593778648, 1593778648);
    Digit(0x4210, 0x8, 1593778648, 1457850878, 1464474750, 1535817640, 911831480,
          2072488627, 2107038118);
    Digit(0x42108, 0x4, 2107038118, 984943658, 1590438532, 2141501481, 642557948,
          122712502, 495975381);
    Digit(0x421084, 0x2, 495975381, 282475249, 411385676, 424739074, 205970348,
          2143103993, 16384);
  }

  lemma OneIn151()
    ensures Power(MODULUS, MULTIPLIER, 0xd901b2) == 1013763951
  {
    hide Power;
    SmallPowers();
    Digit(0xd, 0x9, 1784484492, 1458777923, 1131570933, 1025921153, 382955828,
          1104740033, 1719533808);
    Digit(0xd9, 0x0, 1719533808, 1, 2119315080, 876554400, 444978220,
          454021550, 454021550);
    Digit(0xd90, 0x1, 454021550, 16807, 2010792109, 2100574543, 1969511326,
          199457713, 63809424);
    Digit(0xd901, 0xb, 63809424, 823564440, 711597894, 1876427685, 506944312,
          2041767666, 1422968813);
    Digit(0xd901b, 0x2, 1422968813, 282475249, 1031122011, 2059074765, 758497081,
          1449655222, 1013763951);
  }

  lemma OneIn331()
    ensures Power(MODULUS, MULTIPLIER, 0x62ff3a) == 759513457
  {
    hide Power;
    SmallPowers();
    Digit(0x6, 0x2, 470211272, 282475249, 1115438165, 1998097157, 1899894091,
          1816731566, 1807130337);
    Digit(0x62, 0xf, 1807130337, 114807987, 992663534, 1603481258, 320514918,
          1783848212, 182048270);
    Digit(0x62f, 0xf, 182048270, 114807987, 799204591, 1592854157, 672182563,
          461101996, 1349594950);
    Digit(0x62ff, 0x3, 1349594950, 1622650073, 924100177, 1315497955, 1048814560,
          1051660835, 150479927);
    Digit(0x62ff3, 0xa, 150479927, 2007237709, 542140772, 302749254, 482696820,
          1742270007, 759513457);
  }

  lemma TenThousandth()
    ensures Power(MODULUS, MULTIPLIER, 10000) == 1043618065
  {
    hide Power;
    SmallPowers();
    Digit(0x2, 0x7, 282475249, 101027544, 984943658, 1457850878, 1137522503,
          1636807826, 2128236579);
    Digit(0x27, 0x1, 2128236579, 16807, 107554536, 1351345223, 1129841133,
          73536496, 1124791247);
    Digit(0x271, 0x0, 1124791247, 1, 1903958413, 566390040, 1069865427,
          1043618065, 1043618065);
  }

  lemma WholePeriod()
    ensures Power(MODULUS, MULTIPLIER, PERIOD) == 1
  {
    hide Power;
    Half();
    PowerSplits(MODULUS, MULTIPLIER, 0x3fffffff, 0x3fffffff);
  }

  lemma PartsGiveOther(i: nat)
    requires i < |PRIMES|
    ensures GivesOther(MODULUS, MULTIPLIER, PERIOD, PRIMES[i])
  {
    hide Power;
    Half();
    Third();
    Seventh();
    Eleventh();
    ThirtyFirst();
    OneIn151();
    OneIn331();
  }

  /** Only the multiples of 2^31 - 2 give one. */
  lemma PowerIsOne(e: nat)
    ensures Power(MODULUS, MULTIPLIER, e) == 1 <==> e % PERIOD == 0
  {
    hide Power, Product, AllPrime, GivesOther;
    PrimesArePrime();
    PrimesMultiplyToPeriod();
    WholePeriod();
    forall i | 0 <= i < |PRIMES|
      ensures GivesOther(MODULUS, MULTIPLIER, PERIOD, PRIMES[i])
    {
      PartsGiveOther(i);
    }
    OrderIs(MODULUS, MULTIPLIER, PERIOD, PRIMES, e);
  }
}
