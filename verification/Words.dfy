/** 32-bit machine words: the number, and the bit pattern that holds it. */
module Words {

  const WORD_MODULUS: int := 0x1_0000_0000

  type Word = x: int | 0 <= x < WORD_MODULUS

  type Hex = d: int | 0 <= d < 16

  /** The number with the given hexadecimal digits, most significant first. */
  function Horner(d7: Hex, d6: Hex, d5: Hex, d4: Hex, d3: Hex, d2: Hex, d1: Hex, d0: Hex): Word {
    Append(Append(Append(Append(Append(Append(Append(d7, d6), d5), d4), d3), d2), d1), d0)
  }

  function Append(n: nat, d: Hex): (m: nat)
    ensures m == 16 * n + d && m / 16 == n && m % 16 == d
  {
    16 * n + d
  }

  function Pack(d7: bv4, d6: bv4, d5: bv4, d4: bv4, d3: bv4, d2: bv4, d1: bv4, d0: bv4): bv32 {
    ((d7 as bv32) << 28) | ((d6 as bv32) << 24) | ((d5 as bv32) << 20) | ((d4 as bv32) << 16) |
    ((d3 as bv32) << 12) | ((d2 as bv32) << 8) | ((d1 as bv32) << 4) | (d0 as bv32)
  }

  function DigitBits(d: Hex): (b: bv4)
    ensures b as int == d
  {
    d as bv4
  }

  function Nibble(b: bv32): bv4 {
    (b & 0xF) as bv4
  }

  function Digit(b: bv32): Hex {
    Nibble(b) as int
  }

  /** The bit pattern of a number, hexadecimal digit by hexadecimal digit. */
  function ToBits(x: Word): bv32 {
    var x1 := x / 16;
    var x2 := x1 / 16;
    var x3 := x2 / 16;
    var x4 := x3 / 16;
    var x5 := x4 / 16;
    var x6 := x5 / 16;
    var x7 := x6 / 16;
    PackDigits(x7, x6 % 16, x5 % 16, x4 % 16, x3 % 16, x2 % 16, x1 % 16, x % 16)
  }

  function PackDigits(d7: Hex, d6: Hex, d5: Hex, d4: Hex, d3: Hex, d2: Hex, d1: Hex, d0: Hex): bv32 {
    Pack(DigitBits(d7), DigitBits(d6), DigitBits(d5), DigitBits(d4),
         DigitBits(d3), DigitBits(d2), DigitBits(d1), DigitBits(d0))
  }

  /** The number a bit pattern stands for. */
  function FromBits(b: bv32): Word {
    Horner(Digit(b >> 28), Digit(b >> 24), Digit(b >> 20), Digit(b >> 16),
           Digit(b >> 12), Digit(b >> 8), Digit(b >> 4), Digit(b))
  }

  lemma NibblesOfPack(d7: bv4, d6: bv4, d5: bv4, d4: bv4, d3: bv4, d2: bv4, d1: bv4, d0: bv4)
    ensures var b := Pack(d7, d6, d5, d4, d3, d2, d1, d0);
            && Nibble(b >> 28) == d7 && Nibble(b >> 24) == d6 && Nibble(b >> 20) == d5 && Nibble(b >> 16) == d4
            && Nibble(b >> 12) == d3 && Nibble(b >> 8) == d2 && Nibble(b >> 4) == d1 && Nibble(b) == d0
  {
  }

  lemma PackOfNibbles(b: bv32)
    ensures Pack(Nibble(b >> 28), Nibble(b >> 24), Nibble(b >> 20), Nibble(b >> 16),
                 Nibble(b >> 12), Nibble(b >> 8), Nibble(b >> 4), Nibble(b)) == b
  {
  }

  lemma FromPackedDigits(d7: Hex, d6: Hex, d5: Hex, d4: Hex, d3: Hex, d2: Hex, d1: Hex, d0: Hex)
    ensures FromBits(PackDigits(d7, d6, d5, d4, d3, d2, d1, d0)) == Horner(d7, d6, d5, d4, d3, d2, d1, d0)
  {
    NibblesOfPack(DigitBits(d7), DigitBits(d6), DigitBits(d5), DigitBits(d4),
                  DigitBits(d3), DigitBits(d2), DigitBits(d1), DigitBits(d0));
  }

  lemma BitsRoundTrip(x: Word)
    ensures FromBits(ToBits(x)) == x
  {
    var x1 := x / 16;
    var x2 := x1 / 16;
    var x3 := x2 / 16;
    var x4 := x3 / 16;
    var x5 := x4 / 16;
    var x6 := x5 / 16;
    FromPackedDigits(x6 / 16, x6 % 16, x5 % 16, x4 % 16, x3 % 16, x2 % 16, x1 % 16, x % 16);
  }

  lemma NibbleOfDigit(b: bv4)
    ensures 0 <= b as int < 16 && DigitBits(b as int) == b
  {
    assert (b as int) as bv4 == b;
  }

  lemma ToBitsOfHorner(d7: Hex, d6: Hex, d5: Hex, d4: Hex, d3: Hex, d2: Hex, d1: Hex, d0: Hex)
    ensures ToBits(Horner(d7, d6, d5, d4, d3, d2, d1, d0)) == PackDigits(d7, d6, d5, d4, d3, d2, d1, d0)
  {
  }

  lemma PackedNibbles(b: bv32)
    ensures PackDigits(Digit(b >> 28), Digit(b >> 24), Digit(b >> 20), Digit(b >> 16),
                       Digit(b >> 12), Digit(b >> 8), Digit(b >> 4), Digit(b)) == b
  {
    NibbleOfDigit(Nibble(b >> 28));
    NibbleOfDigit(Nibble(b >> 24));
    NibbleOfDigit(Nibble(b >> 20));
    NibbleOfDigit(Nibble(b >> 16));
    NibbleOfDigit(Nibble(b >> 12));
    NibbleOfDigit(Nibble(b >> 8));
    NibbleOfDigit(Nibble(b >> 4));
    NibbleOfDigit(Nibble(b));
    PackOfNibbles(b);
  }

  lemma DigitsAsBits()
    ensures DigitBits(0) == 0 && DigitBits(1) == 1 && DigitBits(2) == 2 && DigitBits(3) == 3
    ensures DigitBits(4) == 4 && DigitBits(5) == 5 && DigitBits(6) == 6 && DigitBits(7) == 7
    ensures DigitBits(8) == 8 && DigitBits(9) == 9 && DigitBits(10) == 10 && DigitBits(11) == 11
    ensures DigitBits(12) == 12 && DigitBits(13) == 13 && DigitBits(14) == 14 && DigitBits(15) == 15
  {
  }

  lemma PackedInPlace()
    ensures Pack(0, 1, 2, 3, 4, 5, 6, 7) == 0x0123_4567 && Pack(8, 9, 10, 11, 12, 13, 14, 15) == 0x89AB_CDEF
    ensures Horner(0, 1, 2, 3, 4, 5, 6, 7) == 0x0123_4567 && Horner(8, 9, 10, 11, 12, 13, 14, 15) == 0x89AB_CDEF
  {
  }

  /** The bits are those of the number as the machine has them. */
  lemma BitsOfNumbers()
    ensures ToBits(0x0123_4567) == 0x0123_4567 && ToBits(0x89AB_CDEF) == 0x89AB_CDEF
  {
    DigitsAsBits();
    PackedInPlace();
    ToBitsOfHorner(0, 1, 2, 3, 4, 5, 6, 7);
    ToBitsOfHorner(8, 9, 10, 11, 12, 13, 14, 15);
    hide DigitBits, Pack, Horner, ToBits;
  }

  lemma NumberRoundTrip(b: bv32)
    ensures ToBits(FromBits(b)) == b
  {
    ToBitsOfHorner(Digit(b >> 28), Digit(b >> 24), Digit(b >> 20), Digit(b >> 16),
                   Digit(b >> 12), Digit(b >> 8), Digit(b >> 4), Digit(b));
    PackedNibbles(b);
  }
}
