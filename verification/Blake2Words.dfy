/** 64-bit words and the operations BLAKE2b performs on them. */
module Blake2Words {

  type U64 = bv64
  type U8 = bv8

  function Add(x: U64, y: U64): U64 { x + y }

  function Sub(x: U64, y: U64): U64 { x - y }

  function Xor(x: U64, y: U64): U64 { x ^ y }

  // Rotation to the right by the four amounts R1 .. R4 of section 2.1 of RFC 7693.

  function Rotr32(w: U64): U64 { (w >> 32) | (w << 32) }

  function Rotr24(w: U64): U64 { (w >> 24) | (w << 40) }

  function Rotr16(w: U64): U64 { (w >> 16) | (w << 48) }

  function Rotr63(w: U64): U64 { (w >> 63) | (w << 1) }

  // Rotation to the left by the same amounts.

  function Rotl32(w: U64): U64 { (w << 32) | (w >> 32) }

  function Rotl24(w: U64): U64 { (w << 24) | (w >> 40) }

  function Rotl16(w: U64): U64 { (w << 16) | (w >> 48) }

  function Rotl63(w: U64): U64 { (w << 63) | (w >> 1) }

  lemma SubUndoesAdd(x: U64, y: U64)
    ensures Sub(Add(x, y), y) == x
    ensures Add(Sub(x, y), y) == x
  {
    assert Sub(x + y, y) == x;
    assert Add(x - y, y) == x;
  }

  lemma XorUndoesXor(x: U64, y: U64)
    ensures Xor(Xor(x, y), y) == x
  {
    assert Xor(x ^ y, y) == x;
  }

  lemma RotlUndoesRotr(w: U64)
    ensures Rotl32(Rotr32(w)) == w && Rotr32(Rotl32(w)) == w
    ensures Rotl24(Rotr24(w)) == w && Rotr24(Rotl24(w)) == w
    ensures Rotl16(Rotr16(w)) == w && Rotr16(Rotl16(w)) == w
    ensures Rotl63(Rotr63(w)) == w && Rotr63(Rotl63(w)) == w
  {
    assert Rotl32((w >> 32) | (w << 32)) == w;
    assert Rotr32((w << 32) | (w >> 32)) == w;
    assert Rotl24((w >> 24) | (w << 40)) == w;
    assert Rotr24((w << 24) | (w >> 40)) == w;
    assert Rotl16((w >> 16) | (w << 48)) == w;
    assert Rotr16((w << 16) | (w >> 48)) == w;
    assert Rotl63((w >> 63) | (w << 1)) == w;
    assert Rotr63((w << 63) | (w >> 1)) == w;
  }

  /** A word from eight bytes, least significant byte first. */
  function Load(b: seq<U8>): U64
    requires |b| == 8
  {
    (b[0] as U64) | ((b[1] as U64) << 8) | ((b[2] as U64) << 16) | ((b[3] as U64) << 24) |
    ((b[4] as U64) << 32) | ((b[5] as U64) << 40) | ((b[6] as U64) << 48) | ((b[7] as U64) << 56)
  }

  function ByteOf(w: U64): U8 {
    (w & 0xFF) as U8
  }

  /** The eight bytes of a word, least significant first. */
  function Store(w: U64): (b: seq<U8>)
    ensures |b| == 8
  {
    [ByteOf(w), ByteOf(w >> 8), ByteOf(w >> 16), ByteOf(w >> 24),
     ByteOf(w >> 32), ByteOf(w >> 40), ByteOf(w >> 48), ByteOf(w >> 56)]
  }

  /** Storing a word and loading it gives it back. */
  lemma LoadUndoesStore(w: U64)
    ensures Load(Store(w)) == w
  {
  }

  /** Loading eight bytes and storing the word gives them back. */
  lemma StoreUndoesLoad(b: seq<U8>)
    requires |b| == 8
    ensures Store(Load(b)) == b
  {
    BytesOfLoad(b[0], b[1], b[2], b[3], b[4], b[5], b[6], b[7]);
    assert b == [b[0], b[1], b[2], b[3], b[4], b[5], b[6], b[7]];
  }

  lemma BytesOfLoad(b0: U8, b1: U8, b2: U8, b3: U8, b4: U8, b5: U8, b6: U8, b7: U8)
    ensures Store(Load([b0, b1, b2, b3, b4, b5, b6, b7])) == [b0, b1, b2, b3, b4, b5, b6, b7]
  {
  }

  /** The byte at index k has the weight 2^8k. */
  lemma BytePositions(b: U8)
    ensures Store(b as U64) == [b, 0, 0, 0, 0, 0, 0, 0]
    ensures Store((b as U64) << 8) == [0, b, 0, 0, 0, 0, 0, 0]
    ensures Store((b as U64) << 16) == [0, 0, b, 0, 0, 0, 0, 0]
    ensures Store((b as U64) << 24) == [0, 0, 0, b, 0, 0, 0, 0]
    ensures Store((b as U64) << 32) == [0, 0, 0, 0, b, 0, 0, 0]
    ensures Store((b as U64) << 40) == [0, 0, 0, 0, 0, b, 0, 0]
    ensures Store((b as U64) << 48) == [0, 0, 0, 0, 0, 0, b, 0]
    ensures Store((b as U64) << 56) == [0, 0, 0, 0, 0, 0, 0, b]
  {
  }
}
