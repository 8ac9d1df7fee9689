/** Unkeyed BLAKE2b with a 64-byte digest, as sections 2 and 3 of RFC 7693 define it. */
module Rfc7693 {
  import opened Blake2Words

  const BLOCK_BYTES: nat := 128
  const OUT_BYTES: nat := 64

  type State8 = h: seq<U64> | |h| == 8 witness seq(8, _ => 0)
  type State16 = v: seq<U64> | |v| == 16 witness seq(16, _ => 0)

  const IV: State8 := [
    0x6a09e667f3bcc908, 0xbb67ae8584caa73b, 0x3c6ef372fe94f82b, 0xa54ff53a5f1d36f1,
    0x510e527fade682d1, 0x9b05688c2b3e6c1f, 0x1f83d9abfb41bd6b, 0x5be0cd19137e2179
  ]

  type Index = i: int | 0 <= i < 16
  type Permutation = s: seq<Index> | |s| == 16 witness seq(16, _ => 0)

  /** SIGMA[i] of section 2.7. */
  function Sigma(i: nat): Permutation
    requires i < 10
  {
    match i
    case 0 => [0, 1, 2, 3, 4, 5, 6, 7, 8, 9, 10, 11, 12, 13, 14, 15]
    case 1 => [14, 10, 4, 8, 9, 15, 13, 6, 1, 12, 0, 2, 11, 7, 5, 3]
    case 2 => [11, 8, 12, 0, 5, 2, 15, 13, 10, 14, 3, 6, 7, 1, 9, 4]
    case 3 => [7, 9, 3, 1, 13, 12, 11, 14, 2, 6, 5, 10, 4, 0, 15, 8]
    case 4 => [9, 0, 5, 7, 2, 4, 10, 15, 14, 1, 11, 12, 6, 8, 3, 13]
    case 5 => [2, 12, 6, 10, 0, 11, 8, 3, 4, 13, 7, 5, 15, 14, 1, 9]
    case 6 => [12, 5, 1, 15, 14, 13, 4, 10, 0, 7, 6, 3, 9, 2, 8, 11]
    case 7 => [13, 11, 7, 14, 12, 1, 3, 9, 5, 0, 15, 4, 8, 6, 2, 10]
    case 8 => [6, 15, 14, 9, 11, 3, 0, 8, 12, 2, 13, 7, 1, 4, 10, 5]
    case 9 => [10, 2, 8, 4, 7, 6, 1, 5, 15, 11, 9, 14, 3, 12, 13, 0]
  }

  // ----- section 3.1: mixing -----

  datatype Quad = Quad(a: U64, b: U64, c: U64, d: U64)

  /** One half of the mixing function: add a message word, rotate by the given amounts. */
  function FirstHalf(q: Quad, x: U64): Quad {
    var a := Add(Add(q.a, q.b), x);
    var d := Rotr32(Xor(q.d, a));
    var c := Add(q.c, d);
    var b := Rotr24(Xor(q.b, c));
    Quad(a, b, c, d)
  }

  function SecondHalf(q: Quad, y: U64): Quad {
    var a := Add(Add(q.a, q.b), y);
    var d := Rotr16(Xor(q.d, a));
    var c := Add(q.c, d);
    var b := Rotr63(Xor(q.b, c));
    Quad(a, b, c, d)
  }

  function MixQuad(q: Quad, x: U64, y: U64): Quad {
    SecondHalf(FirstHalf(q, x), y)
  }

  predicate Distinct(a: Index, b: Index, c: Index, d: Index) {
    a != b && a != c && a != d && b != c && b != d && c != d
  }

  function QuadAt(v: State16, a: Index, b: Index, c: Index, d: Index): Quad {
    Quad(v[a], v[b], v[c], v[d])
  }

  function WithQuad(v: State16, a: Index, b: Index, c: Index, d: Index, q: Quad): State16 {
    v[a := q.a][b := q.b][c := q.c][d := q.d]
  }

  function G(v: State16, a: Index, b: Index, c: Index, d: Index, x: U64, y: U64): State16 {
    WithQuad(v, a, b, c, d, MixQuad(QuadAt(v, a, b, c, d), x, y))
  }

  // ----- section 3.2: compression -----

  function Columns(v: State16, m: State16, s: Permutation): State16 {
    var v := G(v, 0, 4, 8, 12, m[s[0]], m[s[1]]);
    var v := G(v, 1, 5, 9, 13, m[s[2]], m[s[3]]);
    var v := G(v, 2, 6, 10, 14, m[s[4]], m[s[5]]);
    G(v, 3, 7, 11, 15, m[s[6]], m[s[7]])
  }

  function Diagonals(v: State16, m: State16, s: Permutation): State16 {
    var v := G(v, 0, 5, 10, 15, m[s[8]], m[s[9]]);
    var v := G(v, 1, 6, 11, 12, m[s[10]], m[s[11]]);
    var v := G(v, 2, 7, 8, 13, m[s[12]], m[s[13]]);
    G(v, 3, 4, 9, 14, m[s[14]], m[s[15]])
  }

  function Round(v: State16, m: State16, i: nat): State16 {
    Diagonals(Columns(v, m, Sigma(i % 10)), m, Sigma(i % 10))
  }

  /** The first n rounds of the compression function. */
  function Rounds(v: State16, m: State16, n: nat): State16 {
    if n == 0 then v else Round(Rounds(v, m, n - 1), m, n - 1)
  }

  const ROUND_COUNT: nat := 12

  function LowWord(t: nat): U64 {
    (t % 0x1_0000_0000_0000_0000) as U64
  }

  function HighWord(t: nat): U64 {
    (t / 0x1_0000_0000_0000_0000 % 0x1_0000_0000_0000_0000) as U64
  }

  lemma CounterParts(t: nat, t0: nat, t1: nat)
    requires t0 < 0x1_0000_0000_0000_0000 && t1 < 0x1_0000_0000_0000_0000
    requires t % 0x1_0000_0000_0000_0000 == t0
    requires t / 0x1_0000_0000_0000_0000 % 0x1_0000_0000_0000_0000 == t1
    ensures LowWord(t) == t0 as U64 && HighWord(t) == t1 as U64
  {
  }

  /** The working vector before the rounds: state, IV, and the counter and final flag mixed in. */
  function Initial(h: State8, t: nat, f: bool): State16 {
    h + IV[..4] + [Xor(IV[4], LowWord(t)), Xor(IV[5], HighWord(t)),
                   if f then Xor(IV[6], 0xFFFF_FFFF_FFFF_FFFF) else IV[6], IV[7]]
  }

  function Fold(h: State8, v: State16): State8 {
    seq(8, i requires 0 <= i < 8 => Xor(Xor(h[i], v[i]), v[i + 8]))
  }

  function F(h: State8, m: State16, t: nat, f: bool): State8 {
    Fold(h, Rounds(Initial(h, t, f), m, ROUND_COUNT))
  }

  // ----- section 3.3: padding and hashing -----

  /** The sixteen words of a block. */
  function BlockWords(block: seq<U8>): State16
    requires |block| == BLOCK_BYTES
  {
    seq(16, i requires 0 <= i < 16 => Load(block[8 * i..8 * i + 8]))
  }

  function Zeros(n: nat): (z: seq<U8>)
    ensures |z| == n
  {
    seq(n, _ => 0)
  }

  function Pad(bytes: seq<U8>): (block: seq<U8>)
    requires |bytes| <= BLOCK_BYTES
    ensures |block| == BLOCK_BYTES
  {
    bytes + Zeros(BLOCK_BYTES - |bytes|)
  }

  /** The number of data blocks: at least one, the last one possibly short. */
  function BlockCount(length: nat): (dd: nat)
    ensures dd >= 1 && BLOCK_BYTES * (dd - 1) <= length <= BLOCK_BYTES * dd
    ensures length > 0 ==> BLOCK_BYTES * (dd - 1) < length
  {
    if length == 0 then 1 else (length + BLOCK_BYTES - 1) / BLOCK_BYTES
  }

  /** Data block i of a message, zero-padded if the message ends inside it. */
  function DataBlock(message: seq<U8>, i: nat): State16
    requires BLOCK_BYTES * i <= |message|
  {
    var end := BLOCK_BYTES * i + BLOCK_BYTES;
    BlockWords(Pad(message[BLOCK_BYTES * i..if end <= |message| then end else |message|]))
  }

  /** The parameter block word p[0]: digest length 64, no key, fan-out and depth 1. */
  const PARAMETER_WORD: U64 := 0x0101_0040

  function InitialHash(): State8 {
    IV[0 := Xor(IV[0], PARAMETER_WORD)]
  }

  /** A compression function: of a chain value, a block, the bytes counted so far and whether it is the last. */
  type Compression = (State8, State16, nat, bool) -> State8

  /** The state after the first n data blocks, none of them the last. */
  function Chain(f: Compression, message: seq<U8>, n: nat): State8
    requires BLOCK_BYTES * n <= |message|
  {
    if n == 0 then InitialHash()
    else f(Chain(f, message, n - 1), DataBlock(message, n - 1), BLOCK_BYTES * n, false)
  }

  function Digest(h: State8): (out: seq<U8>)
    ensures |out| == OUT_BYTES
  {
    Store(h[0]) + Store(h[1]) + Store(h[2]) + Store(h[3]) + Store(h[4]) + Store(h[5]) + Store(h[6]) + Store(h[7])
  }

  /** Eight bytes of the digest, loaded as a word, are a word of the chain value. */
  lemma DigestWords(h: State8, i: nat)
    requires i < 8
    ensures Load(Digest(h)[8 * i..8 * i + 8]) == h[i]
  {
    hide Load, Store;
    assert Digest(h)[8 * i..8 * i + 8] == Store(h[i]);
    LoadUndoesStore(h[i]);
  }

  /** The hash with any compression function in the place of F. */
  function HashWith(f: Compression, message: seq<U8>): (out: seq<U8>)
    ensures |out| == OUT_BYTES
  {
    var last := BlockCount(|message|) - 1;
    Digest(f(Chain(f, message, last), DataBlock(message, last), |message|, true))
  }

  function Hash(message: seq<U8>): (out: seq<U8>)
    ensures |out| == OUT_BYTES
  {
    HashWith(F, message)
  }
}
