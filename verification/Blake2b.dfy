/** The checksum program's BLAKE2b: a state updated in place, compressed block by block. */
module Blake2b {
  import opened Arithmetic
  import opened Blake2Words
  import opened Rfc7693
  import opened Blake2Model

  const ALL_ONES: U64 := 0xFFFF_FFFF_FFFF_FFFF

  /** The program's message schedule has twelve rows, the last two repeating the first. */
  function SigmaRow(r: nat): Permutation
    requires r < ROUND_COUNT
  {
    match r
    case 0 => [0, 1, 2, 3, 4, 5, 6, 7, 8, 9, 10, 11, 12, 13, 14, 15]
    case 1 => [14, 10, 4, 8, 9, 15, 13, 6, 1, 12, 0, 2, 11, 7, 5, 3]
    case 2 => [11, 8, 12, 0, 5, 2, 15, 13, 10, 14, 3, 6, 7, 1, 9, 4]
    case 3 => [7, 9, 3, 1, 13, 12, 11, 14, 2, 6, 5, 10, 4, 0, 15, 8]
    case 4 => [9, 0, 5, 7, 2, 4, 10, 15, 14, 1, 11, 12, 6, 8, 3, 13]
    case 5 => [2, 12, 6, 10, 0, 11, 8, 3, 4, 13, 7, 5, 15, 14, 1, 9]
    case 6 => [12, 5, 1, 15, 14, 13, 4, 10, 0, 7, 6, 3, 9, 2, 8, 11]
    case 7 => [13, 11, 7, 14, 12, 1, 3, 9, 5, 0, 15, 4, 8, 6, 2, 10]
    case 8 => [6, 15, 14, 9, 11, 3, 0, 8, 12, 2, 13, 7, 1, 4, 10, 5]
    case 9 => [10, 2, 8, 4, 7, 6, 1, 5, 15, 11, 9, 14, 3, 12, 13, 0]
    case 10 => [0, 1, 2, 3, 4, 5, 6, 7, 8, 9, 10, 11, 12, 13, 14, 15]
    case 11 => [14, 10, 4, 8, 9, 15, 13, 6, 1, 12, 0, 2, 11, 7, 5, 3]
  }

  lemma SigmaRowsRepeat(r: nat)
    requires r < ROUND_COUNT
    ensures SigmaRow(r) == Sigma(r % 10)
  {
  }

  /** Half of the G step of round r, number i, on four entries of the working vector. */
  method MixFirst(v: array<U64>, x: U64, a: Index, b: Index, c: Index, d: Index)
    requires v.Length == 16 && Distinct(a, b, c, d)
    modifies v
    ensures v[..] == WithQuad(old(v[..]), a, b, c, d, FirstHalf(QuadAt(old(v[..]), a, b, c, d), x))
  {
    hide Add, Xor, Rotr32, Rotr24;
    v[a] := Add(Add(v[a], v[b]), x);
    v[d] := Rotr32(Xor(v[d], v[a]));
    v[c] := Add(v[c], v[d]);
    v[b] := Rotr24(Xor(v[b], v[c]));
  }

  method MixSecond(v: array<U64>, y: U64, a: Index, b: Index, c: Index, d: Index)
    requires v.Length == 16 && Distinct(a, b, c, d)
    modifies v
    ensures v[..] == WithQuad(old(v[..]), a, b, c, d, SecondHalf(QuadAt(old(v[..]), a, b, c, d), y))
  {
    hide Add, Xor, Rotr16, Rotr63;
    v[a] := Add(Add(v[a], v[b]), y);
    v[d] := Rotr16(Xor(v[d], v[a]));
    v[c] := Add(v[c], v[d]);
    v[b] := Rotr63(Xor(v[b], v[c]));
  }

  method MixStep(v: array<U64>, m: array<U64>, r: nat, i: nat, a: Index, b: Index, c: Index, d: Index)
    requires v.Length == 16 && m.Length == 16 && v != m && r < ROUND_COUNT && i < 8 && Distinct(a, b, c, d)
    modifies v
    ensures v[..] == G(old(v[..]), a, b, c, d, m[SigmaRow(r)[2 * i]], m[SigmaRow(r)[2 * i + 1]])
  {
    hide FirstHalf, SecondHalf, SigmaRow;
    MixFirst(v, m[SigmaRow(r)[2 * i + 0]], a, b, c, d);
    MixSecond(v, m[SigmaRow(r)[2 * i + 1]], a, b, c, d);
  }

  /** One round, after r rounds have turned `start` into the working vector. */
  method RoundStep(v: array<U64>, m: array<U64>, r: nat, ghost start: State16)
    requires v.Length == 16 && m.Length == 16 && v != m && r < ROUND_COUNT
    requires v[..] == Rounds(start, m[..], r)
    modifies v
    ensures v[..] == Rounds(start, m[..], r + 1)
  {
    hide G, SigmaRow, Sigma;
    ghost var s := Sigma(r % 10);
    SigmaRowsRepeat(r);
    MixStep(v, m, r, 0, 0, 4, 8, 12);
    MixStep(v, m, r, 1, 1, 5, 9, 13);
    MixStep(v, m, r, 2, 2, 6, 10, 14);
    MixStep(v, m, r, 3, 3, 7, 11, 15);
    assert v[..] == Columns(old(v[..]), m[..], s);
    MixStep(v, m, r, 4, 0, 5, 10, 15);
    MixStep(v, m, r, 5, 1, 6, 11, 12);
    MixStep(v, m, r, 6, 2, 7, 8, 13);
    MixStep(v, m, r, 7, 3, 4, 9, 14);
  }

  method AllRounds(v: array<U64>, m: array<U64>)
    requires v.Length == 16 && m.Length == 16 && v != m
    modifies v
    ensures v[..] == Rounds(old(v[..]), m[..], ROUND_COUNT)
  {
    ghost var start := v[..];
    assert start == Rounds(start, m[..], 0);
    hide Rounds;
    RoundStep(v, m, 0, start);
    RoundStep(v, m, 1, start);
    RoundStep(v, m, 2, start);
    RoundStep(v, m, 3, start);
    RoundStep(v, m, 4, start);
    RoundStep(v, m, 5, start);
    RoundStep(v, m, 6, start);
    RoundStep(v, m, 7, start);
    RoundStep(v, m, 8, start);
    RoundStep(v, m, 9, start);
    RoundStep(v, m, 10, start);
    RoundStep(v, m, 11, start);
  }

  method LoadBlock(block: seq<U8>) returns (m: array<U64>)
    requires |block| == BLOCK_BYTES
    ensures fresh(m) && m.Length == 16 && m[..] == BlockWords(block)
  {
    hide Load;
    m := new U64[16];
    for i := 0 to 16
      invariant forall k :: 0 <= k < i ==> m[k] == Load(block[8 * k..8 * k + 8])
    {
      m[i] := Load(block[i * 8..i * 8 + 8]);
    }
  }

  method StartVector(h: array<U64>, t0: nat, t1: nat, f0: U64, f1: U64) returns (v: array<U64>)
    requires h.Length == 8 && t0 < SIZE_MODULUS && t1 < SIZE_MODULUS
    requires (f0 == 0 || f0 == ALL_ONES) && f1 == 0
    ensures fresh(v) && v.Length == 16 && v[..] == Initial(h[..], t1 * SIZE_MODULUS + t0, f0 == ALL_ONES)
  {
    hide Xor, Initial;
    v := new U64[16];
    for i := 0 to 8
      invariant forall k :: 0 <= k < i ==> v[k] == h[k]
    {
      v[i] := h[i];
    }
    v[8] := IV[0];
    v[9] := IV[1];
    v[10] := IV[2];
    v[11] := IV[3];
    v[12] := Xor(IV[4], t0 as U64);
    v[13] := Xor(IV[5], t1 as U64);
    v[14] := Xor(IV[6], f0);
    v[15] := Xor(IV[7], f1);
    InitialVector(h[..], v[..], t0, t1, f0, f1);
  }

  method FoldInto(h: array<U64>, v: array<U64>)
    requires h.Length == 8 && v.Length == 16 && h != v
    modifies h
    ensures h[..] == Fold(old(h[..]), v[..])
  {
    hide Xor;
    for i := 0 to 8
      invariant forall k :: 0 <= k < i ==> h[k] == Xor(Xor(old(h[k]), v[k]), v[k + 8])
      invariant forall k :: i <= k < 8 ==> h[k] == old(h[k])
    {
      h[i] := Xor(Xor(h[i], v[i]), v[i + 8]);
    }
  }

  /** The compression function on the chain value h. */
  method CompressInto(h: array<U64>, block: seq<U8>, t0: nat, t1: nat, f0: U64, f1: U64)
    requires h.Length == 8 && |block| == BLOCK_BYTES && t0 < SIZE_MODULUS && t1 < SIZE_MODULUS
    requires (f0 == 0 || f0 == ALL_ONES) && f1 == 0
    modifies h
    ensures h[..] == F(old(h[..]), BlockWords(block), t1 * SIZE_MODULUS + t0, f0 == ALL_ONES)
  {
    hide BlockWords, Initial, Rounds, Fold;
    var m := LoadBlock(block);
    var v := StartVector(h, t0, t1, f0, f1);
    AllRounds(v, m);
    FoldInto(h, v);
  }

  lemma InitialVector(h: State8, v: State16, t0: nat, t1: nat, f0: U64, f1: U64)
    requires t0 < SIZE_MODULUS && t1 < SIZE_MODULUS && (f0 == 0 || f0 == ALL_ONES) && f1 == 0
    requires v[..8] == h && v[8..12] == IV[..4]
    requires v[12] == Xor(IV[4], t0 as U64) && v[13] == Xor(IV[5], t1 as U64)
    requires v[14] == Xor(IV[6], f0) && v[15] == Xor(IV[7], f1)
    ensures v == Initial(h, t1 * SIZE_MODULUS + t0, f0 == ALL_ONES)
  {
    hide Xor, LowWord, HighWord;
    CounterWords(t0, t1);
    FlagWord(IV[6], f0);
    XorZero(IV[7]);
    assert v == v[..8] + v[8..12] + [v[12], v[13], v[14], v[15]];
  }

  lemma CounterWords(t0: nat, t1: nat)
    requires t0 < SIZE_MODULUS && t1 < SIZE_MODULUS
    ensures LowWord(t1 * SIZE_MODULUS + t0) == t0 as U64
    ensures HighWord(t1 * SIZE_MODULUS + t0) == t1 as U64
  {
    var t := t1 * SIZE_MODULUS + t0;
    RemainderUnique(t, SIZE_MODULUS, t1, t0);
    RemainderUnique(t1, SIZE_MODULUS, 0, t1);
    CounterParts(t, t0, t1);
  }

  lemma FlagWord(x: U64, f0: U64)
    requires f0 == 0 || f0 == ALL_ONES
    ensures Xor(x, f0) == if f0 == ALL_ONES then Xor(x, 0xFFFF_FFFF_FFFF_FFFF) else x
  {
    XorZero(x);
    hide Xor;
  }

  lemma XorZero(x: U64)
    ensures Xor(x, 0) == x
  {
  }

  /** Mixes the parameter block, as the program lays it out in memory, into the IV. */
  method LoadParameters(h: array<U64>)
    requires h.Length == 8
    modifies h
    ensures h[..] == InitialHash()
  {
    hide Load, Xor;
    var param := new U8[64](_ => 0);
    param[0] := 64;
    param[2] := 1;
    param[3] := 1;
    ghost var p := param[..];
    ParameterWords(p);
    for i := 0 to 8
      invariant forall k :: 0 <= k < i ==> h[k] == IV[k]
      invariant param[..] == p
    {
      h[i] := IV[i];
    }
    for i := 0 to 8
      invariant param[..] == p
      invariant forall k :: 0 <= k < i ==> h[k] == InitialHash()[k]
      invariant forall k :: i <= k < 8 ==> h[k] == IV[k]
    {
      assert param[8 * i..8 * i + 8] == p[8 * i..8 * i + 8];
      XorZero(IV[i]);
      h[i] := Xor(h[i], Load(param[8 * i..8 * i + 8]));
    }
  }

  lemma ParameterWords(param: seq<U8>)
    requires |param| == 64 && param[0] == 64 && param[2] == 1 && param[3] == 1
    requires forall k :: 0 <= k < 64 && k != 0 && k != 2 && k != 3 ==> param[k] == 0
    ensures Load(param[0..8]) == PARAMETER_WORD
    ensures forall k :: 1 <= k < 8 ==> Load(param[8 * k..8 * k + 8]) == 0
  {
    assert param[0..8] == [64, 0, 1, 1, 0, 0, 0, 0];
    assert Load([64, 0, 1, 1, 0, 0, 0, 0]) == PARAMETER_WORD;
    assert Load([0, 0, 0, 0, 0, 0, 0, 0]) == 0;
    forall k | 1 <= k < 8
      ensures Load(param[8 * k..8 * k + 8]) == 0
    {
      assert param[8 * k..8 * k + 8] == [0, 0, 0, 0, 0, 0, 0, 0];
    }
  }

  /** Adding to the low counter word and carrying into the high one adds to the 128-bit counter. */
  lemma CarryAdds(t0: nat, t1: nat, inc: nat, n0: nat, n1: nat)
    requires t0 < SIZE_MODULUS && t1 < SIZE_MODULUS && inc < SIZE_MODULUS
    requires n0 == (t0 + inc) % SIZE_MODULUS
    requires n1 == (t1 + if n0 < inc then 1 else 0) % SIZE_MODULUS
    ensures n1 * SIZE_MODULUS + n0 == Bumped(t1 * SIZE_MODULUS + t0, inc)
  {
    var q := if t0 + inc < SIZE_MODULUS then 0 else 1;
    RemainderUnique(t0 + inc, SIZE_MODULUS, q, t0 + inc - SIZE_MODULUS * q);
    var p := if t1 + q < SIZE_MODULUS then 0 else 1;
    RemainderUnique(t1 + q, SIZE_MODULUS, p, t1 + q - SIZE_MODULUS * p);
    RemainderUnique(t1 * SIZE_MODULUS + t0 + inc, COUNTER_MODULUS, p, n1 * SIZE_MODULUS + n0);
  }

  lemma RestOfRest(s: seq<U8>, at: nat, n: nat)
    requires at + n <= |s|
    ensures s[at..][..n] == s[at..at + n] && s[at..][n..] == s[at + n..]
  {
  }

  class State {
    const h: array<U64>
    var t0: nat
    var t1: nat
    var f0: U64
    var f1: U64
    const buf: array<U8>
    var bufLen: nat

    ghost predicate Valid()
      reads this
    {
      && h.Length == 8 && buf.Length == BLOCK_BYTES
      && t0 < SIZE_MODULUS && t1 < SIZE_MODULUS
      && (f0 == 0 || f0 == ALL_ONES) && f1 == 0
      && bufLen <= BLOCK_BYTES
    }

    ghost function Counter(): nat
      reads this
    {
      t1 * SIZE_MODULUS + t0
    }

    ghost function View(): Snapshot
      requires Valid()
      reads this, h, buf
    {
      Snapshot(h[..], Counter(), f0 == ALL_ONES, buf[..bufLen])
    }

    /** Zeroes the state and loads the parameters. */
    constructor ()
      ensures Valid() && fresh(h) && fresh(buf)
      ensures View() == StateFor(F, [])
    {
      h := new U64[8](_ => 0);
      buf := new U8[BLOCK_BYTES](_ => 0);
      t0, t1, f0, f1, bufLen := 0, 0, 0, 0, 0;
      new;
      LoadParameters(h);
      hide F, InitialHash;
      assert buf[..0] == [];
    }

    method IncrementCounter(inc: nat)
      requires Valid() && inc < SIZE_MODULUS
      modifies this`t0, this`t1
      ensures Valid() && Counter() == Bumped(old(Counter()), inc)
    {
      t0 := (t0 + inc) % SIZE_MODULUS;
      t1 := (t1 + if t0 < inc then 1 else 0) % SIZE_MODULUS;
      CarryAdds(old(t0), old(t1), inc, t0, t1);
    }

    method Compress(block: seq<U8>)
      requires Valid() && |block| == BLOCK_BYTES
      modifies h
      ensures h[..] == F(old(h[..]), BlockWords(block), Counter(), f0 == ALL_ONES)
    {
      hide F, BlockWords;
      CompressInto(h, block, t0, t1, f0, f1);
    }

    method CopyToBuffer(at: nat, bytes: seq<U8>)
      requires Valid() && at + |bytes| <= BLOCK_BYTES
      modifies buf
      ensures buf[..] == old(buf[..at]) + bytes + old(buf[at + |bytes|..])
    {
      forall k | 0 <= k < |bytes| {
        buf[at + k] := bytes[k];
      }
    }

    /** Counts a block and compresses it. */
    method AbsorbBlock(block: seq<U8>)
      requires Valid() && |block| == BLOCK_BYTES
      modifies this`t0, this`t1, h
      ensures Valid() && View() == Absorb(F, old(View()), block) && View().pending == old(View()).pending
    {
      hide F, BlockWords, Bumped;
      IncrementCounter(BLOCK_BYTES);
      Compress(block);
    }

    /** Fills the buffer up and absorbs it. */
    method FillAndAbsorb(bytes: seq<U8>)
      requires Valid() && bufLen + |bytes| == BLOCK_BYTES
      modifies this`t0, this`t1, this`bufLen, h, buf
      ensures Valid() && View() == Absorb(F, old(View()), old(View()).pending + bytes).(pending := [])
    {
      hide F, BlockWords, Bumped;
      CopyToBuffer(bufLen, bytes);
      assert buf[..] == old(View()).pending + bytes;
      IncrementCounter(BLOCK_BYTES);
      Compress(buf[..]);
      bufLen := 0;
    }

    method Buffer(bytes: seq<U8>)
      requires Valid() && bufLen + |bytes| <= BLOCK_BYTES
      modifies this`bufLen, buf
      ensures Valid() && View() == old(View()).(pending := old(View()).pending + bytes)
    {
      CopyToBuffer(bufLen, bytes);
      bufLen := bufLen + |bytes|;
    }

    method Update(input: seq<U8>)
      requires Valid() && UpdateEnds(View(), |input|)
      modifies this`t0, this`t1, this`bufLen, h, buf
      ensures Valid() && View() == Updated(F, old(View()), input)
    {
      hide Absorb, Counter, Drain, Updated;
      if |input| == 0 {
        UpdatedBuffers(F, View(), input);
        assert View().pending + input == View().pending;
        return;
      }
      ghost var start := View();
      var at, inLen := 0, |input|;
      var left := bufLen;
      var fill := BLOCK_BYTES - left;
      if inLen > fill {
        UpdatedIsDrain(F, start, input);
        FillAndAbsorb(input[at..at + fill]);
        at := at + fill;
        inLen := inLen - fill;
        while inLen > BLOCK_BYTES
          invariant Valid() && View().pending == []
          invariant 0 <= at <= |input| && inLen == |input| - at
          invariant inLen > BLOCK_BYTES ==> fill > 0
          invariant Updated(F, start, input) == Drain(F, View(), input[at..], fill)
        {
          DrainStep(F, View(), input[at..], fill);
          RestOfRest(input, at, BLOCK_BYTES);
          RestOfRest(input, at, fill);
          AbsorbBlock(input[at..at + BLOCK_BYTES]);
          at := at + fill;
          inLen := inLen - fill;
        }
        DrainEnd(F, View(), input[at..], fill);
      } else {
        UpdatedBuffers(F, start, input);
      }
      RestOfRest(input, at, inLen);
      assert input[at..][..inLen] == input[at..];
      Buffer(input[at..at + inLen]);
    }

    method Final() returns (out: seq<U8>)
      requires Valid()
      modifies this`t0, this`t1, this`f0, h, buf
      ensures out == Finished(F, old(View()))
    {
      hide F, BlockWords, Bumped, Digest;
      IncrementCounter(bufLen);
      f0 := ALL_ONES;
      CopyToBuffer(bufLen, Zeros(BLOCK_BYTES - bufLen));
      assert buf[..] == Pad(old(View()).pending);
      Compress(buf[..]);
      out := Digest(h[..]);
    }
  }

  /** The whole program: one update between initialising and finishing. */
  method Blake2bSum(input: seq<U8>) returns (out: seq<U8>)
    requires |input| < SIZE_MODULUS
    ensures out == Hash(input)
  {
    hide StateFor, Updated, Finished, HashWith;
    var state := new State();
    assert [] + input == input;
    UpdateFollowsStandard(F, [], input);
    state.Update(input);
    FinishIsHash(F, input);
    out := state.Final();
  }
}
