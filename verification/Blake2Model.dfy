/** What updating the hash state computes, as a function, and exactly when it is what RFC 7693 asks for. */
module Blake2Model {
  import opened Arithmetic
  import opened Blake2Words
  import opened Rfc7693

  const COUNTER_MODULUS: nat := 0x1_0000_0000_0000_0000 * 0x1_0000_0000_0000_0000
  const SIZE_MODULUS: nat := 0x1_0000_0000_0000_0000

  /** The hash state: chain value, 128-bit counter, final flag, and the bytes buffered so far. */
  datatype Snapshot = Snapshot(h: State8, t: nat, final: bool, pending: seq<U8>)

  function Bumped(t: nat, inc: nat): nat {
    (t + inc) % COUNTER_MODULUS
  }

  function Absorb(f: Compression, s: Snapshot, block: seq<U8>): Snapshot
    requires |block| == BLOCK_BYTES
  {
    var t := Bumped(s.t, BLOCK_BYTES);
    s.(h := f(s.h, BlockWords(block), t, s.final), t := t)
  }

  /** The block loop compresses 128 bytes at a time but moves on by `fill` bytes; what is left is buffered. */
  function Drain(f: Compression, s: Snapshot, input: seq<U8>, fill: nat): (r: Snapshot)
    requires fill <= BLOCK_BYTES && (fill > 0 || |input| <= BLOCK_BYTES)
    ensures |r.pending| <= BLOCK_BYTES && r.final == s.final
    decreases |input|
  {
    if |input| <= BLOCK_BYTES then s.(pending := input)
    else Drain(f, Absorb(f, s, input[..BLOCK_BYTES]), input[fill..], fill)
  }

  /** The loop never looks at the buffered bytes of the state it starts from. */
  lemma {:induction false} PendingIsOverwritten(f: Compression, s: Snapshot, input: seq<U8>, fill: nat)
    requires fill <= BLOCK_BYTES && (fill > 0 || |input| <= BLOCK_BYTES)
    ensures Drain(f, s.(pending := []), input, fill) == Drain(f, s, input, fill)
    decreases |input|
  {
    if |input| > BLOCK_BYTES {
      var block := input[..BLOCK_BYTES];
      PendingIsOverwritten(f, Absorb(f, s, block), input[fill..], fill);
      PendingIsOverwritten(f, Absorb(f, s.(pending := []), block), input[fill..], fill);
    }
  }

  /** Every call ends except one with more than a block of input on a full buffer. */
  predicate UpdateEnds(s: Snapshot, length: nat) {
    |s.pending| < BLOCK_BYTES || length <= BLOCK_BYTES
  }

  function Updated(f: Compression, s: Snapshot, input: seq<U8>): (r: Snapshot)
    requires |s.pending| <= BLOCK_BYTES && UpdateEnds(s, |input|)
    ensures |r.pending| <= BLOCK_BYTES && r.final == s.final
  {
    var fill := BLOCK_BYTES - |s.pending|;
    if |input| <= fill then s.(pending := s.pending + input)
    else Drain(f, Absorb(f, s, s.pending + input[..fill]), input[fill..], fill)
  }

  lemma DrainStep(f: Compression, s: Snapshot, input: seq<U8>, fill: nat)
    requires 0 < fill <= BLOCK_BYTES < |input|
    ensures Drain(f, s, input, fill) == Drain(f, Absorb(f, s, input[..BLOCK_BYTES]), input[fill..], fill)
  {
  }

  lemma DrainEnd(f: Compression, s: Snapshot, input: seq<U8>, fill: nat)
    requires fill <= BLOCK_BYTES && |input| <= BLOCK_BYTES
    ensures Drain(f, s, input, fill) == s.(pending := input)
  {
  }

  lemma UpdatedBuffers(f: Compression, s: Snapshot, input: seq<U8>)
    requires |s.pending| + |input| <= BLOCK_BYTES
    ensures Updated(f, s, input) == s.(pending := s.pending + input)
  {
  }

  lemma UpdatedIsDrain(f: Compression, s: Snapshot, input: seq<U8>)
    requires |s.pending| <= BLOCK_BYTES && UpdateEnds(s, |input|) && |input| > BLOCK_BYTES - |s.pending|
    ensures var fill := BLOCK_BYTES - |s.pending|;
            Updated(f, s, input) == Drain(f, Absorb(f, s, s.pending + input[..fill]).(pending := []), input[fill..], fill)
  {
    hide Absorb;
    var fill := BLOCK_BYTES - |s.pending|;
    PendingIsOverwritten(f, Absorb(f, s, s.pending + input[..fill]), input[fill..], fill);
  }

  function Finished(f: Compression, s: Snapshot): seq<U8>
    requires |s.pending| <= BLOCK_BYTES
  {
    Digest(f(s.h, BlockWords(Pad(s.pending)), Bumped(s.t, |s.pending|), true))
  }

  // ----- the state the standard calls for -----

  /** The state that stands for a message: all blocks but the last are compressed, the last is buffered. */
  function StateFor(f: Compression, message: seq<U8>): (s: Snapshot)
    requires |message| < COUNTER_MODULUS
    ensures |s.pending| <= BLOCK_BYTES && s.t + |s.pending| == |message|
    ensures s.pending == [] <==> message == []
  {
    var n := BlockCount(|message|) - 1;
    Snapshot(Chain(f, message, n), BLOCK_BYTES * n, false, message[BLOCK_BYTES * n..])
  }

  lemma {:induction false} ChainPrefix(f: Compression, message: seq<U8>, more: seq<U8>, n: nat)
    requires BLOCK_BYTES * n <= |message|
    ensures Chain(f, message + more, n) == Chain(f, message, n)
  {
    hide DataBlock;
    if n > 0 {
      ChainPrefix(f, message, more, n - 1);
      DataBlockPrefix(message, more, n - 1);
    }
  }

  lemma DataBlockPrefix(message: seq<U8>, more: seq<U8>, i: nat)
    requires BLOCK_BYTES * i + BLOCK_BYTES <= |message|
    ensures DataBlock(message + more, i) == DataBlock(message, i)
  {
    hide BlockWords;
    var at := BLOCK_BYTES * i;
    assert (message + more)[at..at + BLOCK_BYTES] == message[at..at + BLOCK_BYTES];
  }

  lemma BlockCountIs(length: nat, n: nat)
    requires BLOCK_BYTES * n < length <= BLOCK_BYTES * n + BLOCK_BYTES
    ensures BlockCount(length) == n + 1
  {
  }

  /** Absorbing the next whole block of a message advances its chain. */
  lemma AbsorbFollowsChain(f: Compression, s: Snapshot, message: seq<U8>, n: nat, block: seq<U8>)
    requires BLOCK_BYTES * (n + 1) <= |message| < COUNTER_MODULUS
    requires block == message[BLOCK_BYTES * n..BLOCK_BYTES * n + BLOCK_BYTES]
    requires s.h == Chain(f, message, n) && s.t == BLOCK_BYTES * n && !s.final
    ensures var r := Absorb(f, s, block);
            r.h == Chain(f, message, n + 1) && r.t == BLOCK_BYTES * (n + 1) && !r.final
  {
    hide BlockWords;
    assert Pad(block) == block;
    assert DataBlock(message, n) == BlockWords(block);
  }

  /** With a whole block as step the loop computes the state of the message. */
  lemma {:induction false} DrainFollowsChain(f: Compression, s: Snapshot, message: seq<U8>, n: nat)
    requires BLOCK_BYTES * n < |message| < COUNTER_MODULUS
    requires s.h == Chain(f, message, n) && s.t == BLOCK_BYTES * n && !s.final
    ensures Drain(f, s, message[BLOCK_BYTES * n..], BLOCK_BYTES) == StateFor(f, message)
    decreases |message| - BLOCK_BYTES * n
  {
    hide Chain, F;
    var rest := message[BLOCK_BYTES * n..];
    if |rest| <= BLOCK_BYTES {
      BlockCountIs(|message|, n);
    } else {
      var block := rest[..BLOCK_BYTES];
      assert block == message[BLOCK_BYTES * n..BLOCK_BYTES * n + BLOCK_BYTES];
      AbsorbFollowsChain(f, s, message, n, block);
      DrainFollowsChain(f, Absorb(f, s, block), message, n + 1);
      assert rest[BLOCK_BYTES..] == message[BLOCK_BYTES * (n + 1)..];
    }
  }

  /** How often the block loop runs. */
  function DrainCount(length: nat, fill: nat): (n: nat)
    requires fill <= BLOCK_BYTES && (fill > 0 || length <= BLOCK_BYTES)
    ensures n <= length && (n > 0 <==> length > BLOCK_BYTES)
  {
    if length <= BLOCK_BYTES then 0 else 1 + DrainCount(length - fill, fill)
  }

  /** Every run of the block loop counts 128 bytes and consumes `fill`. */
  lemma {:induction false} DrainOvercounts(f: Compression, s: Snapshot, input: seq<U8>, fill: nat)
    requires fill <= BLOCK_BYTES && (fill > 0 || |input| <= BLOCK_BYTES)
    requires s.t < COUNTER_MODULUS
    ensures var r := Drain(f, s, input, fill);
            && r.t < COUNTER_MODULUS
            && (r.t + |r.pending|) % COUNTER_MODULUS
               == (s.t + |input| + (BLOCK_BYTES - fill) * DrainCount(|input|, fill)) % COUNTER_MODULUS
    decreases |input|
  {
    hide Absorb, Drain, Bumped;
    if |input| <= BLOCK_BYTES {
      DrainEnd(f, s, input, fill);
    } else {
      DrainStep(f, s, input, fill);
      AbsorbCounts(f, s, input[..BLOCK_BYTES]);
      DrainOvercounts(f, Absorb(f, s, input[..BLOCK_BYTES]), input[fill..], fill);
      OvercountStep(s.t, |input|, fill, DrainCount(|input| - fill, fill));
    }
  }

  lemma AbsorbCounts(f: Compression, s: Snapshot, block: seq<U8>)
    requires |block| == BLOCK_BYTES
    ensures Absorb(f, s, block).t == Bumped(s.t, BLOCK_BYTES) < COUNTER_MODULUS
  {
    hide BlockWords;
  }

  lemma OvercountStep(t: nat, length: nat, fill: nat, n: nat)
    requires fill <= BLOCK_BYTES < length
    ensures (Bumped(t, BLOCK_BYTES) + (length - fill) + (BLOCK_BYTES - fill) * n) % COUNTER_MODULUS
            == (t + length + (BLOCK_BYTES - fill) * (n + 1)) % COUNTER_MODULUS
  {
    CountOnce(BLOCK_BYTES - fill, n);
    ReduceSummand(t + BLOCK_BYTES, length - fill + (BLOCK_BYTES - fill) * n, COUNTER_MODULUS);
  }

  lemma CountOnce(step: nat, n: nat)
    ensures step * (n + 1) == step * n + step
  {
  }

  // ----- when one more update keeps to the standard -----

  /** The condition a caller can check: an empty buffer, or at most one block beyond filling it. */
  predicate KeepsStandard(buffered: nat, length: nat)
    requires buffered <= BLOCK_BYTES
  {
    buffered == 0 || length <= BLOCK_BYTES - buffered + BLOCK_BYTES
  }

  /** The parts of the state of a message whose last block, the one after n others, is not empty. */
  lemma StateIs(f: Compression, message: seq<U8>, n: nat)
    requires |message| < COUNTER_MODULUS && BLOCK_BYTES * n < |message| <= BLOCK_BYTES * n + BLOCK_BYTES
    ensures StateFor(f, message) == Snapshot(Chain(f, message, n), BLOCK_BYTES * n, false, message[BLOCK_BYTES * n..])
  {
    hide Chain;
    BlockCountIs(|message|, n);
  }

  /** The same parts still stand for the beginning of a longer message. */
  lemma StateBegins(f: Compression, message: seq<U8>, input: seq<U8>) returns (n: nat)
    requires |message| + |input| < COUNTER_MODULUS
    ensures var s, whole := StateFor(f, message), message + input;
            && BLOCK_BYTES * n <= |message| && s == Snapshot(Chain(f, whole, n), BLOCK_BYTES * n, false, s.pending)
            && whole[BLOCK_BYTES * n..] == s.pending + input && (s.pending == [] ==> n == 0)
  {
    hide Chain;
    n := BlockCount(|message|) - 1;
    ChainPrefix(f, message, input, n);
  }

  /** An update that satisfies the condition leaves the state of the longer message. */
  lemma UpdateFollowsStandard(f: Compression, message: seq<U8>, input: seq<U8>)
    requires |message| + |input| < COUNTER_MODULUS
    requires KeepsStandard(|StateFor(f, message).pending|, |input|)
    ensures UpdateEnds(StateFor(f, message), |input|)
    ensures Updated(f, StateFor(f, message), input) == StateFor(f, message + input)
  {
    hide Chain, StateFor, Drain, Absorb;
    var s, fill := StateFor(f, message), BLOCK_BYTES - |StateFor(f, message).pending|;
    if input == [] {
      assert message + input == message && s.pending + input == s.pending;
    } else if |input| <= fill {
      UpdateBuffers(f, message, input);
    } else {
      UpdateAbsorbs(f, message, input);
    }
  }

  lemma UpdateBuffers(f: Compression, message: seq<U8>, input: seq<U8>)
    requires |message| + |input| < COUNTER_MODULUS
    requires 0 < |input| <= BLOCK_BYTES - |StateFor(f, message).pending|
    ensures Updated(f, StateFor(f, message), input) == StateFor(f, message + input)
  {
    hide Chain, StateFor, Drain, Absorb;
    var n := StateBegins(f, message, input);
    StateIs(f, message + input, n);
  }

  lemma UpdateAbsorbs(f: Compression, message: seq<U8>, input: seq<U8>)
    requires |message| + |input| < COUNTER_MODULUS
    requires |input| > BLOCK_BYTES - |StateFor(f, message).pending|
    requires KeepsStandard(|StateFor(f, message).pending|, |input|)
    ensures Updated(f, StateFor(f, message), input) == StateFor(f, message + input)
  {
    hide Chain, StateFor, Drain, Absorb;
    var s, whole := StateFor(f, message), message + input;
    var n := StateBegins(f, message, input);
    var fill := BLOCK_BYTES - |s.pending|;
    var block := s.pending + input[..fill];
    assert block == whole[BLOCK_BYTES * n..][..BLOCK_BYTES];
    AbsorbFollowsChain(f, s, whole, n, block);
    assert input[fill..] == whole[BLOCK_BYTES * (n + 1)..];
    if s.pending == [] {
      DrainFollowsChain(f, Absorb(f, s, block), whole, n + 1);
    } else {
      DrainShort(f, Absorb(f, s, block), whole, n + 1, fill);
    }
  }

  lemma DrainShort(f: Compression, s: Snapshot, message: seq<U8>, n: nat, fill: nat)
    requires BLOCK_BYTES * n < |message| < COUNTER_MODULUS && |message| <= BLOCK_BYTES * n + BLOCK_BYTES
    requires s.h == Chain(f, message, n) && s.t == BLOCK_BYTES * n && !s.final && fill <= BLOCK_BYTES
    ensures Drain(f, s, message[BLOCK_BYTES * n..], fill) == StateFor(f, message)
  {
    hide Chain, F;
    BlockCountIs(|message|, n);
  }

  /** The bytes counted and buffered after an update that fills the buffer, modulo 2^128: too many by as much as
      the buffer held for every run of the loop. */
  lemma UpdateTotal(f: Compression, s: Snapshot, input: seq<U8>) returns (extra: nat)
    requires |s.pending| <= BLOCK_BYTES && UpdateEnds(s, |input|) && |input| > BLOCK_BYTES - |s.pending|
    requires |input| < SIZE_MODULUS
    ensures var r, fill := Updated(f, s, input), BLOCK_BYTES - |s.pending|;
            && extra == |s.pending| * DrainCount(|input| - fill, fill)
            && (r.t + |r.pending|) % COUNTER_MODULUS == (s.t + |s.pending| + |input| + extra) % COUNTER_MODULUS
    ensures !KeepsStandard(|s.pending|, |input|) ==> 0 < extra < 128 * SIZE_MODULUS
  {
    hide Absorb, Drain, DrainCount;
    var fill := BLOCK_BYTES - |s.pending|;
    var rest := |input| - fill;
    var n := DrainCount(rest, fill);
    extra := |s.pending| * n;
    AbsorbCounts(f, s, s.pending + input[..fill]);
    DrainOvercounts(f, Absorb(f, s, s.pending + input[..fill]), input[fill..], fill);
    ReduceSummand(s.t + BLOCK_BYTES, rest + extra, COUNTER_MODULUS);
    if !KeepsStandard(|s.pending|, |input|) {
      SmallProduct(|s.pending|, n);
    }
  }

  /** Any other update that ends counts bytes it did not read, so its state is no message's state. */
  lemma UpdateBreaksStandard(f: Compression, message: seq<U8>, input: seq<U8>)
    requires |message| + |input| < COUNTER_MODULUS && |input| < SIZE_MODULUS
    requires UpdateEnds(StateFor(f, message), |input|)
    requires !KeepsStandard(|StateFor(f, message).pending|, |input|)
    ensures Updated(f, StateFor(f, message), input) != StateFor(f, message + input)
  {
    hide Updated, StateFor, DrainCount;
    var s := StateFor(f, message);
    var extra := UpdateTotal(f, s, input);
    Overcount(|message| + |input|, extra);
  }

  lemma SmallProduct(step: nat, n: nat)
    requires 0 < step < 128 && 0 < n < SIZE_MODULUS
    ensures 0 < step * n < 128 * SIZE_MODULUS
  {
    assert step * n <= 128 * n;
  }

  lemma Overcount(length: nat, extra: nat)
    requires length < COUNTER_MODULUS && 0 < extra < COUNTER_MODULUS
    ensures (length + extra) % COUNTER_MODULUS != length
  {
  }

  /** One more update keeps to the standard exactly under the condition. */
  lemma UpdateCorrectExactly(f: Compression, message: seq<U8>, input: seq<U8>)
    requires |message| + |input| < COUNTER_MODULUS && |input| < SIZE_MODULUS
    requires UpdateEnds(StateFor(f, message), |input|)
    ensures Updated(f, StateFor(f, message), input) == StateFor(f, message + input)
            <==> KeepsStandard(|StateFor(f, message).pending|, |input|)
  {
    if KeepsStandard(|StateFor(f, message).pending|, |input|) {
      UpdateFollowsStandard(f, message, input);
    } else {
      UpdateBreaksStandard(f, message, input);
    }
  }

  // ----- hashing -----

  /** Finishing the state of a message gives the standard's hash of it. */
  lemma FinishIsHash(f: Compression, message: seq<U8>)
    requires |message| < COUNTER_MODULUS
    ensures Finished(f, StateFor(f, message)) == HashWith(f, message)
  {
    hide Chain, Digest, BlockWords, Pad;
    var s, n := StateFor(f, message), BlockCount(|message|) - 1;
    LastBlock(message, n);
    assert Bumped(s.t, |s.pending|) == |message|;
  }

  lemma LastBlock(message: seq<U8>, n: nat)
    requires BLOCK_BYTES * n <= |message| <= BLOCK_BYTES * n + BLOCK_BYTES
    ensures DataBlock(message, n) == BlockWords(Pad(message[BLOCK_BYTES * n..]))
  {
    hide BlockWords, Pad;
    var end := BLOCK_BYTES * n + BLOCK_BYTES;
    assert message[BLOCK_BYTES * n..if end <= |message| then end else |message|] == message[BLOCK_BYTES * n..];
  }

  /** Splitting a message between two updates does not change its hash, as long as the second one
      keeps to the condition. */
  lemma SplitHash(f: Compression, first: seq<U8>, second: seq<U8>)
    requires |first| + |second| < COUNTER_MODULUS
    requires KeepsStandard(|StateFor(f, first).pending|, |second|)
    ensures UpdateEnds(StateFor(f, []), |first|) && UpdateEnds(Updated(f, StateFor(f, []), first), |second|)
    ensures Finished(f, Updated(f, Updated(f, StateFor(f, []), first), second)) == HashWith(f, first + second)
  {
    hide Chain, Digest, BlockWords, Drain;
    UpdateFollowsStandard(f, [], first);
    assert [] + first == first;
    UpdateFollowsStandard(f, first, second);
    FinishIsHash(f, first + second);
  }

  // ----- the call that does not end -----

  /** One pass of the block loop over its local variables: how many bytes are left to consume. */
  function LoopPass(left: int, fill: nat): int {
    left - fill
  }

  function AfterPasses(left: int, fill: nat, passes: nat): int {
    if passes == 0 then left else LoopPass(AfterPasses(left, fill, passes - 1), fill)
  }

  predicate LeavesAfter(left: int, fill: nat, passes: nat) {
    AfterPasses(left, fill, passes) <= BLOCK_BYTES
  }

  /** The loop is left after finitely many passes exactly when the call satisfies UpdateEnds. */
  lemma LoopEndsExactly(s: Snapshot, length: nat, fill: nat, left: int)
    requires |s.pending| <= BLOCK_BYTES && fill == BLOCK_BYTES - |s.pending| && left == length - fill
    ensures UpdateEnds(s, length) <==> exists passes: nat :: LeavesAfter(left, fill, passes)
  {
    if fill > 0 {
      PassesDecrease(left, fill, length);
      assert LeavesAfter(left, fill, length);
    } else if length <= BLOCK_BYTES {
      assert LeavesAfter(left, fill, 0);
    } else {
      forall passes: nat
        ensures !LeavesAfter(left, fill, passes)
      {
        PassesStay(left, passes);
      }
    }
  }

  lemma {:induction false} PassesDecrease(left: int, fill: nat, passes: nat)
    requires fill > 0
    ensures AfterPasses(left, fill, passes) <= left - passes
  {
    if passes > 0 {
      PassesDecrease(left, fill, passes - 1);
    }
  }

  lemma {:induction false} PassesStay(left: int, passes: nat)
    ensures AfterPasses(left, 0, passes) == left
  {
    if passes > 0 {
      PassesStay(left, passes - 1);
    }
  }
}
