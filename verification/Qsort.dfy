/** Blocks of `size` bytes stored one after another in a byte array. */
module Blocks {
  import opened Bytes

  type Block = seq<Byte>

  /** Where block i starts. */
  function Offset(i: nat, size: nat): nat {
    i * size
  }

  /** The code computes the product itself. */
  lemma OffsetIs(i: nat, size: nat)
    ensures Offset(i, size) == i * size
  {
  }

  /** Block i lies wholly below block j when i < j. */
  lemma BlockBounds(i: nat, j: nat, size: nat)
    ensures i < j ==> Offset(i, size) + size <= Offset(j, size)
  {
    if i < j {
      assert (j - i) * size >= size by {
        MonotoneTimes(1, j - i, size);
      }
      assert (j - i) * size == j * size - i * size;
    }
  }

  lemma MonotoneTimes(x: nat, y: nat, size: nat)
    requires x <= y
    ensures x * size <= y * size
  {
  }

  function BlockAt(bytes: seq<Byte>, count: nat, size: nat, i: nat): (b: Block)
    requires i < count && Offset(count, size) <= |bytes|
    ensures |b| == size
  {
    BlockBounds(i, count, size);
    bytes[Offset(i, size)..Offset(i, size) + size]
  }

  /** The blocks of an array, in order. */
  function BlocksOf(bytes: seq<Byte>, count: nat, size: nat): (blocks: seq<Block>)
    requires Offset(count, size) <= |bytes|
    ensures |blocks| == count
    ensures forall i :: 0 <= i < count ==> blocks[i] == BlockAt(bytes, count, size, i)
  {
    seq(count, i requires 0 <= i < count => BlockAt(bytes, count, size, i))
  }

  function Exchange<T>(s: seq<T>, i: nat, j: nat): (t: seq<T>)
    requires i < j < |s|
    ensures |t| == |s| && t[i] == s[j] && t[j] == s[i]
    ensures forall k :: 0 <= k < |s| && k != i && k != j ==> t[k] == s[k]
  {
    s[i := s[j]][j := s[i]]
  }

  lemma ExchangePermutes<T>(s: seq<T>, i: nat, j: nat)
    requires i < j < |s|
    ensures multiset(Exchange(s, i, j)) == multiset(s)
  {
  }

  /** Bytes u .. u+n traded for bytes v .. v+n. */
  ghost predicate Traded(before: seq<Byte>, after: seq<Byte>, u: nat, v: nat, n: nat) {
    && |before| == |after|
    && u + n <= v && v + n <= |before|
    && (forall k :: u <= k < u + n ==> after[k] == before[k - u + v])
    && (forall k :: v <= k < v + n ==> after[k] == before[k - v + u])
    && (forall k :: 0 <= k < |before| && !(u <= k < u + n) && !(v <= k < v + n) ==> after[k] == before[k])
  }

  lemma TradedSlices(before: seq<Byte>, after: seq<Byte>, u: nat, v: nat, n: nat)
    requires Traded(before, after, u, v, n)
    ensures after[u..u + n] == before[v..v + n] && after[v..v + n] == before[u..u + n]
    ensures after[v + n..] == before[v + n..]
  {
  }

  lemma UntradedSlice(before: seq<Byte>, after: seq<Byte>, u: nat, v: nat, n: nat, at: nat, end: nat)
    requires Traded(before, after, u, v, n)
    requires at <= end <= |before|
    requires end <= u || u + n <= at
    requires end <= v || v + n <= at
    ensures after[at..end] == before[at..end]
  {
  }

  /** Trading the bytes of two blocks exchanges the blocks and touches no other byte. */
  lemma TradeExchanges(before: seq<Byte>, after: seq<Byte>, count: nat, size: nat, i: nat, j: nat)
    requires i < j < count && Offset(count, size) <= |before|
    requires Traded(before, after, Offset(i, size), Offset(j, size), size)
    ensures BlocksOf(after, count, size) == Exchange(BlocksOf(before, count, size), i, j)
    ensures after[Offset(count, size)..] == before[Offset(count, size)..]
  {
    hide Offset;
    forall k | 0 <= k < count
      ensures BlockAt(after, count, size, k) == Exchange(BlocksOf(before, count, size), i, j)[k]
    {
      TradeAt(before, after, count, size, i, j, k);
    }
    BlockBounds(j, count, size);
    UntradedSlice(before, after, Offset(i, size), Offset(j, size), size, Offset(count, size), |before|);
  }

  lemma TradeAt(before: seq<Byte>, after: seq<Byte>, count: nat, size: nat, i: nat, j: nat, k: nat)
    requires i < j < count && k < count && Offset(count, size) <= |before|
    requires Traded(before, after, Offset(i, size), Offset(j, size), size)
    ensures BlockAt(after, count, size, k) ==
              BlockAt(before, count, size, if k == i then j else if k == j then i else k)
  {
    hide Offset;
    BlockBounds(i, count, size);
    BlockBounds(j, count, size);
    BlockBounds(k, count, size);
    TradedSlices(before, after, Offset(i, size), Offset(j, size), size);
    if k != i && k != j {
      BlockBounds(k, i, size);
      BlockBounds(i, k, size);
      BlockBounds(k, j, size);
      BlockBounds(j, k, size);
      UntradedSlice(before, after, Offset(i, size), Offset(j, size), size, Offset(k, size), Offset(k, size) + size);
    }
  }
}

/** The exchange sort behind qsort and qsort_r. */
module Qsort {
  import opened Blocks
  import opened Bytes

  type Comparator = (Block, Block) -> int

  ghost predicate NotAfter(compare: Comparator, x: Block, y: Block) {
    compare(x, y) <= 0
  }

  /** The comparator orders these blocks: any two compare, and comparisons chain. */
  ghost predicate Orders(compare: Comparator, blocks: seq<Block>) {
    && (forall x, y :: x in blocks && y in blocks ==> NotAfter(compare, x, y) || NotAfter(compare, y, x))
    && (forall x, y, z :: x in blocks && y in blocks && z in blocks && NotAfter(compare, x, y) && NotAfter(compare, y, z)
                          ==> NotAfter(compare, x, z))
  }

  ghost predicate Sorted(compare: Comparator, blocks: seq<Block>) {
    SortedBelow(compare, blocks, |blocks|)
  }

  /** Each of the first i blocks is in place: nothing after it belongs before it. */
  ghost predicate SortedBelow(compare: Comparator, blocks: seq<Block>, i: nat) {
    forall p, q :: 0 <= p < i && p < q < |blocks| ==> NotAfter(compare, blocks[p], blocks[q])
  }

  /** Block i is no later than the blocks after it and before j. */
  ghost predicate LeastUpTo(compare: Comparator, blocks: seq<Block>, i: nat, j: nat)
    requires i < |blocks|
  {
    forall q :: i < q < j && q < |blocks| ==> NotAfter(compare, blocks[i], blocks[q])
  }

  lemma ExchangeStep(compare: Comparator, blocks: seq<Block>, i: nat, j: nat)
    requires i < j < |blocks|
    requires Orders(compare, blocks)
    requires SortedBelow(compare, blocks, i) && LeastUpTo(compare, blocks, i, j)
    requires !NotAfter(compare, blocks[i], blocks[j])
    ensures SortedBelow(compare, Exchange(blocks, i, j), i)
    ensures LeastUpTo(compare, Exchange(blocks, i, j), i, j + 1)
  {
    var after := Exchange(blocks, i, j);
    forall q | i < q < j + 1
      ensures NotAfter(compare, after[i], after[q])
    {
      assert NotAfter(compare, blocks[j], blocks[i]);
      if q < j {
        assert NotAfter(compare, blocks[i], blocks[q]);
      }
    }
  }

  lemma OrdersPermuted(compare: Comparator, blocks: seq<Block>, permuted: seq<Block>)
    requires multiset(blocks) == multiset(permuted)
    ensures Orders(compare, blocks) <==> Orders(compare, permuted)
  {
    forall x
      ensures x in permuted <==> x in blocks
    {
      assert x in permuted <==> x in multiset(permuted);
    }
  }

  /** Swaps two blocks byte by byte. */
  method SwapBlocks(a: array<Byte>, u: nat, v: nat, size: nat)
    requires u + size <= v && v + size <= a.Length
    modifies a
    ensures Traded(old(a[..]), a[..], u, v, size)
  {
    for k := 0 to size
      invariant Traded(old(a[..]), a[..], u, v, k)
    {
      var temp := a[u + k];
      a[u + k] := a[v + k];
      a[v + k] := temp;
    }
  }

  /** What the sort has achieved when the first i blocks are in place. */
  ghost predicate Progress(compare: Comparator, before: seq<Byte>, now: seq<Byte>, count: nat, size: nat, i: nat)
    requires |before| == |now| && Offset(count, size) <= |now|
  {
    && multiset(BlocksOf(now, count, size)) == multiset(BlocksOf(before, count, size))
    && now[Offset(count, size)..] == before[Offset(count, size)..]
    && (Orders(compare, BlocksOf(before, count, size)) ==> SortedBelow(compare, BlocksOf(now, count, size), i))
  }

  /** ... and block i is no later than those before j. */
  ghost predicate InnerProgress(compare: Comparator, before: seq<Byte>, now: seq<Byte>, count: nat, size: nat,
          i: nat, j: nat)
    requires |before| == |now| && Offset(count, size) <= |now| && i < count
  {
    && Progress(compare, before, now, count, size, i)
    && (Orders(compare, BlocksOf(before, count, size)) ==> LeastUpTo(compare, BlocksOf(now, count, size), i, j))
  }

  lemma SwapProgress(compare: Comparator, before: seq<Byte>, now: seq<Byte>, next: seq<Byte>, count: nat,
          size: nat, i: nat, j: nat)
    requires |before| == |now| && Offset(count, size) <= |now| && i < j < count
    requires InnerProgress(compare, before, now, count, size, i, j)
    requires !NotAfter(compare, BlockAt(now, count, size, i), BlockAt(now, count, size, j))
    requires Traded(now, next, Offset(i, size), Offset(j, size), size)
    ensures InnerProgress(compare, before, next, count, size, i, j + 1)
  {
    hide Offset, Orders, SortedBelow, LeastUpTo, Traded, BlockAt;
    var blocks := BlocksOf(now, count, size);
    TradeExchanges(now, next, count, size, i, j);
    ExchangePermutes(blocks, i, j);
    OrdersPermuted(compare, BlocksOf(before, count, size), blocks);
    if Orders(compare, blocks) {
      ExchangeStep(compare, blocks, i, j);
    }
  }

  method QsortR(a: array<Byte>, count: nat, size: nat, compare: Comparator)
    requires Offset(count, size) <= a.Length
    modifies a
    ensures multiset(BlocksOf(a[..], count, size)) == multiset(BlocksOf(old(a[..]), count, size))
    ensures a[Offset(count, size)..] == old(a[Offset(count, size)..])
    ensures Orders(compare, BlocksOf(old(a[..]), count, size)) ==> Sorted(compare, BlocksOf(a[..], count, size))
  {
    hide Offset, Orders, Traded;
    for i := 0 to count
      invariant Progress(compare, old(a[..]), a[..], count, size, i)
    {
      for j := i + 1 to count
        invariant InnerProgress(compare, old(a[..]), a[..], count, size, i, j)
      {
        ghost var now := a[..];
        BlockBounds(i, j, size);
        BlockBounds(j, count, size);
        OffsetIs(i, size);
        OffsetIs(j, size);
        var u, v := i * size, j * size;
        if compare(a[u..u + size], a[v..v + size]) > 0 {
          SwapBlocks(a, u, v, size);
          SwapProgress(compare, old(a[..]), now, a[..], count, size, i, j);
        }
      }
    }
  }
}
