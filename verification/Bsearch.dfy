/** Binary search over the blocks of a byte array. */
module Bsearch {
  import opened Blocks
  import opened Bytes
  import opened Options
  import opened Qsort

  /** The key compares greater than a front part of the blocks, less than a back part, and equal in between. */
  ghost predicate Partitioned<K>(compare: (K, Block) -> int, key: K, blocks: seq<Block>) {
    forall p, q :: 0 <= p < q < |blocks| ==>
      && (compare(key, blocks[q]) >= 0 ==> compare(key, blocks[p]) >= 0)
      && (compare(key, blocks[q]) > 0 ==> compare(key, blocks[p]) > 0)
  }

  ghost predicate Holds<K>(compare: (K, Block) -> int, key: K, blocks: seq<Block>) {
    exists b :: b in blocks && compare(key, b) == 0
  }

  /** Returns where the block found starts, if one is found. The bounds hold for any array; that a missing
      result means absence holds for a partitioned one. */
  method Bsearch<K>(key: K, a: array<Byte>, count: nat, size: nat, compare: (K, Block) -> int) returns (found: Option<nat>)
    requires Offset(count, size) <= a.Length
    ensures found.Some? ==> exists k :: 0 <= k < count && found.value == Offset(k, size) &&
                                        compare(key, BlockAt(a[..], count, size, k)) == 0
    ensures Partitioned(compare, key, BlocksOf(a[..], count, size)) ==>
              (found.Some? <==> Holds(compare, key, BlocksOf(a[..], count, size)))
  {
    hide Offset;
    var i, j := 0, count;
    ghost var blocks := BlocksOf(a[..], count, size);
    ghost var partitioned := Partitioned(compare, key, blocks);
    while i < j
      invariant 0 <= i <= j <= count
      invariant partitioned ==> forall p :: 0 <= p < i ==> compare(key, blocks[p]) > 0
      invariant partitioned ==> forall p :: j <= p < count ==> compare(key, blocks[p]) < 0
    {
      var k := (j - i) / 2;
      BlockBounds(i + k, count, size);
      OffsetIs(i + k, size);
      var element := (i + k) * size;
      var res := compare(key, a[element..element + size]);
      assert a[element..element + size] == blocks[i + k];
      if res < 0 {
        j := i + k;
      } else if res > 0 {
        i := i + k + 1;
      } else {
        assert blocks[i + k] in blocks;
        return Some(element);
      }
    }
    assert i == j;
    return None;
  }

  /** The comparator's sign does not depend on the order of its arguments, and it orders the blocks. */
  ghost predicate Consistent(compare: Comparator, blocks: seq<Block>) {
    && Orders(compare, blocks)
    && (forall x, y :: x in blocks && y in blocks ==> (NotAfter(compare, x, y) <==> compare(y, x) >= 0))
  }

  /** A sorted array is partitioned around any key the comparator handles consistently with the blocks. */
  lemma SortedIsPartitioned(compare: Comparator, key: Block, blocks: seq<Block>)
    requires Consistent(compare, [key] + blocks)
    requires Sorted(compare, blocks)
    ensures Partitioned(compare, key, blocks)
  {
    var all := [key] + blocks;
    assert key in all && forall k :: 0 <= k < |blocks| ==> all[k + 1] == blocks[k];
    forall p, q | 0 <= p < q < |blocks|
      ensures compare(key, blocks[q]) >= 0 ==> compare(key, blocks[p]) >= 0
      ensures compare(key, blocks[q]) > 0 ==> compare(key, blocks[p]) > 0
    {
      var x, y := blocks[p], blocks[q];
      assert x in all && y in all;
      assert NotAfter(compare, x, y);
      if compare(key, y) >= 0 {
        assert NotAfter(compare, y, key);
        assert NotAfter(compare, x, key);
      }
      if compare(key, y) > 0 {
        assert !NotAfter(compare, key, y);
        assert !NotAfter(compare, key, x);
      }
    }
  }

  /** Searching what the sort left finds a key exactly when the array held a match before it was sorted. */
  lemma SearchAfterSort(compare: Comparator, key: Block, before: seq<Byte>, after: seq<Byte>, count: nat, size: nat)
    requires |before| == |after| && Offset(count, size) <= |before|
    requires Consistent(compare, [key] + BlocksOf(before, count, size))
    requires multiset(BlocksOf(after, count, size)) == multiset(BlocksOf(before, count, size))
    requires Orders(compare, BlocksOf(before, count, size)) ==> Sorted(compare, BlocksOf(after, count, size))
    ensures Partitioned(compare, key, BlocksOf(after, count, size))
    ensures Holds(compare, key, BlocksOf(after, count, size)) <==> Holds(compare, key, BlocksOf(before, count, size))
  {
    var b, a := BlocksOf(before, count, size), BlocksOf(after, count, size);
    SameMembers(a, b);
    forall x
      ensures x in [key] + a <==> x in [key] + b
    {
    }
    assert forall x :: x in b ==> x in [key] + b;
    assert Orders(compare, b);
    SortedIsPartitioned(compare, key, a);
  }

  /** Sorts and then searches: finds the key exactly when the array held a match to begin with. */
  method SortThenSearch(key: Block, a: array<Byte>, count: nat, size: nat, compare: Comparator)
      returns (found: Option<nat>)
    requires Offset(count, size) <= a.Length
    requires Consistent(compare, [key] + BlocksOf(a[..], count, size))
    modifies a
    ensures multiset(BlocksOf(a[..], count, size)) == multiset(BlocksOf(old(a[..]), count, size))
    ensures found.Some? <==> Holds(compare, key, BlocksOf(old(a[..]), count, size))
    ensures found.Some? ==> exists k :: 0 <= k < count && found.value == Offset(k, size) &&
                                        compare(key, BlockAt(a[..], count, size, k)) == 0
  {
    hide Offset, Consistent, Partitioned, Holds, Orders, Sorted;
    ghost var before := a[..];
    QsortR(a, count, size, compare);
    SearchAfterSort(compare, key, before, a[..], count, size);
    found := Bsearch(key, a, count, size, compare);
  }

  lemma SameMembers(s: seq<Block>, t: seq<Block>)
    requires multiset(s) == multiset(t)
    ensures forall x :: x in s <==> x in t
  {
    forall x
      ensures x in s <==> x in t
    {
      assert x in s <==> x in multiset(s);
      assert x in t <==> x in multiset(t);
    }
  }
}
