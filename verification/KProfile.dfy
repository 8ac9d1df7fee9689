/** The kernel profiler's four row orders, and what its tables look like after sorting. */
module KProfile {
  import opened Blocks
  import opened Bytes
  import opened Options
  import opened Qsort

  datatype Row = Row(name: string, realTimeNs: nat, cpuTimeNs: nat, numCalls: nat)

  /** How a row is laid out in memory, and the quotient of CPU time by calls as the machine rounds it. */
  datatype Machine = Machine(decode: Block -> Row, ratio: Row -> real)

  datatype Order = ByReal | ByCpu | ByCalls | ByRatio

  // ----- the comparators -----

  function ComparatorReal(a: Row, b: Row): int {
    if a.realTimeNs > b.realTimeNs then -1 else if a.realTimeNs < b.realTimeNs then 1 else 0
  }

  function ComparatorCpu(a: Row, b: Row): int {
    if a.cpuTimeNs > b.cpuTimeNs then -1 else if a.cpuTimeNs < b.cpuTimeNs then 1 else 0
  }

  function ComparatorCalls(a: Row, b: Row): int {
    if a.numCalls > b.numCalls then -1 else if a.numCalls < b.numCalls then 1 else 0
  }

  function ComparatorRatio(ratio: Row -> real, a: Row, b: Row): int {
    if a.numCalls == 0 && b.numCalls == 0 then 0
    else if a.numCalls == 0 then 1
    else if b.numCalls == 0 then -1
    else if ratio(a) > ratio(b) then -1
    else if ratio(a) < ratio(b) then 1
    else 0
  }

  function CompareRows(m: Machine, order: Order, a: Row, b: Row): int {
    match order
    case ByReal => ComparatorReal(a, b)
    case ByCpu => ComparatorCpu(a, b)
    case ByCalls => ComparatorCalls(a, b)
    case ByRatio => ComparatorRatio(m.ratio, a, b)
  }

  function RowComparator(m: Machine, order: Order): Comparator {
    (x: Block, y: Block) => CompareRows(m, order, m.decode(x), m.decode(y))
  }

  predicate IsOption(option: string) {
    option == "--by-real" || option == "--by-cpu" || option == "--by-calls" || option == "--by-ratio"
  }

  /** The order the command line asks for: the last option given, by ratio if there is none, and
      nothing at all if some option is unknown. */
  method ChooseOrder(options: seq<string>) returns (order: Option<Order>)
    ensures order == None <==> exists i :: 0 <= i < |options| && !IsOption(options[i])
    ensures options == [] ==> order == Some(ByRatio)
    ensures options != [] && order != None ==>
              var last := options[|options| - 1];
              && (order == Some(ByReal) <==> last == "--by-real") && (order == Some(ByCpu) <==> last == "--by-cpu")
              && (order == Some(ByCalls) <==> last == "--by-calls") && (order == Some(ByRatio) <==> last == "--by-ratio")
  {
    order := Some(ByRatio);
    for i := 0 to |options|
      invariant forall k :: 0 <= k < i ==> IsOption(options[k])
      invariant order != None && (i == 0 ==> order == Some(ByRatio))
      invariant i > 0 ==>
                  && (order == Some(ByReal) <==> options[i - 1] == "--by-real")
                  && (order == Some(ByCpu) <==> options[i - 1] == "--by-cpu")
                  && (order == Some(ByCalls) <==> options[i - 1] == "--by-calls")
                  && (order == Some(ByRatio) <==> options[i - 1] == "--by-ratio")
    {
      if options[i] == "--by-real" {
        order := Some(ByReal);
      } else if options[i] == "--by-cpu" {
        order := Some(ByCpu);
      } else if options[i] == "--by-calls" {
        order := Some(ByCalls);
      } else if options[i] == "--by-ratio" {
        order := Some(ByRatio);
      } else {
        return None;
      }
    }
  }

  // ----- what the printed table promises -----

  /** Row a may stand above row b. */
  ghost predicate Above(m: Machine, order: Order, a: Row, b: Row) {
    match order
    case ByReal => a.realTimeNs >= b.realTimeNs
    case ByCpu => a.cpuTimeNs >= b.cpuTimeNs
    case ByCalls => a.numCalls >= b.numCalls
    case ByRatio => b.numCalls == 0 || (a.numCalls != 0 && m.ratio(a) >= m.ratio(b))
  }

  function RowsOf(m: Machine, blocks: seq<Block>): (rows: seq<Row>)
    ensures |rows| == |blocks| && forall i :: 0 <= i < |rows| ==> rows[i] == m.decode(blocks[i])
  {
    seq(|blocks|, i requires 0 <= i < |blocks| => m.decode(blocks[i]))
  }

  /** A comparator result of at most zero means the first row may stand above the second. */
  lemma ComparatorMeaning(m: Machine, order: Order, a: Row, b: Row)
    ensures CompareRows(m, order, a, b) <= 0 <==> Above(m, order, a, b)
    ensures CompareRows(m, order, a, b) <= 0 <==> CompareRows(m, order, b, a) >= 0
  {
  }

  lemma AboveIsTotalPreorder(m: Machine, order: Order, a: Row, b: Row, c: Row)
    ensures Above(m, order, a, b) || Above(m, order, b, a)
    ensures Above(m, order, a, b) && Above(m, order, b, c) ==> Above(m, order, a, c)
  {
  }

  /** All four comparators are total preorders, so the exchange sort may be given any of them. */
  lemma RowComparatorOrders(m: Machine, order: Order, blocks: seq<Block>)
    ensures Orders(RowComparator(m, order), blocks)
  {
    var compare := RowComparator(m, order);
    forall x, y | x in blocks && y in blocks
      ensures NotAfter(compare, x, y) || NotAfter(compare, y, x)
    {
      ComparatorMeaning(m, order, m.decode(x), m.decode(y));
      ComparatorMeaning(m, order, m.decode(y), m.decode(x));
      AboveIsTotalPreorder(m, order, m.decode(x), m.decode(y), m.decode(x));
    }
    forall x, y, z | x in blocks && y in blocks && z in blocks && NotAfter(compare, x, y) && NotAfter(compare, y, z)
      ensures NotAfter(compare, x, z)
    {
      ComparatorMeaning(m, order, m.decode(x), m.decode(y));
      ComparatorMeaning(m, order, m.decode(y), m.decode(z));
      ComparatorMeaning(m, order, m.decode(x), m.decode(z));
      AboveIsTotalPreorder(m, order, m.decode(x), m.decode(y), m.decode(z));
    }
  }

  /** Sorts the table the kernel returned by the chosen order. */
  method SortTable(m: Machine, order: Order, data: array<Byte>, numRows: nat, rowSize: nat)
    requires Offset(numRows, rowSize) <= data.Length
    modifies data
    ensures multiset(RowsOf(m, BlocksOf(data[..], numRows, rowSize))) ==
              multiset(RowsOf(m, BlocksOf(old(data[..]), numRows, rowSize)))
    ensures var rows := RowsOf(m, BlocksOf(data[..], numRows, rowSize));
            forall p, q :: 0 <= p < q < numRows ==> Above(m, order, rows[p], rows[q])
    ensures order == ByRatio ==>
              var rows := RowsOf(m, BlocksOf(data[..], numRows, rowSize));
              forall p, q :: 0 <= p < q < numRows && rows[p].numCalls == 0 ==> rows[q].numCalls == 0
  {
    hide Offset;
    RowComparatorOrders(m, order, BlocksOf(data[..], numRows, rowSize));
    QsortR(data, numRows, rowSize, RowComparator(m, order));
    ghost var blocks := BlocksOf(data[..], numRows, rowSize);
    RowsPermuted(m, BlocksOf(old(data[..]), numRows, rowSize), blocks);
    forall p, q | 0 <= p < q < numRows
      ensures Above(m, order, m.decode(blocks[p]), m.decode(blocks[q]))
    {
      assert NotAfter(RowComparator(m, order), blocks[p], blocks[q]);
      ComparatorMeaning(m, order, m.decode(blocks[p]), m.decode(blocks[q]));
    }
  }

  lemma {:induction false} RowsPermuted(m: Machine, s: seq<Block>, t: seq<Block>)
    requires multiset(s) == multiset(t)
    ensures multiset(RowsOf(m, s)) == multiset(RowsOf(m, t))
    decreases |s|
  {
    if s == [] {
      assert |multiset(t)| == 0;
      assert RowsOf(m, s) == RowsOf(m, t);
    } else {
      var k := Counterpart(s, t);
      RowsPermuted(m, WithoutAt(s, 0), WithoutAt(t, k));
      Without(RowsOf(m, s), 0);
      Without(RowsOf(m, t), k);
      assert RowsOf(m, WithoutAt(s, 0)) == WithoutAt(RowsOf(m, s), 0);
      assert RowsOf(m, WithoutAt(t, k)) == WithoutAt(RowsOf(m, t), k);
    }
  }

  /** The first element of a sequence also stands somewhere in a permutation of it; the rest is permuted. */
  lemma Counterpart<T>(s: seq<T>, t: seq<T>) returns (k: nat)
    requires s != [] && multiset(s) == multiset(t)
    ensures k < |t| && t[k] == s[0] && multiset(WithoutAt(s, 0)) == multiset(WithoutAt(t, k))
  {
    assert s[0] in multiset(t);
    k :| 0 <= k < |t| && t[k] == s[0];
    hide WithoutAt;
    Without(s, 0);
    Without(t, k);
    Cancel(multiset(WithoutAt(s, 0)), multiset(WithoutAt(t, k)), s[0]);
  }

  lemma Cancel<T>(a: multiset<T>, b: multiset<T>, x: T)
    requires a + multiset{x} == b + multiset{x}
    ensures a == b
  {
    assert a == (a + multiset{x}) - multiset{x};
    assert b == (b + multiset{x}) - multiset{x};
  }

  function WithoutAt<T>(s: seq<T>, k: nat): (t: seq<T>)
    requires k < |s|
    ensures |t| == |s| - 1
  {
    s[..k] + s[k + 1..]
  }

  lemma Without<T>(s: seq<T>, k: nat)
    requires k < |s|
    ensures multiset(s) == multiset(WithoutAt(s, k)) + multiset{s[k]}
  {
    assert s == s[..k] + [s[k]] + s[k + 1..];
  }
}
