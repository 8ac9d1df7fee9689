/** The parser of the init configuration, with the memory it allocates and frees. */
module InitParse {
  import opened InitText
  import opened InitGrammar
  import opened Options

  type Ptr = int

  const NULL: Ptr := 0

  datatype Directive = Directive(args: Ptr, numArgs: nat)

  /** What an allocated block holds: the arguments of one directive, or directives. */
  datatype Cell = Args(args: seq<Arg>) | Dirs(dirs: seq<Directive>)

  type Blocks = map<Ptr, Cell>

  function ArgsIn(blocks: Blocks, p: Ptr): seq<Arg>
    requires p != NULL ==> p in blocks && blocks[p].Args?
  {
    if p == NULL then [] else blocks[p].args
  }

  function DirsIn(blocks: Blocks, p: Ptr): seq<Directive>
    requires p != NULL ==> p in blocks && blocks[p].Dirs?
  {
    if p == NULL then [] else blocks[p].dirs
  }

  /** The allocator: the live blocks and what they hold. Growing a block may fail at any call. */
  class Heap {
    var blocks: Blocks
    var next: Ptr
    var outOfMemory: bool

    ghost predicate Valid()
      reads this
    {
      next > NULL && NULL !in blocks && forall p :: p in blocks ==> p < next
    }

    constructor ()
      ensures Valid() && blocks == map[] && !outOfMemory
    {
      blocks, next, outOfMemory := map[], 1, false;
    }

    /** A block that is not in use, possibly the one that is being resized. */
    method Resize(p: Ptr) returns (q: Ptr)
      requires Valid() && (p != NULL ==> p in blocks)
      modifies this`next, this`outOfMemory
      ensures Valid() && old(next) <= next
      ensures q == NULL ==> outOfMemory
      ensures q != NULL ==> outOfMemory == old(outOfMemory) && (q == p || q !in blocks) && q < next
    {
      var choice: int := *;
      if choice == 0 {
        outOfMemory := true;
        q := NULL;
      } else if choice == 1 && p != NULL {
        q := p;
      } else {
        q, next := next, next + 1;
      }
    }

    /** realloc for one more argument; the new last element holds whatever was in memory. */
    method GrowArgs(p: Ptr) returns (q: Ptr, ghost junk: Arg)
      requires Valid() && (p != NULL ==> p in blocks && blocks[p].Args?)
      modifies this
      ensures Valid()
      ensures q == NULL ==> outOfMemory && blocks == old(blocks)
      ensures q != NULL ==> outOfMemory == old(outOfMemory) && (q == p || q !in old(blocks))
      ensures q != NULL ==> blocks == (old(blocks) - {p})[q := Args(ArgsIn(old(blocks), p) + [junk])]
    {
      var filler: Arg := *;
      junk := filler;
      q := Resize(p);
      if q != NULL {
        blocks := (blocks - {p})[q := Args(ArgsIn(blocks, p) + [filler])];
      }
    }

    method GrowDirs(p: Ptr) returns (q: Ptr, ghost junk: Directive)
      requires Valid() && (p != NULL ==> p in blocks && blocks[p].Dirs?)
      modifies this
      ensures Valid()
      ensures q == NULL ==> outOfMemory && blocks == old(blocks)
      ensures q != NULL ==> outOfMemory == old(outOfMemory) && (q == p || q !in old(blocks))
      ensures q != NULL ==> blocks == (old(blocks) - {p})[q := Dirs(DirsIn(old(blocks), p) + [junk])]
    {
      var filler: Directive := *;
      junk := filler;
      q := Resize(p);
      if q != NULL {
        blocks := (blocks - {p})[q := Dirs(DirsIn(blocks, p) + [filler])];
      }
    }

    /** free: only a live block may be freed, so nothing is freed twice. */
    method Free(p: Ptr)
      requires Valid() && (p != NULL ==> p in blocks)
      modifies this`blocks
      ensures Valid() && blocks == old(blocks) - {p}
    {
      blocks := blocks - {p};
    }
  }

  function Append<T>(done: seq<T>, rest: Option<seq<T>>): Option<seq<T>> {
    match rest
    case None => None
    case Some(xs) => Some(done + xs)
  }

  lemma AppendPrepend<T>(done: seq<T>, x: T, rest: Option<seq<T>>)
    ensures Append(done, Prepend(x, rest)) == Append(done + [x], rest)
  {
    if rest.Some? {
      assert done + ([x] + rest.value) == done + [x] + rest.value;
    }
  }

  lemma AppendNothing<T>(rest: Option<seq<T>>)
    ensures Append([], rest) == rest
  {
    if rest.Some? {
      assert [] + rest.value == rest.value;
    }
  }

  /** Besides the blocks there were before, exactly the arguments read so far are live. */
  ghost predicate HoldsArgs(blocks: Blocks, base: Blocks, p: Ptr, args: seq<Arg>) {
    if p == NULL then blocks == base && args == []
    else p !in base && blocks == base[p := Args(args)]
  }

  method SkipWhitespace(c: Text, p0: nat) returns (p: nat)
    requires p0 <= |c|
    ensures p == Scan(c, p0, NotBlank)
  {
    p := p0;
    while p < |c| && IsSpace(c[p]) && c[p] != NEWLINE
      invariant p0 <= p <= |c|
      invariant forall k :: p0 <= k < p ==> IsBlank(c[k])
    {
      p := p + 1;
    }
    ScanIs(c, p0, NotBlank, p);
  }

  /** Reads the argument that starts at the visible character p0; fails if its quote is never closed. */
  method ReadArg(c: Text, p0: nat) returns (ok: bool, start: nat, len: nat, p: nat)
    requires p0 < |c| && !IsSpace(c[p0])
    ensures !ok ==> LineArgs(c, p0) == None
    ensures ok ==> p0 < p <= |c| && LineArgs(c, p0) == Prepend(Arg(start, len), LineArgs(c, p))
  {
    hide LineArgs;
    p, start, len := p0, p0, 0;
    if c[p] == QUOTE {
      p := p + 1;
      start := p;
      while p < |c| && c[p] != QUOTE
        invariant start <= p <= |c|
        invariant forall k :: start <= k < p ==> c[k] != QUOTE
      {
        p := p + 1;
      }
      if p == |c| {
        UnclosedQuote(c, p0);
        return false, start, len, p;
      }
      QuotedStep(c, p0, p);
      len := p - start;
      p := p + 1;
    } else {
      while p < |c| && !IsSpace(c[p]) && c[p] != NEWLINE
        invariant start <= p <= |c|
        invariant forall k :: start <= k < p ==> !IsSpace(c[k])
      {
        p := p + 1;
      }
      WordStep(c, p0, p);
      len := p - start;
    }
    ok := true;
  }

  /** Makes room for one more argument and stores it; on failure the block is freed. */
  method StoreArg(heap: Heap, args: Ptr, numArgs: nat, a: Arg, ghost base: Blocks,
          ghost done: seq<Arg>) returns (newArgs: Ptr)
    requires heap.Valid() && numArgs == |done| && HoldsArgs(heap.blocks, base, args, done)
    modifies heap
    ensures heap.Valid()
    ensures newArgs != NULL ==> HoldsArgs(heap.blocks, base, newArgs, done + [a])
    ensures newArgs != NULL ==> heap.outOfMemory == old(heap.outOfMemory)
    ensures newArgs == NULL ==> heap.blocks == base && heap.outOfMemory
  {
    assert NULL !in base;
    ghost var junk: Arg;
    newArgs, junk := heap.GrowArgs(args);
    if newArgs == NULL {
      heap.Free(args);
      assert heap.blocks == base;
      return;
    }
    assert ArgsIn(old(heap.blocks), args) == done;
    heap.blocks := heap.blocks[newArgs := Args(heap.blocks[newArgs].args[numArgs := a])];
    assert (done + [junk])[numArgs := a] == done + [a];
    assert heap.blocks == base[newArgs := Args(done + [a])];
  }

  method ParseLine(c: Text, lineStart: nat, heap: Heap) returns (ok: bool, args: Ptr, numArgs: nat)
    requires lineStart <= |c| && heap.Valid()
    modifies heap
    ensures heap.Valid()
    ensures ok ==> LineArgs(c, lineStart).Some? && numArgs == |LineArgs(c, lineStart).value|
    ensures ok ==> HoldsArgs(heap.blocks, old(heap.blocks), args, LineArgs(c, lineStart).value)
    ensures ok ==> heap.outOfMemory == old(heap.outOfMemory)
    ensures !ok ==> heap.blocks == old(heap.blocks) && (heap.outOfMemory || LineArgs(c, lineStart) == None)
  {
    hide LineArgs;
    var p := lineStart;
    ok, args, numArgs := false, NULL, 0;
    ghost var done: seq<Arg> := [];
    AppendNothing(LineArgs(c, p));
    while p < |c| && c[p] != NEWLINE
      invariant lineStart <= p <= |c|
      invariant heap.Valid() && heap.outOfMemory == old(heap.outOfMemory)
      invariant numArgs == |done| && HoldsArgs(heap.blocks, old(heap.blocks), args, done)
      invariant LineArgs(c, lineStart) == Append(done, LineArgs(c, p))
      decreases |c| - p
    {
      var q := SkipWhitespace(c, p);
      SkipBlanks(c, p, q);
      p := q;
      if p == |c| || c[p] == NEWLINE {
        break;
      }
      var found, start, len, next := ReadArg(c, p);
      if !found {
        heap.Free(args);
        return false, NULL, 0;
      }
      AppendPrepend(done, Arg(start, len), LineArgs(c, next));
      args := StoreArg(heap, args, numArgs, Arg(start, len), old(heap.blocks), done);
      if args == NULL {
        return false, NULL, 0;
      }
      numArgs := numArgs + 1;
      done := done + [Arg(start, len)];
      p := next;
    }
    LineEndsHere(c, p);
    assert done + [] == done;
    ok := true;
  }

  // ----- all lines -----

  /** Directive i of the block points to a live block of its own that holds its arguments. */
  ghost predicate HoldsDirective(blocks: Blocks, dir: Directive, args: seq<Arg>) {
    dir.numArgs == |args| && dir.args in blocks && blocks[dir.args] == Args(args)
  }

  ghost function ArgBlocks(content: seq<Directive>, from: nat, to: nat): set<Ptr>
    requires from <= to <= |content|
  {
    set i | from <= i < to :: content[i].args
  }

  /** Besides the blocks there were before, exactly these are live: the block of directives, and one block of
      arguments for each directive from `from` on. */
  ghost predicate Holds(blocks: Blocks, base: Blocks, p: Ptr, content: seq<Directive>, ds: seq<seq<Arg>>, from: nat) {
    && |ds| <= |content| && from <= |ds|
    && (p == NULL ==> content == [])
    && (p != NULL ==> p !in base && p in blocks && blocks[p] == Dirs(content))
    && (forall i :: from <= i < |ds| ==>
          HoldsDirective(blocks, content[i], ds[i]) && content[i].args !in base && content[i].args != p)
    && (forall i, j :: from <= i < j < |ds| ==> content[i].args != content[j].args)
    && blocks.Keys == base.Keys + (if p == NULL then {} else {p}) + ArgBlocks(content, from, |ds|)
    && (forall q :: q in base ==> q in blocks && blocks[q] == base[q])
  }

  /** The live blocks while parsing goes on: those there were before and those of the directives read. */
  ghost predicate HoldsAll(blocks: Blocks, base: Blocks, p: Ptr, num: nat, ds: seq<seq<Arg>>) {
    && (p != NULL ==> p in blocks && blocks[p].Dirs?)
    && num == |ds| == |DirsIn(blocks, p)|
    && Holds(blocks, base, p, DirsIn(blocks, p), ds, 0)
  }

  /** Frees the arguments of the directives read so far and the directives themselves. */
  method FreeAll(heap: Heap, directives: Ptr, numDirectives: nat, ghost base: Blocks, ghost ds: seq<seq<Arg>>)
    requires heap.Valid() && (directives != NULL ==> directives in heap.blocks && heap.blocks[directives].Dirs?)
    requires numDirectives == |ds|
    requires Holds(heap.blocks, base, directives, DirsIn(heap.blocks, directives), ds, 0)
    modifies heap`blocks
    ensures heap.Valid() && heap.blocks == base
  {
    ghost var content := DirsIn(heap.blocks, directives);
    for i := 0 to numDirectives
      invariant heap.Valid()
      invariant Holds(heap.blocks, base, directives, content, ds, i)
    {
      ghost var before := heap.blocks;
      assert HoldsDirective(heap.blocks, content[i], ds[i]);
      heap.Free(heap.blocks[directives].dirs[i].args);
      FreedOne(before, base, directives, content, ds, i);
    }
    ghost var last := heap.blocks;
    heap.Free(directives);
    assert heap.blocks.Keys == base.Keys;
    forall q | q in base
      ensures heap.blocks[q] == base[q]
    {
      assert last[q] == base[q];
    }
  }

  lemma FreedOne(blocks: Blocks, base: Blocks, p: Ptr, content: seq<Directive>, ds: seq<seq<Arg>>, i: nat)
    requires i < |ds| && Holds(blocks, base, p, content, ds, i)
    ensures Holds(blocks - {content[i].args}, base, p, content, ds, i + 1)
  {
    var after := blocks - {content[i].args};
    forall k | i + 1 <= k < |ds|
      ensures HoldsDirective(after, content[k], ds[k])
    {
      assert HoldsDirective(blocks, content[k], ds[k]);
    }
    assert ArgBlocks(content, i, |ds|) == ArgBlocks(content, i + 1, |ds|) + {content[i].args};
    assert content[i].args !in ArgBlocks(content, i + 1, |ds|);
  }

  /** Growing the block of directives moves it, keeps the directives read, and adds an unused one. */
  lemma GrownDirs(blocks: Blocks, base: Blocks, p: Ptr, content: seq<Directive>, ds: seq<seq<Arg>>, q: Ptr,
          junk: Directive, after: Blocks)
    requires Holds(blocks, base, p, content, ds, 0) && |content| == |ds| && NULL !in blocks
    requires q != NULL && (q == p || q !in blocks)
    requires after == (blocks - {p})[q := Dirs(content + [junk])]
    ensures Holds(after, base, q, content + [junk], ds, 0)
  {
    var grown := content + [junk];
    forall i | 0 <= i < |ds|
      ensures HoldsDirective(after, grown[i], ds[i]) && grown[i].args != q
    {
      assert HoldsDirective(blocks, content[i], ds[i]);
    }
    assert ArgBlocks(grown, 0, |ds|) == ArgBlocks(content, 0, |ds|);
  }

  lemma SameArgBlocks(a: seq<Directive>, b: seq<Directive>, n: nat)
    requires n <= |a| && n <= |b| && forall i :: 0 <= i < n ==> a[i] == b[i]
    ensures ArgBlocks(a, 0, n) == ArgBlocks(b, 0, n)
  {
    forall x
      ensures x in ArgBlocks(a, 0, n) <==> x in ArgBlocks(b, 0, n)
    {
      if x in ArgBlocks(a, 0, n) {
        var i :| 0 <= i < n && a[i].args == x;
        assert b[i].args == x;
      }
      if x in ArgBlocks(b, 0, n) {
        var i :| 0 <= i < n && b[i].args == x;
        assert a[i].args == x;
      }
    }
  }

  /** Storing the directive just read into the unused place. */
  lemma StoredDirective(blocks: Blocks, base: Blocks, q: Ptr, content: seq<Directive>, ds: seq<seq<Arg>>,
                        dir: Directive, args: seq<Arg>, after: Blocks)
    requires Holds(blocks, base, q, content, ds, 0) && |content| == |ds| + 1 && q != NULL && NULL !in blocks
    requires dir.args != NULL && dir.args !in blocks && dir.numArgs == |args|
    requires after == blocks[dir.args := Args(args)][q := Dirs(content[|ds| := dir])]
    ensures Holds(after, base, q, content[|ds| := dir], ds + [args], 0)
  {
    var n := |ds|;
    var stored := content[n := dir];
    forall i | 0 <= i < n
      ensures HoldsDirective(after, stored[i], ds[i]) && stored[i].args != dir.args
    {
      assert HoldsDirective(blocks, content[i], ds[i]);
    }
    assert HoldsDirective(after, dir, args);
    SameArgBlocks(stored, content, n);
    assert ArgBlocks(stored, 0, n + 1) == ArgBlocks(stored, 0, n) + {stored[n].args};
  }

  lemma HoldsNothing(blocks: Blocks)
    ensures HoldsAll(blocks, blocks, NULL, 0, [])
  {
    assert ArgBlocks([], 0, 0) == {};
  }

  /** The directives from the start of the text are those read so far and those from p on. */
  ghost predicate ReadUpTo(c: Text, p: nat, ds: seq<seq<Arg>>) {
    p <= |c| && Directives(c, 0) == Append(ds, Directives(c, p))
  }

  lemma ReadLine(c: Text, p: nat, ds: seq<seq<Arg>>)
    requires ReadUpTo(c, p, ds) && p < |c|
    ensures LineStart(c, p) == LineEnd(c, p) ==> ReadUpTo(c, NextLine(c, p), ds)
    ensures LineStart(c, p) < LineEnd(c, p) && LineArgs(c, LineStart(c, p)) == None ==> Directives(c, 0) == None
    ensures LineStart(c, p) < LineEnd(c, p) && LineArgs(c, LineStart(c, p)).Some? ==>
              ReadUpTo(c, NextLine(c, p), ds + [LineArgs(c, LineStart(c, p)).value])
  {
    hide LineArgs;
    if LineStart(c, p) < LineEnd(c, p) && LineArgs(c, LineStart(c, p)).Some? {
      AppendPrepend(ds, LineArgs(c, LineStart(c, p)).value, Directives(c, NextLine(c, p)));
    }
  }

  lemma ReadAll(c: Text, ds: seq<seq<Arg>>)
    ensures ReadUpTo(c, |c|, ds) ==> Directives(c, 0) == Some(ds)
    ensures ds == [] ==> ReadUpTo(c, 0, ds)
  {
    AppendNothing(Directives(c, 0));
    assert Directives(c, |c|) == Some([]);
    assert ds + [] == ds;
  }

  /** Fails if a quote is never closed or memory runs out, and then nothing it allocated is left;
      otherwise returns the directives of the text, and they are all that is left. */
  method ParseConfig(c: Text, heap: Heap) returns (ok: bool, out: Ptr, outNum: nat)
    requires heap.Valid() && !heap.outOfMemory
    modifies heap
    ensures heap.Valid()
    ensures ok <==> !heap.outOfMemory && Directives(c, 0).Some?
    ensures !ok ==> heap.blocks == old(heap.blocks)
    ensures ok ==> HoldsAll(heap.blocks, old(heap.blocks), out, outNum, Directives(c, 0).value)
  {
    hide Directives, HoldsAll, ReadUpTo, LineArgs, LineStart, LineEnd, NextLine;
    ghost var base := heap.blocks;
    ghost var ds: seq<seq<Arg>> := [];
    var p := 0;
    var directives, numDirectives := NULL, 0;
    HoldsNothing(base);
    ReadAll(c, ds);
    while p < |c|
      invariant 0 <= p <= |c| && ReadUpTo(c, p, ds)
      invariant heap.Valid() && !heap.outOfMemory
      invariant HoldsAll(heap.blocks, base, directives, numDirectives, ds)
      decreases |c| - p
    {
      ReadLine(c, p, ds);
      var lineStart, lineEnd := FindLine(c, p);
      if lineStart < lineEnd {
        var stored;
        stored, directives := StoreLine(c, lineStart, heap, directives, numDirectives, base, ds);
        if !stored {
          return false, NULL, 0;
        }
        numDirectives := numDirectives + 1;
        ds := ds + [LineArgs(c, lineStart).value];
      }
      p := lineEnd;
      if p < |c| && c[p] == NEWLINE {
        p := p + 1;
      }
    }
    ReadAll(c, ds);
    return true, directives, numDirectives;
  }

  /** Finds the end of the line at p0 and its first visible character. */
  method FindLine(c: Text, p0: nat) returns (lineStart: nat, lineEnd: nat)
    requires p0 <= |c|
    ensures lineStart == LineStart(c, p0) && lineEnd == LineEnd(c, p0)
    ensures lineStart < lineEnd ==> !IsSpace(c[lineStart])
    ensures lineEnd < |c| ==> c[lineEnd] == NEWLINE
    ensures NextLine(c, p0) == if lineEnd < |c| then lineEnd + 1 else lineEnd
  {
    var p := p0;
    while p < |c| && c[p] != NEWLINE
      invariant p0 <= p <= |c|
      invariant forall k :: p0 <= k < p ==> c[k] != NEWLINE
    {
      p := p + 1;
    }
    ScanIs(c, p0, IsNewline, p);
    lineStart, lineEnd := p0, p;
    while lineStart < lineEnd && IsSpace(c[lineStart])
      invariant p0 <= lineStart <= lineEnd
      invariant forall k :: p0 <= k < lineStart ==> IsSpace(c[k])
    {
      lineStart := lineStart + 1;
    }
    if lineStart < lineEnd {
      ScanIs(c, p0, NotSpace, lineStart);
    }
  }

  /** Makes room for one more directive, reads the line and stores it; on failure everything is freed. */
  method StoreLine(c: Text, lineStart: nat, heap: Heap, directives: Ptr, numDirectives: nat,
                   ghost base: Blocks, ghost ds: seq<seq<Arg>>)
      returns (ok: bool, newDirectives: Ptr)
    requires lineStart < |c| && !IsSpace(c[lineStart]) && heap.Valid() && !heap.outOfMemory
    requires HoldsAll(heap.blocks, base, directives, numDirectives, ds)
    modifies heap
    ensures heap.Valid()
    ensures !ok ==> heap.blocks == base && (heap.outOfMemory || LineArgs(c, lineStart) == None)
    ensures ok ==> !heap.outOfMemory && LineArgs(c, lineStart).Some?
    ensures ok ==> HoldsAll(heap.blocks, base, newDirectives, numDirectives + 1, ds + [LineArgs(c, lineStart).value])
  {
    hide LineArgs, Holds;
    ghost var before, content := heap.blocks, DirsIn(heap.blocks, directives);
    ghost var junk: Directive;
    newDirectives, junk := heap.GrowDirs(directives);
    if newDirectives == NULL {
      FreeAll(heap, directives, numDirectives, base, ds);
      return false, NULL;
    }
    GrownDirs(before, base, directives, content, ds, newDirectives, junk, heap.blocks);
    ghost var grown := heap.blocks;
    var read, args, numArgs := ParseLine(c, lineStart, heap);
    if !read {
      FreeAll(heap, newDirectives, numDirectives, base, ds);
      return false, NULL;
    }
    VisibleLineHasArgs(c, lineStart);
    var dir := Directive(args, numArgs);
    heap.blocks := heap.blocks[newDirectives := Dirs(heap.blocks[newDirectives].dirs[numDirectives := dir])];
    StoredDirective(grown, base, newDirectives, content + [junk], ds, dir, LineArgs(c, lineStart).value, heap.blocks);
    ok := true;
  }
}
