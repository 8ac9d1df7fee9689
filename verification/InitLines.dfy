/** Quotes and lines: exactly which configuration texts keep the arguments of one directive apart from those of
    the next. */
module InitLines {
  import opened InitText
  import opened InitGrammar
  import opened Options

  // ----- the condition, on the characters of the text alone -----

  datatype Mode = Between | InWord | InQuotes

  /** A quote opens quotes only where a word could start; within a word it is a character like any other. */
  function Moved(m: Mode, b: Byte): Mode {
    match m
    case Between => if IsSpace(b) then Between else if IsQuote(b) then InQuotes else InWord
    case InWord => if IsSpace(b) then Between else InWord
    case InQuotes => if IsQuote(b) then Between else InQuotes
  }

  function ModeAfter(c: Text, p: nat, e: nat, m: Mode): Mode
    requires p <= e <= |c|
    decreases e - p
  {
    if p == e then m else ModeAfter(c, p + 1, e, Moved(m, c[p]))
  }

  /** The line at p, read by itself, does not end inside quotes. */
  predicate LineCloses(c: Text, p: nat)
    requires p <= |c|
  {
    ModeAfter(c, p, LineEnd(c, p), Between) != InQuotes
  }

  predicate LinesClose(c: Text, p: nat)
    requires p <= |c|
    decreases |c| - p
  {
    p == |c| || (LineCloses(c, p) && LinesClose(c, NextLine(c, p)))
  }

  lemma {:induction false} ModeStays(c: Text, p: nat, q: nat, e: nat, m: Mode)
    requires p <= q <= e <= |c| && forall k :: p <= k < q ==> Moved(m, c[k]) == m
    ensures ModeAfter(c, p, e, m) == ModeAfter(c, q, e, m)
    decreases q - p
  {
    if p < q {
      ModeStays(c, p + 1, q, e, m);
    }
  }

  // ----- one line -----

  /** From p to e the text stays on one line, and the line ends at e. */
  ghost predicate OnLine(c: Text, p: nat, e: nat) {
    p <= e <= |c| && (forall k :: p <= k < e ==> c[k] != NEWLINE) && (e < |c| ==> c[e] == NEWLINE)
  }

  predicate EndsOpen(c: Text, p: nat, e: nat)
    requires p <= e <= |c|
  {
    ModeAfter(c, p, e, Between) == InQuotes
  }

  /** Skipping the blanks before the next argument. */
  lemma ToVisible(c: Text, p: nat, e: nat) returns (q: nat)
    requires OnLine(c, p, e)
    ensures p <= q <= e && (q < e ==> !IsSpace(c[q]))
    ensures LineArgs(c, p) == LineArgs(c, q) && EndsOpen(c, p, e) == EndsOpen(c, q, e)
    ensures q == e ==> LineArgs(c, p) == Some([]) && !EndsOpen(c, p, e)
  {
    hide LineArgs;
    q := Scan(c, p, NotBlank);
    SkipBlanks(c, p, q);
    ModeStays(c, p, q, e, Between);
    if q == e {
      LineEndsHere(c, q);
    }
  }

  lemma WordOnLine(c: Text, q: nat, e: nat) returns (r: nat)
    requires OnLine(c, q, e) && q < e && !IsSpace(c[q]) && c[q] != QUOTE
    ensures q < r <= e && LineArgs(c, q) == Prepend(Arg(q, r - q), LineArgs(c, r))
    ensures EndsOpen(c, q, e) == EndsOpen(c, r, e)
  {
    hide LineArgs;
    r := Scan(c, q, IsSpace);
    WordStep(c, q, r);
    ModeStays(c, q + 1, r, e, InWord);
  }

  /** A quote that opens: either it closes on the line, or the line ends inside quotes. */
  lemma QuoteOnLine(c: Text, q: nat, e: nat) returns (r: nat)
    requires OnLine(c, q, e) && q < e && c[q] == QUOTE
    ensures q < r <= |c| && (r < |c| ==> r != e && c[r] == QUOTE) && forall k :: q < k < r ==> c[k] != QUOTE
    ensures r == |c| ==> LineArgs(c, q) == None
    ensures r < |c| ==> LineArgs(c, q) == Prepend(Arg(q + 1, r - q - 1), LineArgs(c, r + 1))
    ensures if r < e then EndsOpen(c, q, e) == EndsOpen(c, r + 1, e) else EndsOpen(c, q, e)
  {
    hide LineArgs;
    r := Scan(c, q + 1, IsQuote);
    if r == |c| {
      UnclosedQuote(c, q);
    } else {
      QuotedStep(c, q, r);
    }
    ModeStays(c, q + 1, if r < e then r else e, e, InQuotes);
  }

  /** A line that does not end inside quotes is read to its end and no further. */
  lemma {:induction false} ClosedLine(c: Text, p: nat, e: nat)
    requires OnLine(c, p, e) && !EndsOpen(c, p, e)
    ensures LineArgs(c, p).Some? && forall a :: a in LineArgs(c, p).value ==> a.start + a.len <= e
    decreases e - p
  {
    hide LineArgs, EndsOpen;
    var q := ToVisible(c, p, e);
    if q < e && c[q] == QUOTE {
      var r := QuoteOnLine(c, q, e);
      ClosedLine(c, r + 1, e);
    } else if q < e {
      var r := WordOnLine(c, q, e);
      ClosedLine(c, r, e);
    }
  }

  /** A line that ends inside quotes and can be read has an argument that ends at the first quote behind the line;
      from there on the reading of the line continues. */
  lemma {:induction false} OpenLine(c: Text, p: nat, e: nat) returns (a: Arg, z: nat)
    requires OnLine(c, p, e) && EndsOpen(c, p, e) && LineArgs(c, p).Some?
    ensures a in LineArgs(c, p).value && a.start + a.len == z
    ensures e < z < |c| && c[z] == QUOTE && forall k :: e <= k < z ==> c[k] != QUOTE
    ensures LineArgs(c, z + 1).Some? && forall b :: b in LineArgs(c, z + 1).value ==> b in LineArgs(c, p).value
    decreases e - p
  {
    hide LineArgs, EndsOpen;
    var q := ToVisible(c, p, e);
    if c[q] == QUOTE {
      var r := QuoteOnLine(c, q, e);
      if r < e {
        a, z := OpenLine(c, r + 1, e);
      } else {
        a, z := Arg(q + 1, r - q - 1), r;
      }
    } else {
      var r := WordOnLine(c, q, e);
      a, z := OpenLine(c, r, e);
    }
  }

  lemma LineOf(c: Text, p: nat)
    requires p < |c|
    ensures OnLine(c, p, LineEnd(c, p)) && OnLine(c, LineStart(c, p), LineEnd(c, p))
    ensures LineCloses(c, p) <==> !EndsOpen(c, LineStart(c, p), LineEnd(c, p))
    ensures forall k :: p <= k < LineStart(c, p) ==> IsSpace(c[k])
    ensures LineStart(c, p) < LineEnd(c, p) ==> !IsSpace(c[LineStart(c, p)])
  {
    ModeStays(c, p, LineStart(c, p), LineEnd(c, p), Between);
  }

  // ----- closed lines keep directives apart -----

  /** The arguments of earlier directives end before those of later ones start. */
  ghost predicate Apart(ds: seq<seq<Arg>>) {
    forall i, j, a, b :: 0 <= i < j < |ds| && a in ds[i] && b in ds[j] ==> a.start + a.len <= b.start
  }

  ghost predicate StartFrom(ds: seq<seq<Arg>>, from: nat) {
    forall i, a :: 0 <= i < |ds| && a in ds[i] ==> from <= a.start
  }

  lemma PrependApart(args: seq<Arg>, from: nat, end: nat, rest: seq<seq<Arg>>, next: nat)
    requires from <= end <= next && Apart(rest) && StartFrom(rest, next)
    requires forall a :: a in args ==> from <= a.start && a.start + a.len <= end
    ensures Apart([args] + rest) && StartFrom([args] + rest, from)
  {
    var ds := [args] + rest;
    forall i: nat, a: Arg | i < |ds| && a in ds[i]
      ensures from <= a.start && (i > 0 ==> next <= a.start)
    {
      if i > 0 {
        assert a in rest[i - 1];
      }
    }
    forall i: nat, j: nat, a: Arg, b: Arg | i < j < |ds| && a in ds[i] && b in ds[j]
      ensures a.start + a.len <= b.start
    {
      assert ds[j] == rest[j - 1];
      if i > 0 {
        assert ds[i] == rest[i - 1];
      }
    }
  }

  lemma {:induction false} LinesInOrder(c: Text, p: nat)
    requires p <= |c| && LinesClose(c, p)
    ensures Directives(c, p).Some? && Apart(Directives(c, p).value) && StartFrom(Directives(c, p).value, p)
    decreases |c| - p
  {
    hide LineArgs, LineCloses, EndsOpen, OnLine;
    if p < |c| {
      LinesInOrder(c, NextLine(c, p));
      LineOf(c, p);
      if !IsBlankLine(c, p) {
        ClosedLine(c, LineStart(c, p), LineEnd(c, p));
        LineArgsOrdered(c, LineStart(c, p));
        PrependApart(LineArgs(c, LineStart(c, p)).value, p, LineEnd(c, p),
                     Directives(c, NextLine(c, p)).value, NextLine(c, p));
      }
    }
  }

  // ----- and only they do -----

  /** An argument that starts before the quote at z, or starts right behind it where a reading from there on
      finds an argument that reaches further. */
  ghost predicate Behind(c: Text, z: nat, b: Arg)
    requires z < |c| && LineArgs(c, z + 1).Some?
  {
    b.start < z || (b.start == z + 1 && exists a :: a in LineArgs(c, z + 1).value && a.start + a.len > z + 1)
  }

  lemma VisibleAhead(c: Text, p: nat, r: nat)
    requires p <= r < |c| && !IsSpace(c[r]) && (forall k :: p <= k < r ==> c[k] != NEWLINE)
    requires LineArgs(c, p).Some?
    ensures LineArgs(c, p).value != []
  {
    hide LineArgs;
    var q := Scan(c, p, NotBlank);
    SkipBlanks(c, p, q);
    assert q <= r;
    VisibleLineHasArgs(c, q);
  }

  /** Quotes that open at z and close at r on the same line: read from behind the opening quote, there is an
      argument as well. */
  lemma ReadFromInside(c: Text, z: nat, r: nat) returns (a: Arg)
    requires z < r < |c| && c[r] == QUOTE && (forall k :: z < k < r ==> c[k] != NEWLINE)
    requires LineArgs(c, z + 1).Some?
    ensures a in LineArgs(c, z + 1).value && a.start + a.len > z + 1
  {
    hide LineArgs;
    VisibleAhead(c, z + 1, r);
    var e;
    a, e := FirstArg(c, z + 1);
  }

  /** If the first quote from the line at l on is at z, some directive of these lines has an argument that a
      reading up to z and on from there runs into. */
  lemma {:induction false} RunsInto(c: Text, l: nat, z: nat) returns (j: nat, b: Arg)
    requires l <= z < |c| && c[z] == QUOTE && (forall k :: l <= k < z ==> c[k] != QUOTE)
    requires Directives(c, l).Some? && LinesClose(c, l) && LineArgs(c, z + 1).Some?
    ensures j < |Directives(c, l).value| && b in Directives(c, l).value[j] && Behind(c, z, b)
    decreases |c| - l
  {
    hide LineArgs, LineCloses, EndsOpen;
    var s, e := LineStart(c, l), LineEnd(c, l);
    LineOf(c, l);
    if s == e {
      j, b := RunsInto(c, NextLine(c, l), z);
    } else if s < z {
      var r := WordOnLine(c, s, e);
      j, b := 0, Arg(s, r - s);
    } else {
      assert s == z;
      var r := QuoteOnLine(c, z, e);
      j, b := 0, Arg(z + 1, r - z - 1);
      var a := ReadFromInside(c, z, r);
    }
  }

  lemma TailApart(args: seq<Arg>, rest: seq<seq<Arg>>)
    requires Apart([args] + rest)
    ensures Apart(rest)
  {
    var ds := [args] + rest;
    forall i: nat, j: nat, a: Arg, b: Arg | i < j < |rest| && a in rest[i] && b in rest[j]
      ensures a.start + a.len <= b.start
    {
      assert ds[i + 1] == rest[i] && ds[j + 1] == rest[j];
    }
  }

  lemma {:induction false} OpenLinesOverlap(c: Text, p: nat)
    requires p <= |c| && Directives(c, p).Some? && !LinesClose(c, p)
    ensures !Apart(Directives(c, p).value)
    decreases |c| - p
  {
    hide LineArgs, LineCloses, EndsOpen, Apart;
    var next := NextLine(c, p);
    LineOf(c, p);
    if !LinesClose(c, next) {
      OpenLinesOverlap(c, next);
      if !IsBlankLine(c, p) && Apart(Directives(c, p).value) {
        TailApart(LineArgs(c, LineStart(c, p)).value, Directives(c, next).value);
      }
    } else {
      OpenLineOverlaps(c, p);
    }
  }

  lemma OpenLineOverlaps(c: Text, p: nat)
    requires p < |c| && Directives(c, p).Some? && !LineCloses(c, p) && LinesClose(c, NextLine(c, p))
    ensures !Apart(Directives(c, p).value)
  {
    hide LineArgs, LineCloses;
    LineOf(c, p);
    var ds, next := Directives(c, p).value, NextLine(c, p);
    var a, z := OpenLine(c, LineStart(c, p), LineEnd(c, p));
    var j, b := RunsInto(c, next, z);
    assert b in ds[j + 1];
    if b.start < z {
      assert a in ds[0];
    } else {
      var more :| more in LineArgs(c, z + 1).value && more.start + more.len > z + 1;
      assert more in ds[0];
    }
  }

  /** A text can be read, and the directives read from it lie one behind the other, if and only if no line, read
      by itself, ends inside quotes. */
  lemma ApartExactly(c: Text)
    ensures LinesClose(c, 0) <==> Directives(c, 0).Some? && Apart(Directives(c, 0).value)
  {
    if LinesClose(c, 0) {
      LinesInOrder(c, 0);
    } else if Directives(c, 0).Some? {
      OpenLinesOverlap(c, 0);
    }
  }
}
