/** Characters and scanning, as the init program's parser uses them on a NUL-terminated string. */
module InitText {

  type Byte = b: int | 1 <= b < 256 witness 1
  type Text = seq<Byte>

  const NEWLINE: Byte := 10
  const SPACE: Byte := 32
  const QUOTE: Byte := 34

  predicate IsSpace(b: Byte) {
    9 <= b <= 13 || b == SPACE
  }

  predicate IsNewline(b: Byte) { b == NEWLINE }

  predicate IsQuote(b: Byte) { b == QUOTE }

  /** White space within a line. */
  predicate IsBlank(b: Byte) {
    IsSpace(b) && b != NEWLINE
  }

  predicate NotSpace(b: Byte) { !IsSpace(b) }

  predicate NotBlank(b: Byte) { !IsBlank(b) }

  /** The first position from p on that holds a stopping character, or the end of the text. */
  function Scan(c: Text, p: nat, stop: Byte -> bool): (q: nat)
    requires p <= |c|
    ensures p <= q <= |c|
    ensures forall k :: p <= k < q ==> !stop(c[k])
    ensures q < |c| ==> stop(c[q])
    decreases |c| - p
  {
    if p == |c| || stop(c[p]) then p else Scan(c, p + 1, stop)
  }

  /** The position a scan finds is the only one of its kind. */
  lemma {:induction false} ScanIs(c: Text, p: nat, stop: Byte -> bool, q: nat)
    requires p <= q <= |c|
    requires forall k :: p <= k < q ==> !stop(c[k])
    requires q < |c| ==> stop(c[q])
    ensures Scan(c, p, stop) == q
  {
  }
}

/** What a configuration text means: for each line that is not blank, where its arguments lie. */
module InitGrammar {
  import opened InitText
  import opened Options

  /** An argument is a piece of the text itself. */
  datatype Arg = Arg(start: nat, len: nat)

  function Prepend<T>(x: T, rest: Option<seq<T>>): Option<seq<T>> {
    match rest
    case None => None
    case Some(xs) => Some([x] + xs)
  }

  /** The arguments from p to the end of the line; none if a quote is never closed. A quoted argument ends
      at the next quote, wherever that is. */
  function LineArgs(c: Text, p: nat): Option<seq<Arg>>
    requires p <= |c|
    decreases |c| - p
  {
    var q := Scan(c, p, NotBlank);
    if q == |c| || c[q] == NEWLINE then Some([])
    else if c[q] == QUOTE then
      var e := Scan(c, q + 1, IsQuote);
      if e == |c| then None else Prepend(Arg(q + 1, e - q - 1), LineArgs(c, e + 1))
    else
      var e := Scan(c, q, IsSpace);
      Prepend(Arg(q, e - q), LineArgs(c, e))
  }

  /** Where the line at p ends, where its first visible character is, and where the next line starts. */
  function LineEnd(c: Text, p: nat): (e: nat)
    requires p <= |c|
    ensures p <= e <= |c|
  {
    Scan(c, p, IsNewline)
  }

  function LineStart(c: Text, p: nat): (s: nat)
    requires p <= |c|
    ensures p <= s <= LineEnd(c, p)
  {
    var s, e := Scan(c, p, NotSpace), LineEnd(c, p);
    if s < e then s else e
  }

  function NextLine(c: Text, p: nat): (q: nat)
    requires p <= |c|
    ensures p <= q <= |c| && (p < |c| ==> p < q)
  {
    var e := LineEnd(c, p);
    if e < |c| then e + 1 else e
  }

  predicate IsBlankLine(c: Text, p: nat)
    requires p <= |c|
  {
    LineStart(c, p) == LineEnd(c, p)
  }

  /** The directives from the line at p on. */
  function Directives(c: Text, p: nat): Option<seq<seq<Arg>>>
    requires p <= |c|
    decreases |c| - p
  {
    if p == |c| then Some([])
    else if IsBlankLine(c, p) then Directives(c, NextLine(c, p))
    else match LineArgs(c, LineStart(c, p))
         case None => None
         case Some(args) => Prepend(args, Directives(c, NextLine(c, p)))
  }

  function TextOf(c: Text, a: Arg): Text
    requires a.start + a.len <= |c|
  {
    c[a.start..a.start + a.len]
  }

  ghost predicate InBounds(c: Text, args: seq<Arg>) {
    forall i :: 0 <= i < |args| ==> args[i].start + args[i].len <= |c|
  }

  /** The arguments lie one after the other, from `from` on and up to `to`. */
  ghost predicate Ordered(args: seq<Arg>, from: nat, to: nat) {
    && (forall i :: 0 <= i < |args| ==> from <= args[i].start && args[i].start + args[i].len <= to)
    && (forall i, j :: 0 <= i < j < |args| ==> args[i].start + args[i].len <= args[j].start)
  }

  // ----- reading step by step -----

  lemma QuotedStep(c: Text, p: nat, e: nat)
    requires p < e < |c| && c[p] == QUOTE && c[e] == QUOTE
    requires forall k :: p < k < e ==> c[k] != QUOTE
    ensures LineArgs(c, p) == Prepend(Arg(p + 1, e - p - 1), LineArgs(c, e + 1))
  {
    ScanIs(c, p, NotBlank, p);
    ScanIs(c, p + 1, IsQuote, e);
  }

  lemma WordStep(c: Text, p: nat, e: nat)
    requires p < e <= |c| && c[p] != QUOTE && (e < |c| ==> IsSpace(c[e]))
    requires forall k :: p <= k < e ==> !IsSpace(c[k])
    ensures LineArgs(c, p) == Prepend(Arg(p, e - p), LineArgs(c, e))
  {
    ScanIs(c, p, NotBlank, p);
    ScanIs(c, p, IsSpace, e);
  }

  /** A blank before the arguments makes no difference. */
  lemma SkipBlank(c: Text, p: nat)
    requires p < |c| && IsBlank(c[p])
    ensures LineArgs(c, p) == LineArgs(c, p + 1)
  {
  }

  /** Blanks before the arguments make no difference. */
  lemma SkipBlanks(c: Text, p: nat, q: nat)
    requires p <= |c| && q == Scan(c, p, NotBlank)
    ensures LineArgs(c, q) == LineArgs(c, p)
  {
    ScanIs(c, q, NotBlank, q);
  }

  lemma UnclosedQuote(c: Text, p: nat)
    requires p < |c| && c[p] == QUOTE && forall k :: p < k < |c| ==> c[k] != QUOTE
    ensures LineArgs(c, p) == None
  {
    ScanIs(c, p, NotBlank, p);
    ScanIs(c, p + 1, IsQuote, |c|);
  }

  lemma LineEndsHere(c: Text, p: nat)
    requires p <= |c| && (p < |c| ==> c[p] == NEWLINE)
    ensures LineArgs(c, p) == Some([])
  {
    ScanIs(c, p, NotBlank, p);
  }

  // ----- what parsing always yields -----

  /** The first argument of a line: either between quotes, and then without a quote inside, or a visible
      word that does not start with a quote. The other arguments are read from behind it. */
  lemma FirstArg(c: Text, p: nat) returns (a: Arg, e: nat)
    requires p <= |c| && LineArgs(c, p).Some? && LineArgs(c, p).value != []
    ensures p < e <= |c| && p <= a.start && a.start + a.len <= e
    ensures LineArgs(c, e).Some? && LineArgs(c, p).value == [a] + LineArgs(c, e).value
    ensures || (forall k :: a.start <= k < a.start + a.len ==> c[k] != QUOTE)
            || (a.len > 0 && c[a.start] != QUOTE && forall k :: a.start <= k < a.start + a.len ==> !IsSpace(c[k]))
    ensures if a.len == 0 then p < a.start < |c| && c[a.start] == QUOTE else c[a.start] != QUOTE
  {
    hide LineArgs;
    var q := Scan(c, p, NotBlank);
    SkipBlanks(c, p, q);
    if q == |c| || c[q] == NEWLINE {
      LineEndsHere(c, q);
    }
    if c[q] == QUOTE {
      e := Scan(c, q + 1, IsQuote);
      if e == |c| {
        UnclosedQuote(c, q);
      }
      QuotedStep(c, q, e);
      a := Arg(q + 1, e - q - 1);
      e := e + 1;
    } else {
      e := Scan(c, q, IsSpace);
      WordStep(c, q, e);
      a := Arg(q, e - q);
    }
  }

  /** The arguments of a line are in bounds, in order and apart. */
  lemma {:induction false} LineArgsOrdered(c: Text, p: nat)
    requires p <= |c| && LineArgs(c, p).Some?
    ensures Ordered(LineArgs(c, p).value, p, |c|)
    decreases |c| - p
  {
    hide LineArgs;
    if LineArgs(c, p).value != [] {
      var a, e := FirstArg(c, p);
      LineArgsOrdered(c, e);
    }
  }

  lemma VisibleLineHasArgs(c: Text, p: nat)
    requires p < |c| && !IsSpace(c[p]) && LineArgs(c, p).Some?
    ensures LineArgs(c, p).value != []
  {
    ScanIs(c, p, NotBlank, p);
  }

  function LineCount(c: Text, p: nat): nat
    requires p <= |c|
    decreases |c| - p
  {
    if p == |c| then 0 else (if IsBlankLine(c, p) then 0 else 1) + LineCount(c, NextLine(c, p))
  }

  /** There is one directive for each line that is not blank, each with an argument, all in bounds. */
  lemma {:induction false} DirectivesShape(c: Text, p: nat)
    requires p <= |c| && Directives(c, p).Some?
    ensures |Directives(c, p).value| == LineCount(c, p)
    ensures forall d :: d in Directives(c, p).value ==> d != [] && InBounds(c, d)
    decreases |c| - p
  {
    if p < |c| {
      DirectivesShape(c, NextLine(c, p));
      if !IsBlankLine(c, p) {
        LineArgsOrdered(c, LineStart(c, p));
        VisibleLineHasArgs(c, LineStart(c, p));
      }
    }
  }

  /** A character between two letters separates two arguments exactly if it is a tab, vertical tab, form feed,
      carriage return or space, and ends the line exactly if it is a newline; any other belongs to one word. */
  lemma Separators(c: Text)
    requires |c| == 3 && c[0] == 97 && c[2] == 98
    ensures LineArgs(c, 0) == if c[1] in {9, 11, 12, 13, 32} then Some([Arg(0, 1), Arg(2, 1)])
                              else if c[1] == 10 then Some([Arg(0, 1)])
                              else Some([Arg(0, 3)])
  {
    hide LineArgs;
    var none: seq<Arg> := [];
    LineEndsHere(c, 3);
    if IsSpace(c[1]) {
      WordStep(c, 0, 1);
      if c[1] == NEWLINE {
        LineEndsHere(c, 1);
        assert [Arg(0, 1)] + none == [Arg(0, 1)];
      } else {
        SkipBlank(c, 1);
        WordStep(c, 2, 3);
        assert [Arg(2, 1)] + none == [Arg(2, 1)];
        assert [Arg(0, 1)] + [Arg(2, 1)] == [Arg(0, 1), Arg(2, 1)];
      }
    } else {
      WordStep(c, 0, 3);
      assert [Arg(0, 3)] + none == [Arg(0, 3)];
    }
  }

  // ----- across lines -----

  /** Directives can overlap: the text   a "b<newline>c"   gives two, and the argument of the second lies inside
      the quoted argument of the first. */
  lemma QuotesOverLinesOverlap(c: Text)
    requires c == [97, SPACE, QUOTE, 98, NEWLINE, 99, QUOTE]
    ensures Directives(c, 0) == Some([[Arg(0, 1), Arg(3, 3)], [Arg(5, 2)]])
  {
    hide LineArgs, Scan;
    ArgsOverLines(c);
    ScanIs(c, 0, IsNewline, 4);
    ScanIs(c, 0, NotSpace, 0);
    ScanIs(c, 5, IsNewline, 7);
    ScanIs(c, 5, NotSpace, 5);
    var rest: seq<seq<Arg>> := [];
    assert Directives(c, 7) == Some([]);
    assert [[Arg(5, 2)]] + rest == [[Arg(5, 2)]];
    assert [[Arg(0, 1), Arg(3, 3)]] + [[Arg(5, 2)]] == [[Arg(0, 1), Arg(3, 3)], [Arg(5, 2)]];
  }

  lemma ArgsOverLines(c: Text)
    requires c == [97, SPACE, QUOTE, 98, NEWLINE, 99, QUOTE]
    ensures LineArgs(c, 0) == Some([Arg(0, 1), Arg(3, 3)]) && LineArgs(c, 5) == Some([Arg(5, 2)])
  {
    hide LineArgs;
    LineEndsHere(c, 7);
    QuotedStep(c, 2, 6);
    SkipBlank(c, 1);
    WordStep(c, 0, 1);
    WordStep(c, 5, 7);
    var none: seq<Arg> := [];
    assert [Arg(3, 3)] + none == [Arg(3, 3)] && [Arg(5, 2)] + none == [Arg(5, 2)];
    assert [Arg(0, 1)] + [Arg(3, 3)] == [Arg(0, 1), Arg(3, 3)];
  }
}
