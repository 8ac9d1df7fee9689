/** Writing directives as a configuration text, and reading them back. */
module InitPrinter {
  import opened InitText
  import opened InitGrammar
  import opened Options

  /** An argument must be quoted if it is empty, starts with a quote or contains white space. */
  predicate NeedsQuotes(t: Text) {
    t == [] || t[0] == QUOTE || exists k :: 0 <= k < |t| && IsSpace(t[k])
  }

  /** No newline anywhere, and no quote inside quotes. */
  predicate Printable(t: Text) {
    && (forall k :: 0 <= k < |t| ==> t[k] != NEWLINE)
    && (NeedsQuotes(t) ==> forall k :: 0 <= k < |t| ==> t[k] != QUOTE)
  }

  function PrintArg(t: Text): (s: Text)
    ensures |s| >= 1
  {
    if NeedsQuotes(t) then [QUOTE] + t + [QUOTE] else t
  }

  /** The arguments of a directive separated by spaces, and a newline. */
  function PrintLine(args: seq<Text>): (s: Text)
    requires args != []
    ensures |s| >= 2
  {
    if |args| == 1 then PrintArg(args[0]) + [NEWLINE] else PrintArg(args[0]) + [SPACE] + PrintLine(args[1..])
  }

  predicate NoneEmpty(ds: seq<seq<Text>>) {
    forall i :: 0 <= i < |ds| ==> ds[i] != []
  }

  function Print(ds: seq<seq<Text>>): Text
    requires NoneEmpty(ds)
  {
    if ds == [] then [] else PrintLine(ds[0]) + Print(ds[1..])
  }

  ghost predicate AllPrintable(args: seq<Text>) {
    forall i :: 0 <= i < |args| ==> Printable(args[i])
  }

  ghost predicate PrintableConfig(ds: seq<seq<Text>>) {
    NoneEmpty(ds) && forall i :: 0 <= i < |ds| ==> AllPrintable(ds[i])
  }

  /** The text s stands at position p of c. */
  ghost predicate StandsAt(c: Text, p: nat, s: Text) {
    p + |s| <= |c| && c[p..p + |s|] == s
  }

  lemma StandsInParts(c: Text, p: nat, s: Text, t: Text)
    requires StandsAt(c, p, s + t)
    ensures StandsAt(c, p, s) && StandsAt(c, p + |s|, t)
  {
    var all := c[p..p + |s + t|];
    assert s == all[..|s|] == c[p..p + |s|];
    assert t == all[|s|..] == c[p + |s|..p + |s| + |t|];
  }

  lemma StandsCharacter(c: Text, p: nat, s: Text, k: nat)
    requires StandsAt(c, p, s) && k < |s|
    ensures c[p + k] == s[k]
  {
    assert c[p + k] == c[p..p + |s|][k];
  }

  function TextsOf(c: Text, args: seq<Arg>): (texts: seq<Text>)
    requires InBounds(c, args)
    ensures |texts| == |args|
  {
    seq(|args|, i requires 0 <= i < |args| => TextOf(c, args[i]))
  }

  /** The arguments read are the ones given. */
  ghost predicate Reads(c: Text, result: Option<seq<Arg>>, args: seq<Text>) {
    result.Some? && InBounds(c, result.value) && TextsOf(c, result.value) == args
  }

  lemma ReadsPrepend(c: Text, a: Arg, t: Text, rest: Option<seq<Arg>>, args: seq<Text>)
    requires a.start + a.len <= |c| && TextOf(c, a) == t && Reads(c, rest, args)
    ensures Reads(c, Prepend(a, rest), [t] + args)
  {
  }

  /** A printed argument followed by a space or a newline is read as that argument, and reading goes on after it. */
  lemma ReadPrintedArg(c: Text, p: nat, t: Text) returns (a: Arg)
    requires Printable(t)
    requires StandsAt(c, p, PrintArg(t)) && p + |PrintArg(t)| < |c| && IsSpace(c[p + |PrintArg(t)|])
    ensures a.start + a.len <= |c| && TextOf(c, a) == t
    ensures LineArgs(c, p) == Prepend(a, LineArgs(c, p + |PrintArg(t)|))
    ensures !IsSpace(c[p])
  {
    hide LineArgs;
    var s := PrintArg(t);
    var e := p + |s|;
    forall k | p <= k < e
      ensures c[k] == s[k - p]
    {
      StandsCharacter(c, p, s, k - p);
    }
    if NeedsQuotes(t) {
      a := Arg(p + 1, |t|);
      StandsInParts(c, p, [QUOTE] + t, [QUOTE]);
      StandsInParts(c, p, [QUOTE], t);
      forall k | p < k < e - 1
        ensures c[k] == t[k - p - 1]
      {
        StandsCharacter(c, p + 1, t, k - p - 1);
      }
      QuotedStep(c, p, e - 1);
    } else {
      a := Arg(p, |t|);
      WordStep(c, p, e);
    }
  }

  lemma {:induction false} ReadPrintedLine(c: Text, p: nat, args: seq<Text>)
    requires args != [] && AllPrintable(args) && StandsAt(c, p, PrintLine(args))
    ensures Reads(c, LineArgs(c, p), args)
    ensures !IsSpace(c[p])
    decreases |args|
  {
    hide LineArgs, PrintArg, Reads;
    var first := PrintArg(args[0]);
    var e := p + |first|;
    if |args| == 1 {
      StandsInParts(c, p, first, [NEWLINE]);
      StandsCharacter(c, e, [NEWLINE], 0);
      var a := ReadPrintedArg(c, p, args[0]);
      LineEndsHere(c, e);
      ReadsNothing(c);
      ReadsPrepend(c, a, args[0], Some([]), []);
      assert [args[0]] + [] == args;
    } else {
      var rest := PrintLine(args[1..]);
      assert PrintLine(args) == first + ([SPACE] + rest);
      StandsInParts(c, p, first, [SPACE] + rest);
      StandsInParts(c, e, [SPACE], rest);
      StandsCharacter(c, e, [SPACE], 0);
      var a := ReadPrintedArg(c, p, args[0]);
      SkipBlank(c, e);
      ReadPrintedLine(c, e + 1, args[1..]);
      ReadsPrepend(c, a, args[0], LineArgs(c, e), args[1..]);
      assert [args[0]] + args[1..] == args;
    }
  }

  lemma ReadsNothing(c: Text)
    ensures Reads(c, Some([]), [])
  {
    assert TextsOf(c, []) == [];
  }

  lemma PrintedArgHasNoNewline(t: Text)
    requires Printable(t)
    ensures forall k :: 0 <= k < |PrintArg(t)| ==> PrintArg(t)[k] != NEWLINE
  {
  }

  /** A printed line has its newline at the end and nowhere else. */
  lemma {:induction false} PrintedLineIsOneLine(args: seq<Text>)
    requires args != [] && AllPrintable(args)
    ensures var s := PrintLine(args);
            s[|s| - 1] == NEWLINE && forall k :: 0 <= k < |s| - 1 ==> s[k] != NEWLINE
    decreases |args|
  {
    PrintedArgHasNoNewline(args[0]);
    if |args| > 1 {
      PrintedLineIsOneLine(args[1..]);
    }
  }

  /** The directives read are the ones given. */
  ghost predicate ReadsAll(c: Text, result: Option<seq<seq<Arg>>>, ds: seq<seq<Text>>) {
    result.Some? && |result.value| == |ds| && forall i :: 0 <= i < |ds| ==> Reads(c, Some(result.value[i]), ds[i])
  }

  /** Reading the line that was printed at p and then the lines after it. */
  lemma ReadOneLine(c: Text, p: nat, args: seq<Text>)
    requires args != [] && AllPrintable(args) && StandsAt(c, p, PrintLine(args))
    ensures Reads(c, LineArgs(c, p), args)
    ensures Directives(c, p) == Prepend(LineArgs(c, p).value, Directives(c, p + |PrintLine(args)|))
  {
    hide LineArgs, Reads, PrintLine;
    var s := PrintLine(args);
    var e := p + |s|;
    PrintedLineIsOneLine(args);
    forall k | p <= k < e
      ensures c[k] == s[k - p]
    {
      StandsCharacter(c, p, s, k - p);
    }
    ReadPrintedLine(c, p, args);
    ReadsSomething(c, LineArgs(c, p), args);
    ScanIs(c, p, IsNewline, e - 1);
    ScanIs(c, p, NotSpace, p);
  }

  lemma ReadsSomething(c: Text, result: Option<seq<Arg>>, args: seq<Text>)
    requires Reads(c, result, args)
    ensures result.Some? && result == Some(result.value)
  {
  }

  lemma {:induction false} ReadPrinted(c: Text, p: nat, ds: seq<seq<Text>>)
    requires PrintableConfig(ds) && p <= |c| && c[p..] == Print(ds)
    ensures ReadsAll(c, Directives(c, p), ds)
    decreases |ds|
  {
    hide LineArgs, PrintLine, Directives, ReadsAll, Reads;
    if ds == [] {
      assert |c[p..]| == 0;
      ReadsAllNothing(c);
    } else {
      var s := PrintLine(ds[0]);
      assert c[p..p + |s|] == c[p..][..|s|] == s;
      assert c[p + |s|..] == c[p..][|s|..] == Print(ds[1..]);
      ReadOneLine(c, p, ds[0]);
      ReadPrinted(c, p + |s|, ds[1..]);
      ReadsSomething(c, LineArgs(c, p), ds[0]);
      ReadsAllPrepend(c, LineArgs(c, p).value, Directives(c, p + |s|), ds);
    }
  }

  lemma ReadsAllNothing(c: Text)
    ensures ReadsAll(c, Directives(c, |c|), [])
  {
  }

  lemma ReadsAllPrepend(c: Text, args: seq<Arg>, rest: Option<seq<seq<Arg>>>, ds: seq<seq<Text>>)
    requires ds != [] && Reads(c, Some(args), ds[0]) && ReadsAll(c, rest, ds[1..])
    ensures ReadsAll(c, Prepend(args, rest), ds)
  {
    hide Reads;
    var all := [args] + rest.value;
    forall i | 0 <= i < |ds|
      ensures Reads(c, Some(all[i]), ds[i])
    {
      if i > 0 {
        assert ds[i] == ds[1..][i - 1];
      }
    }
  }

  /** Parsing the printed text of any printable directives gives back those directives. */
  lemma PrintThenParse(ds: seq<seq<Text>>)
    requires PrintableConfig(ds)
    ensures ReadsAll(Print(ds), Directives(Print(ds), 0), ds)
  {
    assert Print(ds)[0..] == Print(ds);
    ReadPrinted(Print(ds), 0, ds);
  }

  // ----- and the other way round -----

  /** An argument that was read can be printed exactly when it does not run over a newline. */
  lemma {:induction false} ReadArgPrintable(c: Text, p: nat, i: nat)
    requires p <= |c| && LineArgs(c, p).Some? && i < |LineArgs(c, p).value|
    ensures var a := LineArgs(c, p).value[i];
            && a.start + a.len <= |c|
            && (Printable(TextOf(c, a)) <==> forall k :: 0 <= k < a.len ==> TextOf(c, a)[k] != NEWLINE)
    decreases |c| - p
  {
    hide LineArgs;
    var a, e := FirstArg(c, p);
    if i > 0 {
      ReadArgPrintable(c, e, i - 1);
    }
  }

  function AllTexts(c: Text, ds: seq<seq<Arg>>): (texts: seq<seq<Text>>)
    requires forall d :: d in ds ==> InBounds(c, d)
    ensures |texts| == |ds| && forall i :: 0 <= i < |ds| ==> InBounds(c, ds[i]) && texts[i] == TextsOf(c, ds[i])
  {
    seq(|ds|, i requires 0 <= i < |ds| => TextsOf(c, ds[i]))
  }

  /** The arguments of the directives of a text. */
  function Parsed(c: Text): seq<seq<Text>>
    requires Directives(c, 0).Some?
  {
    DirectivesShape(c, 0);
    AllTexts(c, Directives(c, 0).value)
  }

  ghost predicate NoNewlines(ds: seq<seq<Text>>) {
    forall i, j, k :: 0 <= i < |ds| && 0 <= j < |ds[i]| && 0 <= k < |ds[i][j]| ==> ds[i][j][k] != NEWLINE
  }

  lemma ReadLinePrintable(c: Text, p: nat)
    requires p <= |c| && LineArgs(c, p).Some? && InBounds(c, LineArgs(c, p).value)
    ensures var texts := TextsOf(c, LineArgs(c, p).value);
            AllPrintable(texts) <==> forall j, k :: 0 <= j < |texts| && 0 <= k < |texts[j]| ==> texts[j][k] != NEWLINE
  {
    hide LineArgs;
    var args := LineArgs(c, p).value;
    var texts := TextsOf(c, args);
    forall j | 0 <= j < |args|
      ensures Printable(texts[j]) <==> forall k :: 0 <= k < |texts[j]| ==> texts[j][k] != NEWLINE
    {
      ReadArgPrintable(c, p, j);
    }
  }

  /** Each directive of a text is what some line of it reads as. */
  lemma {:induction false} DirectiveHasLine(c: Text, p: nat, i: nat) returns (q: nat)
    requires p <= |c| && Directives(c, p).Some? && i < |Directives(c, p).value|
    ensures q <= |c| && LineArgs(c, q) == Some(Directives(c, p).value[i])
    decreases |c| - p
  {
    hide LineArgs;
    if IsBlankLine(c, p) {
      q := DirectiveHasLine(c, NextLine(c, p), i);
    } else if i == 0 {
      q := LineStart(c, p);
    } else {
      q := DirectiveHasLine(c, NextLine(c, p), i - 1);
    }
  }

  /** The directives of any text can be printed if and only if no argument holds a newline, and parsing what was
      printed gives back the same arguments. */
  lemma ParseThenPrint(c: Text)
    requires Directives(c, 0).Some?
    ensures var texts := Parsed(c);
            && (PrintableConfig(texts) <==> NoNewlines(texts))
            && (PrintableConfig(texts) ==> ReadsAll(Print(texts), Directives(Print(texts), 0), texts))
  {
    hide LineArgs, ReadsAll, Directives, AllPrintable;
    DirectivesShape(c, 0);
    var ds, texts := Directives(c, 0).value, Parsed(c);
    forall i | 0 <= i < |ds|
      ensures texts[i] != []
      ensures AllPrintable(texts[i]) <==>
                forall j, k :: 0 <= j < |texts[i]| && 0 <= k < |texts[i][j]| ==> texts[i][j][k] != NEWLINE
    {
      assert ds[i] in ds;
      var q := DirectiveHasLine(c, 0, i);
      ReadLinePrintable(c, q);
    }
    if PrintableConfig(texts) {
      PrintThenParse(texts);
    }
  }
}
