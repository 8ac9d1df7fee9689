/** The init program's tables: an entry is found by the first letters of its name. */
module InitTable {
  import opened InitText
  import opened Options

  datatype Type = TypeInt | TypeString | TypeFunction | TypeAny

  datatype Callback = CbEnv | CbTty | CbEnable

  datatype Value = Local(n: bv32) | Str(text: Text) | Func(cb: Callback)

  datatype Entry = Entry(name: Text, typ: Type, value: Value)

  type Table = seq<Entry>

  /** The character at k of a NUL-terminated string, the NUL included. */
  function CharAt(s: Text, k: nat): int {
    if k < |s| then s[k] else 0
  }

  /** strncmp: compares up to n characters, stopping behind a NUL they share. */
  function Strncmp(a: Text, b: Text, k: nat, n: nat): int
    requires k <= n
    decreases n - k
  {
    if k == n then 0
    else if CharAt(a, k) != CharAt(b, k) then CharAt(a, k) - CharAt(b, k)
    else if CharAt(a, k) == 0 then 0
    else Strncmp(a, b, k + 1, n)
  }

  /** On the first n characters of a name without NUL, equality with an entry's name means being its prefix. */
  lemma {:induction false} StrncmpIsPrefix(a: Text, b: Text, k: nat)
    requires k <= |a| && k <= |b| && a[..k] == b[..k]
    ensures Strncmp(a, b, k, |a|) == 0 <==> a <= b
    decreases |a| - k
  {
    if k < |a| {
      if k < |b| && a[k] == b[k] {
        assert a[..k + 1] == a[..k] + [a[k]] && b[..k + 1] == b[..k] + [b[k]];
        StrncmpIsPrefix(a, b, k + 1);
      }
    }
  }

  predicate Matches(e: Entry, name: Text, typ: Type) {
    name <= e.name && (typ == e.typ || typ == TypeAny)
  }

  /** The first entry of the wanted type whose name starts with the given text. */
  function Lookup(table: Table, name: Text, typ: Type): (r: Option<Entry>)
    ensures r.Some? ==> r.value in table && Matches(r.value, name, typ)
    ensures r == None ==> forall e :: e in table ==> !Matches(e, name, typ)
  {
    if table == [] then None
    else if Matches(table[0], name, typ) then Some(table[0])
    else Lookup(table[1..], name, typ)
  }

  lemma LookupInThree(table: Table, name: Text, typ: Type)
    requires |table| == 3
    ensures Lookup(table, name, typ) == if Matches(table[0], name, typ) then Some(table[0])
                                        else if Matches(table[1], name, typ) then Some(table[1])
                                        else if Matches(table[2], name, typ) then Some(table[2])
                                        else None
  {
    assert table[1..][0] == table[1] && table[1..][1..][0] == table[2] && table[1..][1..][1..] == [];
  }

  method TableLookup(table: Table, name: Text, typ: Type) returns (out: Option<Entry>)
    ensures out == None <==> forall e :: e in table ==> !Matches(e, name, typ)
    ensures out.Some? ==> exists i :: 0 <= i < |table| && out.value == table[i] && Matches(table[i], name, typ) &&
                                      forall k :: 0 <= k < i ==> !Matches(table[k], name, typ)
    ensures out == Lookup(table, name, typ)
  {
    for i := 0 to |table|
      invariant forall k :: 0 <= k < i ==> !Matches(table[k], name, typ)
      invariant Lookup(table, name, typ) == Lookup(table[i..], name, typ)
    {
      var entry := table[i];
      StrncmpIsPrefix(name, entry.name, 0);
      if Strncmp(name, entry.name, 0, |name|) == 0 {
        if typ == entry.typ || TypeAny == typ {
          return Some(entry);
        }
      }
    }
    return None;
  }
}

/** The init program's directives: what each does to the environment, the options and the children. */
module InitInterp {
  import opened InitText
  import opened InitGrammar
  import opened Options
  import opened InitTable

  const DOLLAR: Byte := 36
  const EQUALS: Byte := 61

  const OPT_CLEAR: bv32 := 1
  const TTY_TEXT: bv32 := 1
  const TTY_GFX: bv32 := 2

  const VALUES: Table := [
    Entry([84, 84, 89, 95, 84, 69, 88, 84, 95, 77, 79, 68, 69], TypeInt, Local(TTY_TEXT)),   // TTY_TEXT_MODE
    Entry([84, 84, 89, 95, 71, 70, 88, 95, 77, 79, 68, 69], TypeInt, Local(TTY_GFX)),        // TTY_GFX_MODE
    Entry([79, 80, 84, 95, 67, 76, 69, 65, 82], TypeInt, Local(OPT_CLEAR))                   // OPT_CLEAR
  ]

  const DIRECTIVES: Table := [
    Entry([101, 110, 118], TypeFunction, Func(CbEnv)),                  // env
    Entry([116, 116, 121], TypeFunction, Func(CbTty)),                  // tty
    Entry([101, 110, 97, 98, 108, 101], TypeFunction, Func(CbEnable))   // enable
  ]

  // ----- values -----

  datatype Result = Int(n: bv32) | String(text: Text) | NoTable | NotRecognized | WrongType

  /** The value of a text: a table entry if it starts with a dollar sign, else the text itself. A string found
      in a table is evaluated without a table, so the recursion stops there. */
  function Eval(table: Option<Table>, value: Text, typ: Type): Result
    decreases if table.Some? then 2 else 0
  {
    if value != [] && value[0] == DOLLAR then
      match table
      case None => NoTable
      case Some(t) =>
        match Lookup(t, value[1..], typ)
        case None => NotRecognized
        case Some(e) => EvalEntry(e)
    else if typ == TypeString then String(value)
    else NotRecognized
  }

  function EvalEntry(e: Entry): Result
    decreases 1
  {
    match e.typ
    case TypeString => if e.value.Str? then Eval(None, e.value.text, TypeString) else WrongType
    case TypeInt => if e.value.Local? then Int(e.value.n) else WrongType
    case _ => WrongType
  }

  /** A string found in a table stands for itself, but is not looked up in turn. */
  lemma StringEntry(name: Text, t: Text)
    ensures EvalEntry(Entry(name, TypeString, Str(t))) == if t != [] && t[0] == DOLLAR then NoTable else String(t)
  {
  }

  /** An empty argument is never taken for a variable: the character its text pointer shows is the closing quote. */
  lemma {:induction false} EmptyArgIsQuote(c: Text, p: nat, i: nat)
    requires p <= |c| && LineArgs(c, p).Some? && i < |LineArgs(c, p).value| && LineArgs(c, p).value[i].len == 0
    ensures LineArgs(c, p).value[i].start < |c| && c[LineArgs(c, p).value[i].start] == QUOTE
    decreases |c| - p
  {
    hide LineArgs;
    var a, e := FirstArg(c, p);
    if i > 0 {
      EmptyArgIsQuote(c, e, i - 1);
    }
  }

  /** With the program's own table: strings stand for themselves and never for a variable, numbers are
      always variables. */
  lemma EvalWithValues(value: Text)
    ensures Eval(Some(VALUES), value, TypeString) ==
              if value != [] && value[0] == DOLLAR then NotRecognized else String(value)
    ensures Eval(Some(VALUES), value, TypeInt) ==
              if value == [] || value[0] != DOLLAR then NotRecognized
              else if value[1..] <= VALUES[0].name then Int(TTY_TEXT)
              else if value[1..] <= VALUES[1].name then Int(TTY_GFX)
              else if value[1..] <= VALUES[2].name then Int(OPT_CLEAR)
              else NotRecognized
  {
    if value != [] {
      LookupInThree(VALUES, value[1..], TypeInt);
      LookupInThree(VALUES, value[1..], TypeString);
    }
  }

  // ----- directives -----

  type Words = seq<Text>
  type Env = map<Text, Text>

  /** What a child starts with: its terminal and command line, and the environment and options at its fork. */
  datatype Child = Child(tty: Text, mode: bv32, argv: Words, env: Env, options: bv32)

  datatype World = World(env: Env, options: bv32, children: seq<Child>)

  function EvalString(t: Text): Option<Text> {
    match Eval(Some(VALUES), t, TypeString)
    case String(text) => Some(text)
    case _ => None
  }

  function EvalNumber(t: Text): Option<bv32> {
    match Eval(Some(VALUES), t, TypeInt)
    case Int(n) => Some(n)
    case _ => None
  }

  function EvalStrings(ts: Words): Option<Words> {
    if ts == [] then Some([])
    else match (EvalStrings(ts[..|ts| - 1]), EvalString(ts[|ts| - 1]))
         case (Some(rest), Some(t)) => Some(rest + [t])
         case _ => None
  }

  /** A name that setenv accepts. */
  predicate Settable(name: Text) {
    name != [] && EQUALS !in name
  }

  /** setenv with overwriting, which refuses an empty name and one with an equals sign; its result is ignored. */
  function SetEnv(env: Env, name: Text, value: Text): Env {
    if Settable(name) then env[name := value] else env
  }

  function Or(a: bv32, b: bv32): bv32 { a | b }

  function CallbackOf(d: Words): Option<Callback> {
    if d == [] then None
    else match Lookup(DIRECTIVES, d[0], TypeFunction)
         case None => None
         case Some(e) => if e.value.Func? then Some(e.value.cb) else None
  }

  lemma EnableFromThree(t: Text)
    requires t <= DIRECTIVES[2].name
    ensures DIRECTIVES[2].name[..3] <= t <==> !(t <= DIRECTIVES[0].name) && !(t <= DIRECTIVES[1].name)
  {
    assert |t| > 0 ==> t[0] == 101;
    assert |t| > 2 ==> t[2] == 97;
  }

  /** A directive is known by the first letters of its name: the empty word and the beginnings of env set a variable,
      those of tty start a child, and it takes three letters and more to reach enable. */
  lemma DirectivesByPrefix(d: Words)
    ensures CallbackOf(d) == if d == [] then None
                             else if d[0] <= DIRECTIVES[0].name then Some(CbEnv)
                             else if d[0] <= DIRECTIVES[1].name then Some(CbTty)
                             else if d[0] <= DIRECTIVES[2].name then Some(CbEnable)
                             else None
    ensures CallbackOf(d) == Some(CbEnable) <==>
              d != [] && DIRECTIVES[2].name[..3] <= d[0] && d[0] <= DIRECTIVES[2].name
  {
    if d != [] {
      LookupInThree(DIRECTIVES, d[0], TypeFunction);
      if d[0] <= DIRECTIVES[2].name {
        EnableFromThree(d[0]);
      }
    }
  }

  function StepEnv(w: World, d: Words): Option<World> {
    if |d| != 3 then None
    else match (EvalString(d[1]), EvalString(d[2]))
         case (Some(name), Some(value)) => Some(w.(env := SetEnv(w.env, name, value)))
         case _ => None
  }

  function StepTty(w: World, d: Words): Option<World> {
    if |d| < 4 then None
    else match (EvalString(d[1]), EvalNumber(d[2]), EvalStrings(d[3..]))
         case (Some(tty), Some(mode), Some(argv)) =>
           Some(w.(children := w.children + [Child(tty, mode, argv, w.env, w.options)]))
         case _ => None
  }

  function StepEnable(w: World, d: Words): Option<World> {
    if |d| != 2 then None
    else match EvalNumber(d[1])
         case Some(n) => Some(w.(options := Or(w.options, n)))
         case None => None
  }

  /** One directive, provided that the fork it may ask for succeeds. */
  function Step(w: World, d: Words): Option<World> {
    match CallbackOf(d)
    case None => None
    case Some(CbEnv) => StepEnv(w, d)
    case Some(CbTty) => StepTty(w, d)
    case Some(CbEnable) => StepEnable(w, d)
  }

  function Run(w: World, ds: seq<Words>): Option<World> {
    if ds == [] then Some(w)
    else match Run(w, ds[..|ds| - 1])
         case None => None
         case Some(v) => Step(v, ds[|ds| - 1])
  }

  // ----- the code -----

  const MAX_CHILDREN: nat := 20

  /** There is room for all children that are started before a directive fails. */
  ghost predicate ChildrenFit(w: World, ds: seq<Words>) {
    forall i :: 0 <= i <= |ds| && Run(w, ds[..i]).Some? ==> |Run(w, ds[..i]).value.children| <= MAX_CHILDREN
  }

  class Init {
    var options: bv32
    var env: Env
    var children: seq<Child>
    var pids: seq<int>
    var lastPid: int
    var signalled: seq<int>
    var forkFailed: bool

    ghost predicate Valid()
      reads this
    {
      && |pids| == |children| <= MAX_CHILDREN && lastPid >= 0
      && (forall i :: 0 <= i < |pids| ==> 0 < pids[i] <= lastPid)
      && (forall i, j :: 0 <= i < j < |pids| ==> pids[i] != pids[j])
    }

    ghost function View(): World
      reads this
    {
      World(env, options, children)
    }

    constructor (env: Env)
      ensures Valid() && View() == World(env, 0, []) && signalled == [] && !forkFailed
    {
      this.env, options, children, pids, lastPid, signalled, forkFailed := env, 0, [], [], 0, [], false;
    }

    /** fork: fails, or returns a process number not handed out before. */
    method Fork() returns (pid: int)
      requires Valid()
      modifies this`lastPid, this`forkFailed
      ensures Valid()
      ensures pid < 0 ==> forkFailed
      ensures pid >= 0 ==> forkFailed == old(forkFailed) && old(lastPid) < pid <= lastPid
    {
      var fails: bool := *;
      if fails {
        forkFailed := true;
        return -1;
      }
      lastPid := lastPid + 1;
      pid := lastPid;
    }

    method CbEnv(d: Words) returns (ok: bool)
      requires Valid()
      modifies this`env
      ensures Valid()
      ensures ok <==> StepEnv(old(View()), d).Some?
      ensures View() == if ok then StepEnv(old(View()), d).value else old(View())
      ensures ok ==> |d| == 3 && env == if d[1] != [] && 61 !in d[1] then old(env)[d[1] := d[2]] else old(env)
    {
      if 3 != |d| {
        return false;
      }
      var envName := Eval(Some(VALUES), d[1], TypeString);
      if !envName.String? {
        return false;
      }
      var envValue := Eval(Some(VALUES), d[2], TypeString);
      if !envValue.String? {
        return false;
      }
      StringsAreThemselves(d[1]);
      StringsAreThemselves(d[2]);
      env := SetEnv(env, envName.text, envValue.text);
      return true;
    }

    method EvalArgv(ts: Words) returns (argv: Option<Words>)
      ensures argv == EvalStrings(ts)
    {
      var done: Words := [];
      for i := 0 to |ts|
        invariant EvalStrings(ts[..i]) == Some(done)
      {
        assert ts[..i + 1][..i] == ts[..i];
        var r := Eval(Some(VALUES), ts[i], TypeString);
        if !r.String? {
          NoneFromPart(ts, i + 1);
          return None;
        }
        done := done + [r.text];
      }
      assert ts[..|ts|] == ts;
      return Some(done);
    }

    method CbTty(d: Words) returns (ok: bool)
      requires Valid() && (StepTty(View(), d).Some? ==> |children| < MAX_CHILDREN)
      modifies this`children, this`pids, this`lastPid, this`forkFailed
      ensures Valid()
      ensures ok ==> StepTty(old(View()), d) == Some(View()) && forkFailed == old(forkFailed)
      ensures !ok ==> View() == old(View()) && (forkFailed || StepTty(old(View()), d) == None)
    {
      if |d| < 4 {
        return false;
      }
      var ttyPath := Eval(Some(VALUES), d[1], TypeString);
      if !ttyPath.String? {
        return false;
      }
      var ttyMode := Eval(Some(VALUES), d[2], TypeInt);
      if !ttyMode.Int? {
        return false;
      }
      var argv := EvalArgv(d[3..]);
      if argv == None {
        return false;
      }
      var pid := Fork();
      if pid < 0 {
        return false;
      }
      children := children + [Child(ttyPath.text, ttyMode.n, argv.value, env, options)];
      pids := pids + [pid];
      return true;
    }

    method CbEnable(d: Words) returns (ok: bool)
      requires Valid()
      modifies this`options
      ensures Valid()
      ensures ok <==> StepEnable(old(View()), d).Some?
      ensures View() == if ok then StepEnable(old(View()), d).value else old(View())
    {
      if 2 != |d| {
        return false;
      }
      var option := Eval(Some(VALUES), d[1], TypeInt);
      if !option.Int? {
        return false;
      }
      options := Or(options, option.n);
      return true;
    }

    method InterpretDirective(d: Words) returns (ok: bool)
      requires Valid() && (Step(View(), d).Some? ==> |Step(View(), d).value.children| <= MAX_CHILDREN)
      modifies this`options, this`env, this`children, this`pids, this`lastPid, this`forkFailed
      ensures Valid()
      ensures ok ==> Step(old(View()), d) == Some(View()) && forkFailed == old(forkFailed)
      ensures !ok ==> View() == old(View()) && (forkFailed || Step(old(View()), d) == None)
    {
      if 0 == |d| {
        return false;
      }
      var entry := TableLookup(DIRECTIVES, d[0], TypeFunction);
      if entry == None {
        return false;
      }
      match entry.value.value {
        case Func(CbEnv) => ok := CbEnv(d);
        case Func(CbTty) => ok := CbTty(d);
        case Func(CbEnable) => ok := CbEnable(d);
        case _ => ok := false;
      }
    }

    /** Runs the directives in order; if all succeed, lets every child start, each by one signal. */
    method InterpretConfig(ds: seq<Words>) returns (ok: bool)
      requires Valid() && children == [] && signalled == [] && !forkFailed && ChildrenFit(View(), ds)
      modifies this
      ensures Valid()
      ensures ok ==> Run(old(View()), ds) == Some(View()) && signalled == pids
      ensures !ok ==> signalled == [] && (forkFailed || Run(old(View()), ds) == None)
      ensures !ok ==> exists i :: 0 <= i < |ds| && Run(old(View()), ds[..i]) == Some(View())
    {
      hide Run, Step;
      NothingRun(View(), ds);
      for i := 0 to |ds|
        invariant Valid() && signalled == [] && !forkFailed
        invariant Run(old(View()), ds[..i]) == Some(View())
      {
        RunOneMore(old(View()), ds, i);
        var done := InterpretDirective(ds[i]);
        if !done {
          if !forkFailed {
            RunStops(old(View()), ds, i + 1);
          }
          return false;
        }
      }
      assert ds[..|ds|] == ds;
      ghost var after, all := View(), pids;
      for i := 0 to |pids|
        invariant Valid() && View() == after && pids == all
        invariant signalled == all[..i]
      {
        signalled := signalled + [pids[i]];
      }
      return true;
    }
  }

  lemma NothingRun(w: World, ds: seq<Words>)
    ensures Run(w, ds[..0]) == Some(w)
  {
  }

  lemma RunOneMore(w: World, ds: seq<Words>, i: nat)
    requires i < |ds|
    ensures Run(w, ds[..i + 1]) == match Run(w, ds[..i]) case None => None case Some(v) => Step(v, ds[i])
  {
    assert ds[..i + 1][..i] == ds[..i];
  }

  lemma {:induction false} NoneFromPart(ts: Words, i: nat)
    requires i <= |ts| && EvalStrings(ts[..i]) == None
    ensures EvalStrings(ts) == None
    decreases |ts| - i
  {
    if i == |ts| {
      assert ts[..i] == ts;
    } else {
      assert ts[..i + 1][..i] == ts[..i];
      NoneFromPart(ts, i + 1);
    }
  }

  lemma {:induction false} RunStops(w: World, ds: seq<Words>, i: nat)
    requires i <= |ds| && Run(w, ds[..i]) == None
    ensures Run(w, ds) == None
    decreases |ds| - i
  {
    if i == |ds| {
      assert ds[..i] == ds;
    } else {
      assert ds[..i + 1][..i] == ds[..i];
      RunStops(w, ds, i + 1);
    }
  }

  // ----- what the children get -----

  /** The environment after a list of directives: only those named env count. */
  function EnvAfter(env: Env, ds: seq<Words>): Env {
    if ds == [] then env
    else
      var d := ds[|ds| - 1];
      var before := EnvAfter(env, ds[..|ds| - 1]);
      if CallbackOf(d) == Some(CbEnv) && |d| == 3 then SetEnv(before, d[1], d[2]) else before
  }

  /** The options after a list of directives: those of the enable directives together. */
  function OptionsAfter(ds: seq<Words>): bv32 {
    if ds == [] then 0
    else
      var d := ds[|ds| - 1];
      var before := OptionsAfter(ds[..|ds| - 1]);
      if CallbackOf(d) == Some(CbEnable) && |d| == 2 && EvalNumber(d[1]).Some? then Or(before, EvalNumber(d[1]).value)
      else before
  }

  /** The positions of the tty directives. */
  function TtyPositions(ds: seq<Words>): seq<nat> {
    if ds == [] then []
    else TtyPositions(ds[..|ds| - 1]) + (if CallbackOf(ds[|ds| - 1]) == Some(CbTty) then [|ds| - 1] else [])
  }

  /** Child k comes from the directive at position `at`: its environment is made by the env directives before
      that, its options by the enable directives before it, and its command is the directive's own. */
  ghost predicate ComesFrom(child: Child, env: Env, ds: seq<Words>, at: nat) {
    && at < |ds| && CallbackOf(ds[at]) == Some(CbTty) && |ds[at]| >= 4
    && child.env == EnvAfter(env, ds[..at])
    && child.options == OptionsAfter(ds[..at])
    && child.tty == ds[at][1]
    && Some(child.mode) == EvalNumber(ds[at][2])
    && child.argv == ds[at][3..]
  }

  ghost predicate AllComeFrom(children: seq<Child>, env: Env, ds: seq<Words>, at: seq<nat>) {
    |children| == |at| && forall k :: 0 <= k < |at| ==> ComesFrom(children[k], env, ds, at[k])
  }

  lemma StillComeFrom(children: seq<Child>, env: Env, ds: seq<Words>, at: seq<nat>)
    requires ds != [] && AllComeFrom(children, env, ds[..|ds| - 1], at)
    ensures AllComeFrom(children, env, ds, at)
  {
    hide EnvAfter, OptionsAfter, CallbackOf, EvalNumber;
    var front := ds[..|ds| - 1];
    forall k | 0 <= k < |at|
      ensures ComesFrom(children[k], env, ds, at[k])
    {
      assert ComesFrom(children[k], env, front, at[k]);
      assert front[..at[k]] == ds[..at[k]];
    }
  }

  /** Every child of a successful configuration comes from the tty directive it belongs to. */
  lemma {:induction false} ChildrenGetWhatPrecedes(env: Env, ds: seq<Words>)
    requires Run(World(env, 0, []), ds).Some?
    ensures var w := Run(World(env, 0, []), ds).value;
            && w.env == EnvAfter(env, ds) && w.options == OptionsAfter(ds)
            && AllComeFrom(w.children, env, ds, TtyPositions(ds))
  {
    hide CallbackOf, EvalNumber, EvalString, EvalStrings, AllComeFrom;
    if ds == [] {
      NoneComeFrom(env);
    } else {
      var n := |ds| - 1;
      var d, front := ds[n], ds[..n];
      var w := Run(World(env, 0, []), front).value;
      ChildrenGetWhatPrecedes(env, front);
      StillComeFrom(w.children, env, ds, TtyPositions(front));
      assert TtyPositions(front) + [] == TtyPositions(front);
      match CallbackOf(d) {
        case Some(CbEnv) =>
          StringsAreThemselves(d[1]);
          StringsAreThemselves(d[2]);
        case Some(CbTty) =>
          StringsAreThemselves(d[1]);
          ArgvIsItself(d[3..]);
          OneMoreComesFrom(w.children, Step(w, d).value.children[|w.children|], env, ds, TtyPositions(front));
        case _ =>
      }
    }
  }

  lemma NoneComeFrom(env: Env)
    ensures AllComeFrom([], env, [], [])
  {
  }

  lemma OneMoreComesFrom(children: seq<Child>, child: Child, env: Env, ds: seq<Words>, at: seq<nat>)
    requires ds != [] && AllComeFrom(children, env, ds, at) && ComesFrom(child, env, ds, |ds| - 1)
    ensures AllComeFrom(children + [child], env, ds, at + [|ds| - 1])
  {
    hide ComesFrom;
  }

  lemma StringsAreThemselves(t: Text)
    ensures EvalString(t).Some? ==> EvalString(t).value == t
  {
    EvalWithValues(t);
  }

  lemma {:induction false} ArgvIsItself(ts: Words)
    ensures EvalStrings(ts).Some? ==> EvalStrings(ts).value == ts
  {
    if ts != [] {
      var n := |ts| - 1;
      ArgvIsItself(ts[..n]);
      StringsAreThemselves(ts[n]);
      assert ts == ts[..n] + [ts[n]];
    }
  }

  // ----- the same, as a child sees it -----

  /** The positions are those of the tty directives, all of them and in their order. */
  lemma {:induction false} PositionsInOrder(ds: seq<Words>)
    ensures forall p :: p in TtyPositions(ds) <==> 0 <= p < |ds| && CallbackOf(ds[p]) == Some(CbTty)
    ensures forall j, k :: 0 <= j < k < |TtyPositions(ds)| ==> TtyPositions(ds)[j] < TtyPositions(ds)[k]
  {
    hide CallbackOf;
    if ds != [] {
      var n := |ds| - 1;
      PositionsInOrder(ds[..n]);
      assert forall j :: 0 <= j < |TtyPositions(ds[..n])| ==> TtyPositions(ds[..n])[j] in TtyPositions(ds[..n]);
    }
  }

  /** The directive sets the variable of this name. */
  predicate SetsName(d: Words, name: Text) {
    CallbackOf(d) == Some(CbEnv) && |d| == 3 && d[1] == name
  }

  /** The directive at position `at` is the last one that sets the name. */
  ghost predicate SetLast(ds: seq<Words>, name: Text, at: nat) {
    at < |ds| && SetsName(ds[at], name) && forall j :: at < j < |ds| ==> !SetsName(ds[j], name)
  }

  ghost predicate NeverSet(ds: seq<Words>, name: Text) {
    forall j :: 0 <= j < |ds| ==> !SetsName(ds[j], name)
  }

  ghost predicate SameIn(a: Env, b: Env, name: Text) {
    (name in a <==> name in b) && (name in a ==> a[name] == b[name])
  }

  lemma {:induction false} EnvLookup(env: Env, ds: seq<Words>, name: Text)
    ensures Settable(name) ==>
              forall at: nat :: SetLast(ds, name, at) ==>
                name in EnvAfter(env, ds) && EnvAfter(env, ds)[name] == ds[at][2]
    ensures NeverSet(ds, name) || !Settable(name) ==> SameIn(EnvAfter(env, ds), env, name)
  {
    hide CallbackOf;
    if ds != [] {
      var n := |ds| - 1;
      var d, front := ds[n], ds[..n];
      EnvLookup(env, front, name);
      forall at: nat | SetLast(ds, name, at) && Settable(name)
        ensures name in EnvAfter(env, ds) && EnvAfter(env, ds)[name] == ds[at][2]
      {
        if at < n {
          assert !SetsName(d, name);
          assert forall j :: at < j < n ==> front[j] == ds[j];
          assert SetLast(front, name, at);
        }
      }
      if NeverSet(ds, name) {
        assert SetsName(d, name) == false;
        assert forall j :: 0 <= j < n ==> front[j] == ds[j];
        assert NeverSet(front, name);
      }
    }
  }

  /** A variable has for a child the value of the last env directive before its tty directive that sets it; if there
      is none, or if setenv does not take such a name, it is what it was for init. */
  lemma ChildSees(env: Env, ds: seq<Words>, k: nat, name: Text)
    requires Run(World(env, 0, []), ds).Some? && k < |Run(World(env, 0, []), ds).value.children|
    ensures k < |TtyPositions(ds)| && TtyPositions(ds)[k] < |ds|
    ensures var child, before := Run(World(env, 0, []), ds).value.children[k], ds[..TtyPositions(ds)[k]];
            && (name != [] && 61 !in name ==>
                  forall at: nat :: SetLast(before, name, at) ==> name in child.env && child.env[name] == before[at][2])
            && (NeverSet(before, name) || name == [] || 61 in name ==> SameIn(child.env, env, name))
  {
    hide Run, CallbackOf, EnvAfter, SetLast, NeverSet, SameIn;
    ChildrenGetWhatPrecedes(env, ds);
    var at := TtyPositions(ds)[k];
    assert ComesFrom(Run(World(env, 0, []), ds).value.children[k], env, ds, at);
    EnvLookup(env, ds[..at], name);
  }

  function Masked(x: bv32, bits: bv32): bv32 { x & bits }

  /** The option mask has one of the bits. */
  predicate Has(options: bv32, bits: bv32) {
    Masked(options, bits) != 0
  }

  lemma MaskedOr(a: bv32, b: bv32, bits: bv32)
    ensures Masked(Or(a, b), bits) == Or(Masked(a, bits), Masked(b, bits))
  {
    assert (a | b) & bits == (a & bits) | (b & bits);
  }

  lemma NoneOr(a: bv32, b: bv32)
    ensures Or(a, b) == 0 <==> a == 0 && b == 0
  {
    NoneInEither(a, b);
  }

  lemma NoneInEither(a: bv32, b: bv32)
    ensures a | b == 0 <==> a == 0 && b == 0
  {
  }

  /** Adding options adds exactly their bits. */
  lemma OrHasBits(a: bv32, b: bv32, bits: bv32)
    ensures Has(Or(a, b), bits) <==> Has(a, bits) || Has(b, bits)
  {
    hide Or, Masked;
    MaskedOr(a, b, bits);
    NoneOr(Masked(a, bits), Masked(b, bits));
  }

  lemma NoBits(bits: bv32)
    ensures !Has(0, bits)
  {
  }

  /** The option a directive enables, if it enables one. */
  function Enabled(d: Words): Option<bv32> {
    if CallbackOf(d) == Some(CbEnable) && |d| == 2 then EvalNumber(d[1]) else None
  }

  predicate Enables(d: Words, bits: bv32) {
    Enabled(d).Some? && Has(Enabled(d).value, bits)
  }

  lemma OneMoreOption(ds: seq<Words>)
    requires ds != []
    ensures var d, front := ds[|ds| - 1], ds[..|ds| - 1];
            OptionsAfter(ds) == match Enabled(d)
                                case None => OptionsAfter(front)
                                case Some(n) => Or(OptionsAfter(front), n)
  {
    hide CallbackOf, EvalNumber, Or;
  }

  lemma {:induction false} OptionLookup(ds: seq<Words>, bits: bv32)
    ensures Has(OptionsAfter(ds), bits) <==> exists i :: 0 <= i < |ds| && Enables(ds[i], bits)
  {
    if ds == [] {
      NoBits(bits);
    } else {
      hide Enabled, Has, Or, OptionsAfter;
      var n := |ds| - 1;
      var d, front := ds[n], ds[..n];
      OptionLookup(front, bits);
      OneMoreOption(ds);
      if Enabled(d).Some? {
        OrHasBits(OptionsAfter(front), Enabled(d).value, bits);
      }
      hide Enables;
      EnabledByOneMore(ds, bits);
    }
  }

  lemma EnabledByOneMore(ds: seq<Words>, bits: bv32)
    requires ds != []
    ensures var front := ds[..|ds| - 1];
            (exists i :: 0 <= i < |ds| && Enables(ds[i], bits)) <==>
              Enables(ds[|ds| - 1], bits) || exists i :: 0 <= i < |front| && Enables(front[i], bits)
  {
    hide Enables;
    var front := ds[..|ds| - 1];
    if i :| 0 <= i < |front| && Enables(front[i], bits) {
      assert Enables(ds[i], bits);
    }
    if i :| 0 <= i < |ds| && Enables(ds[i], bits) {
      assert i == |front| || Enables(front[i], bits);
    }
  }

  /** A child has an option exactly when some enable directive before its tty directive set it. */
  lemma ChildHasOption(env: Env, ds: seq<Words>, k: nat, bits: bv32)
    requires Run(World(env, 0, []), ds).Some? && k < |Run(World(env, 0, []), ds).value.children|
    ensures k < |TtyPositions(ds)| && TtyPositions(ds)[k] < |ds|
    ensures Has(Run(World(env, 0, []), ds).value.children[k].options, bits) <==>
              exists i :: 0 <= i < TtyPositions(ds)[k] && Enables(ds[i], bits)
  {
    hide Run, CallbackOf, OptionsAfter, Enables, Has;
    ChildrenGetWhatPrecedes(env, ds);
    var at := TtyPositions(ds)[k];
    assert ComesFrom(Run(World(env, 0, []), ds).value.children[k], env, ds, at);
    OptionLookup(ds[..at], bits);
    if i :| 0 <= i < at && Enables(ds[i], bits) {
      assert Enables(ds[..at][i], bits);
    }
  }

  // ----- the tables, by name -----

  function CodeOf(ch: char): Byte {
    if 0 < ch as int < 128 then ch as int else 127
  }

  /** The text of a string of ASCII characters. */
  function BytesOf(s: string): Text {
    seq(|s|, i requires 0 <= i < |s| => CodeOf(s[i]))
  }

  lemma DirectiveNames()
    ensures BytesOf("env") == DIRECTIVES[0].name && BytesOf("tty") == DIRECTIVES[1].name
    ensures BytesOf("enable") == DIRECTIVES[2].name
  {
  }

  lemma ValueNames()
    ensures BytesOf("$TTY_TEXT_MODE") == [DOLLAR] + VALUES[0].name
    ensures BytesOf("$TTY_GFX_MODE") == [DOLLAR] + VALUES[1].name
    ensures BytesOf("$OPT_CLEAR") == [DOLLAR] + VALUES[2].name
  {
  }

  lemma NumberByName(i: nat)
    requires i < 3
    ensures EvalNumber([DOLLAR] + VALUES[i].name) == Some(if i == 1 then 2 else 1)
  {
    EvalWithValues([DOLLAR] + VALUES[i].name);
    assert ([DOLLAR] + VALUES[i].name)[1..] == VALUES[i].name;
    assert VALUES[1].name[4] != VALUES[0].name[4];
    assert VALUES[2].name[0] != VALUES[0].name[0] && VALUES[2].name[0] != VALUES[1].name[0];
  }

  /** The three directives under their names. */
  lemma DirectivesByName(rest: Words)
    ensures CallbackOf([BytesOf("env")] + rest) == Some(CbEnv)
    ensures CallbackOf([BytesOf("tty")] + rest) == Some(CbTty)
    ensures CallbackOf([BytesOf("enable")] + rest) == Some(CbEnable)
  {
    hide CallbackOf, BytesOf;
    DirectiveNames();
    DirectivesByPrefix([BytesOf("env")] + rest);
    DirectivesByPrefix([BytesOf("tty")] + rest);
    DirectivesByPrefix([BytesOf("enable")] + rest);
  }

  /** The three values under theirs. */
  lemma ValuesByName()
    ensures EvalNumber(BytesOf("$TTY_TEXT_MODE")) == Some(1)
    ensures EvalNumber(BytesOf("$TTY_GFX_MODE")) == Some(2)
    ensures EvalNumber(BytesOf("$OPT_CLEAR")) == Some(1)
  {
    hide EvalNumber, BytesOf;
    ValueNames();
    NumberByName(0);
    NumberByName(1);
    NumberByName(2);
  }
}
