/** The start barrier of the init program: children wait for a signal that init sends only when every
    directive has succeeded. All interleavings of init's steps with those of the children. */
module InitBarrier {
  import opened InitText
  import opened InitGrammar
  import opened Options
  import opened InitTable
  import opened InitInterp

  datatype Parent = Running(i: nat) | Failed | Killing(j: nat) | Succeeded

  datatype KidPc = SettingUp | AtBarrier | Execed | Exited

  /** A child: where it is, its own copy of the lock word, a signal not delivered yet, and how many were sent. */
  datatype Kid = Kid(pc: KidPc, locked: bool, pending: bool, sent: nat)

  datatype System = System(parent: Parent, world: World, kids: seq<Kid>)

  const NEW_KID: Kid := Kid(SettingUp, true, false, 0)

  /** An atomic step: init's next one, the delivery of a pending signal, a child's set-up, or a child's look
      at its lock word; `ok` says whether the fork, the set-up or the exec works. */
  datatype Action = InitStep(ok: bool) | Deliver(c: nat) | SetUp(c: nat, ok: bool) | Look(c: nat, ok: bool)

  function Start(env: Env): System {
    System(Running(0), World(env, 0, []), [])
  }

  function DirectiveStep(ds: seq<Words>, s: System, ok: bool): System
    requires s.parent.Running? && s.parent.i < |ds|
  {
    var d := ds[s.parent.i];
    match Step(s.world, d)
    case None => s.(parent := Failed)
    case Some(w) =>
      if CallbackOf(d) != Some(CbTty) then s.(parent := Running(s.parent.i + 1), world := w)
      else if !ok then s.(parent := Failed)
      else s.(parent := Running(s.parent.i + 1), world := w, kids := s.kids + [NEW_KID])
  }

  function Signalled(k: Kid): Kid {
    k.(pending := true, sent := k.sent + 1)
  }

  function ParentStep(ds: seq<Words>, s: System, ok: bool): System {
    match s.parent
    case Running(i) => if i < |ds| then DirectiveStep(ds, s, ok) else s.(parent := Killing(0))
    case Failed => s
    case Killing(j) =>
      if j < |s.kids| then s.(parent := Killing(j + 1), kids := s.kids[j := Signalled(s.kids[j])])
      else s.(parent := Succeeded)
    case Succeeded => s
  }

  /** Before exec the handler clears the lock word; afterwards the signal's default action ends the process. */
  function Delivered(k: Kid): Kid {
    if !k.pending || k.pc == Exited then k
    else if k.pc == Execed then k.(pc := Exited, pending := false)
    else k.(locked := false, pending := false)
  }

  function KidSetUp(k: Kid, ok: bool): Kid {
    if k.pc != SettingUp then k else k.(pc := if ok then AtBarrier else Exited)
  }

  function Looked(k: Kid, ok: bool): Kid {
    if k.pc != AtBarrier || k.locked then k else k.(pc := if ok then Execed else Exited)
  }

  function Next(ds: seq<Words>, s: System, a: Action): System {
    match a
    case InitStep(ok) => ParentStep(ds, s, ok)
    case Deliver(c) => if c < |s.kids| then s.(kids := s.kids[c := Delivered(s.kids[c])]) else s
    case SetUp(c, ok) => if c < |s.kids| then s.(kids := s.kids[c := KidSetUp(s.kids[c], ok)]) else s
    case Look(c, ok) => if c < |s.kids| then s.(kids := s.kids[c := Looked(s.kids[c], ok)]) else s
  }

  function After(ds: seq<Words>, s: System, actions: seq<Action>): System
    decreases |actions|
  {
    if actions == [] then s else After(ds, Next(ds, s, actions[0]), actions[1..])
  }

  // ----- what every run keeps -----

  /** Not signalled yet, so still held back. */
  predicate HeldBack(k: Kid) {
    k.sent == 0 && k.locked && !k.pending && k.pc != Execed
  }

  /** Signalled once: the signal is still pending, or has cleared the lock word, unless the child is gone. */
  predicate LetGo(k: Kid) {
    && k.sent == 1
    && (k.pc != Exited ==> (k.pending <==> k.locked))
    && (k.pc == Execed ==> !k.pending && !k.locked)
  }

  ghost predicate Inv(env: Env, ds: seq<Words>, s: System) {
    && |s.kids| == |s.world.children|
    && match s.parent
       case Running(i) => i <= |ds| && Run(World(env, 0, []), ds[..i]) == Some(s.world) &&
                          forall c :: 0 <= c < |s.kids| ==> HeldBack(s.kids[c])
       case Failed => forall c :: 0 <= c < |s.kids| ==> HeldBack(s.kids[c])
       case Killing(j) => j <= |s.kids| && Run(World(env, 0, []), ds) == Some(s.world) &&
                          (forall c :: 0 <= c < j ==> LetGo(s.kids[c])) &&
                          (forall c :: j <= c < |s.kids| ==> HeldBack(s.kids[c]))
       case Succeeded => Run(World(env, 0, []), ds) == Some(s.world) &&
                         forall c :: 0 <= c < |s.kids| ==> LetGo(s.kids[c])
  }

  lemma KidStepsKeep(k: Kid, ok: bool)
    ensures HeldBack(k) ==> HeldBack(Delivered(k)) && HeldBack(KidSetUp(k, ok)) && HeldBack(Looked(k, ok))
    ensures HeldBack(k) ==> LetGo(Signalled(k))
    ensures LetGo(k) ==> LetGo(Delivered(k)) && LetGo(KidSetUp(k, ok)) && LetGo(Looked(k, ok))
  {
  }

  lemma StepChildren(w: World, d: Words)
    requires Step(w, d).Some?
    ensures |Step(w, d).value.children| == |w.children| + if CallbackOf(d) == Some(CbTty) then 1 else 0
  {
  }

  lemma ParentKeeps(env: Env, ds: seq<Words>, s: System, ok: bool)
    requires Inv(env, ds, s)
    ensures Inv(env, ds, ParentStep(ds, s, ok))
  {
    hide Step, Run;
    match s.parent {
      case Running(i) =>
        if i < |ds| {
          RunOneMore(World(env, 0, []), ds, i);
          if Step(s.world, ds[i]).Some? {
            StepChildren(s.world, ds[i]);
          }
        } else {
          assert ds[..i] == ds;
        }
      case Killing(j) =>
        if j < |s.kids| {
          KidStepsKeep(s.kids[j], ok);
        }
      case _ =>
    }
  }

  lemma InvKept(env: Env, ds: seq<Words>, s: System, a: Action)
    requires Inv(env, ds, s)
    ensures Inv(env, ds, Next(ds, s, a))
  {
    hide Run;
    match a {
      case InitStep(ok) => ParentKeeps(env, ds, s, ok);
      case Deliver(c) => if c < |s.kids| { KidStepsKeep(s.kids[c], true); }
      case SetUp(c, ok) => if c < |s.kids| { KidStepsKeep(s.kids[c], ok); }
      case Look(c, ok) => if c < |s.kids| { KidStepsKeep(s.kids[c], ok); }
    }
  }

  lemma {:induction false} InvAfter(env: Env, ds: seq<Words>, s: System, actions: seq<Action>)
    requires Inv(env, ds, s)
    ensures Inv(env, ds, After(ds, s, actions))
    decreases |actions|
  {
    hide Inv, Next;
    if actions != [] {
      InvKept(env, ds, s, actions[0]);
      InvAfter(env, ds, Next(ds, s, actions[0]), actions[1..]);
    }
  }

  /** In every run: a child that got to exec was signalled exactly once, after all directives succeeded, and
      runs with what the directives before its own made; if init failed no child got there; and once init
      is done each child has been signalled exactly once. */
  lemma EveryRunKeepsBarrier(env: Env, ds: seq<Words>, actions: seq<Action>)
    ensures var s := After(ds, Start(env), actions);
            && |s.kids| == |s.world.children|
            && (forall c :: 0 <= c < |s.kids| && s.kids[c].pc == Execed ==>
                  && s.kids[c].sent == 1 && Run(World(env, 0, []), ds) == Some(s.world)
                  && |TtyPositions(ds)| == |s.kids|
                  && ComesFrom(s.world.children[c], env, ds, TtyPositions(ds)[c]))
            && (s.parent == Failed ==> forall c :: 0 <= c < |s.kids| ==> s.kids[c].pc != Execed && s.kids[c].sent == 0)
            && (s.parent == Succeeded ==> forall c :: 0 <= c < |s.kids| ==> s.kids[c].sent == 1)
  {
    hide Run;
    assert Inv(env, ds, Start(env)) by {
      NothingRun(World(env, 0, []), ds);
    }
    InvAfter(env, ds, Start(env), actions);
    var s := After(ds, Start(env), actions);
    if Run(World(env, 0, []), ds) == Some(s.world) {
      ChildrenGetWhatPrecedes(env, ds);
    }
  }

  /** A failed init never starts anyone, however the run goes on. */
  lemma {:induction false} FailureIsFinal(ds: seq<Words>, s: System, actions: seq<Action>)
    requires s.parent == Failed
    ensures After(ds, s, actions).parent == Failed
    decreases |actions|
  {
    if actions != [] {
      FailureIsFinal(ds, Next(ds, s, actions[0]), actions[1..]);
    }
  }

  // ----- and every run that has not failed can start everyone -----

  lemma {:induction false} AfterBoth(ds: seq<Words>, s: System, first: seq<Action>, second: seq<Action>)
    ensures After(ds, s, first + second) == After(ds, After(ds, s, first), second)
    decreases |first|
  {
    hide Next;
    if first == [] {
      assert first + second == second;
    } else {
      AfterBoth(ds, Next(ds, s, first[0]), first[1..], second);
      assert (first + second)[1..] == first[1..] + second;
    }
  }

  function Started(c: nat): seq<Action> {
    [SetUp(c, true), Deliver(c), Look(c, true)]
  }

  /** Three steps of its own bring a child that was signalled to exec, unless it is gone; nothing else changes. */
  lemma OneKidStarts(env: Env, ds: seq<Words>, s: System, c: nat)
    requires Inv(env, ds, s) && c < |s.kids| && LetGo(s.kids[c])
    ensures var r := After(ds, s, Started(c));
            && r.parent == s.parent && r.world == s.world && |r.kids| == |s.kids|
            && (forall d :: 0 <= d < |s.kids| && d != c ==> r.kids[d] == s.kids[d])
            && r.kids[c].sent == 1 && r.kids[c].pc == (if s.kids[c].pc == Exited then Exited else Execed)
  {
    hide Inv;
    var actions := Started(c);
    var s1 := Next(ds, s, actions[0]);
    var s2 := Next(ds, s1, actions[1]);
    var s3 := Next(ds, s2, actions[2]);
    assert actions[1..][0] == actions[1] && actions[1..][1..][0] == actions[2] && actions[1..][1..][1..] == [];
    assert After(ds, s, actions) == After(ds, s1, actions[1..]) == After(ds, s2, actions[1..][1..]) == s3;
  }

  /** No signal is lost: whenever it came after the fork, a child that was signalled and is not gone needs only
      its own steps to get to exec. */
  lemma SignalledKidStarts(env: Env, ds: seq<Words>, s: System, c: nat)
    requires Inv(env, ds, s) && c < |s.kids| && s.kids[c].sent > 0 && s.kids[c].pc != Exited
    ensures var r := After(ds, s, [SetUp(c, true), Deliver(c), Look(c, true)]);
            c < |r.kids| && r.kids[c].pc == Execed
  {
    assert LetGo(s.kids[c]);
    OneKidStarts(env, ds, s, c);
  }

  /** More steps than are needed until init is done and all children run. */
  function StepsLeft(ds: seq<Words>, s: System): nat {
    match s.parent
    case Running(i) => (if i <= |ds| then 5 * (|ds| - i) else 0) + 4 * |s.kids| + 2
    case Failed => 0
    case Killing(j) => (if j <= |s.kids| then |s.kids| - j else 0) + 1 + 3 * |s.kids|
    case Succeeded => 3 * |s.kids|
  }

  /** A directive of a configuration that succeeds as a whole does not fail. */
  lemma NoDirectiveFails(w: World, ds: seq<Words>, i: nat)
    requires i < |ds| && Run(w, ds).Some? && Run(w, ds[..i]).Some?
    ensures Step(Run(w, ds[..i]).value, ds[i]).Some?
  {
    hide Step;
    RunOneMore(w, ds, i);
    if Run(w, ds[..i + 1]) == None {
      RunStops(w, ds, i + 1);
    }
  }

  lemma ParentAdvances(env: Env, ds: seq<Words>, s: System)
    requires Inv(env, ds, s) && s.parent != Failed && s.parent != Succeeded && Run(World(env, 0, []), ds).Some?
    ensures var r := Next(ds, s, InitStep(true));
            && r.parent != Failed && StepsLeft(ds, r) < StepsLeft(ds, s)
            && |s.kids| <= |r.kids|
            && (forall c :: 0 <= c < |s.kids| ==> r.kids[c].pc == s.kids[c].pc)
            && (forall c :: |s.kids| <= c < |r.kids| ==> r.kids[c].pc != Exited)
  {
    hide Step, Run;
    if s.parent.Running? && s.parent.i < |ds| {
      NoDirectiveFails(World(env, 0, []), ds, s.parent.i);
    }
  }

  lemma {:induction false} ParentFinishes(env: Env, ds: seq<Words>, s: System) returns (actions: seq<Action>)
    requires Inv(env, ds, s) && s.parent != Failed && Run(World(env, 0, []), ds).Some?
    ensures var r := After(ds, s, actions);
            && r.parent == Succeeded && Inv(env, ds, r) && |actions| + 3 * |r.kids| <= StepsLeft(ds, s)
            && |s.kids| <= |r.kids|
            && (forall c :: 0 <= c < |s.kids| ==> r.kids[c].pc == s.kids[c].pc)
            && (forall c :: |s.kids| <= c < |r.kids| ==> r.kids[c].pc != Exited)
    decreases StepsLeft(ds, s)
  {
    hide Inv, Next, Run;
    if s.parent == Succeeded {
      actions := [];
    } else {
      ParentAdvances(env, ds, s);
      InvKept(env, ds, s, InitStep(true));
      var rest := ParentFinishes(env, ds, Next(ds, s, InitStep(true)));
      actions := [InitStep(true)] + rest;
      assert actions[1..] == rest;
    }
  }

  /** Whatever the configuration, init can always come to its end; if the directives are not in order that end is
      failure. */
  lemma {:induction false} InitComesToAnEnd(env: Env, ds: seq<Words>, s: System) returns (actions: seq<Action>)
    requires Inv(env, ds, s)
    ensures var r := After(ds, s, actions);
            && |actions| <= StepsLeft(ds, s)
            && (r.parent == Failed || (r.parent == Succeeded && Run(World(env, 0, []), ds).Some?))
    decreases StepsLeft(ds, s)
  {
    hide Run, Step;
    if s.parent == Succeeded || s.parent == Failed {
      actions := [];
    } else {
      InvKept(env, ds, s, InitStep(true));
      var rest := InitComesToAnEnd(env, ds, Next(ds, s, InitStep(true)));
      actions := [InitStep(true)] + rest;
      assert actions[1..] == rest;
    }
  }

  lemma {:induction false} KidsStart(env: Env, ds: seq<Words>, s: System, n: nat) returns (actions: seq<Action>)
    requires Inv(env, ds, s) && s.parent == Succeeded && n <= |s.kids|
    ensures var r := After(ds, s, actions);
            && r.parent == Succeeded && Inv(env, ds, r) && |actions| == 3 * n && |r.kids| == |s.kids|
            && (forall c :: n <= c < |s.kids| ==> r.kids[c] == s.kids[c])
            && (forall c :: 0 <= c < n ==> r.kids[c].sent == 1)
            && (forall c :: 0 <= c < n ==> r.kids[c].pc == if s.kids[c].pc == Exited then Exited else Execed)
  {
    hide Next, Run;
    if n == 0 {
      actions := [];
    } else {
      var first := KidsStart(env, ds, s, n - 1);
      var t := After(ds, s, first);
      actions := first + Started(n - 1);
      AfterBoth(ds, s, first, Started(n - 1));
      OneKidStarts(env, ds, t, n - 1);
      InvAfter(env, ds, t, Started(n - 1));
    }
  }

  /** Whenever init has not failed and the directives are in order, some continuation, of bounded length, ends with
      init done, every child signalled exactly once, and every child at exec that was not gone before. */
  lemma EveryoneCanStart(env: Env, ds: seq<Words>, s: System) returns (actions: seq<Action>)
    requires Inv(env, ds, s) && s.parent != Failed && Run(World(env, 0, []), ds).Some?
    ensures var r := After(ds, s, actions);
            && |actions| <= StepsLeft(ds, s)
            && r.parent == Succeeded && |r.kids| == |TtyPositions(ds)|
            && forall c :: 0 <= c < |r.kids| ==>
                 r.kids[c].sent == 1 && (r.kids[c].pc == Execed || (c < |s.kids| && s.kids[c].pc == Exited))
  {
    hide Next, Run, StepsLeft;
    var first := ParentFinishes(env, ds, s);
    var t := After(ds, s, first);
    var second := KidsStart(env, ds, t, |t.kids|);
    actions := first + second;
    AfterBoth(ds, s, first, second);
    ChildrenGetWhatPrecedes(env, ds);
  }

  /** The same from the start, after any steps that did not let init fail. */
  lemma EveryRunCanSucceed(env: Env, ds: seq<Words>, before: seq<Action>) returns (actions: seq<Action>)
    requires Run(World(env, 0, []), ds).Some? && After(ds, Start(env), before).parent != Failed
    ensures var s, r := After(ds, Start(env), before), After(ds, Start(env), before + actions);
            && |actions| <= StepsLeft(ds, s)
            && r.parent == Succeeded && |r.kids| == |TtyPositions(ds)|
            && forall c :: 0 <= c < |r.kids| ==>
                 r.kids[c].sent == 1 && (r.kids[c].pc == Execed || (c < |s.kids| && s.kids[c].pc == Exited))
  {
    hide Next, Run;
    assert Inv(env, ds, Start(env)) by {
      NothingRun(World(env, 0, []), ds);
    }
    InvAfter(env, ds, Start(env), before);
    actions := EveryoneCanStart(env, ds, After(ds, Start(env), before));
    AfterBoth(ds, Start(env), before, actions);
  }
}
