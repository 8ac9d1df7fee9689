/** The recursion of the build script, with every build step succeeding and with nothing assumed about the
    recipes: exactly when it comes to an end, and exactly when it ends well. */
module PkgRuns {
  import opened Recipes
  import opened PkgGraph

  /** Done with what is then in the store, dead over a missing recipe, or still busy at the given depth. */
  datatype Outcome = Done(store: set<Node>) | NoRecipe | Busy

  /** A prepared source is not looked up again for a host package; everything else needs its recipe even when it
      is there. */
  predicate NotLookedUp(store: set<Node>, node: Node, d: Node) {
    d in store && node.Host? && d.Source?
  }

  /** Building a node, with calls nested at most `depth` deep. */
  function Attempt(recipes: RecipeBook, depth: nat, node: Node, store: set<Node>): Outcome
    requires node in recipes
    decreases depth, 0
  {
    if depth == 0 then Busy
    else match AttemptAll(recipes, depth - 1, node, Needs(node, recipes[node]), store)
         case Done(s) => Done(s + {node})
         case other => other
  }

  /** Seeing to the needs of a node one after the other. */
  function AttemptAll(recipes: RecipeBook, depth: nat, node: Node, needs: seq<Node>, store: set<Node>): Outcome
    decreases depth, |needs| + 2
  {
    if needs == [] then Done(store)
    else match AttemptAll(recipes, depth, node, needs[..|needs| - 1], store)
         case Done(s) => AttemptNeed(recipes, depth, node, needs[|needs| - 1], s)
         case other => other
  }

  function AttemptNeed(recipes: RecipeBook, depth: nat, node: Node, d: Node, store: set<Node>): Outcome
    decreases depth, 1
  {
    if NotLookedUp(store, node, d) then Done(store)
    else if d !in recipes then NoRecipe
    else if d in store then Done(store)
    else Attempt(recipes, depth, d, store)
  }

  /** The script comes to an end. */
  ghost predicate Ends(recipes: RecipeBook, node: Node, store: set<Node>)
    requires node in recipes
  {
    exists depth: nat :: Attempt(recipes, depth, node, store) != Busy
  }

  /** The script ends, and leaves this in the store. */
  ghost predicate EndsWith(recipes: RecipeBook, node: Node, store: set<Node>, after: set<Node>)
    requires node in recipes
  {
    exists depth: nat :: Attempt(recipes, depth, node, store) == Done(after)
  }

  // ----- a deeper limit changes nothing about a run that ends -----

  lemma {:induction false} DeeperAttempt(recipes: RecipeBook, depth: nat, deeper: nat, node: Node, store: set<Node>)
    requires node in recipes && depth <= deeper && Attempt(recipes, depth, node, store) != Busy
    ensures Attempt(recipes, deeper, node, store) == Attempt(recipes, depth, node, store)
    decreases depth, 0
  {
    DeeperAttemptAll(recipes, depth - 1, deeper - 1, node, Needs(node, recipes[node]), store);
  }

  lemma {:induction false} DeeperAttemptAll(recipes: RecipeBook, depth: nat, deeper: nat, node: Node, needs: seq<Node>,
                                            store: set<Node>)
    requires depth <= deeper && AttemptAll(recipes, depth, node, needs, store) != Busy
    ensures AttemptAll(recipes, deeper, node, needs, store) == AttemptAll(recipes, depth, node, needs, store)
    decreases depth, |needs| + 2
  {
    if needs != [] {
      var front, d := needs[..|needs| - 1], needs[|needs| - 1];
      DeeperAttemptAll(recipes, depth, deeper, node, front, store);
      match AttemptAll(recipes, depth, node, front, store) {
        case Done(s) =>
          if !NotLookedUp(s, node, d) && d in recipes && d !in s {
            DeeperAttempt(recipes, depth, deeper, d, s);
          }
        case _ =>
      }
    }
  }

  // ----- what keeps a run from ending well -----

  /** A recipe that is looked up for n is missing. */
  ghost predicate Lost(recipes: RecipeBook, store: set<Node>, n: Node) {
    n in recipes && exists d :: d in Needs(n, recipes[n]) && d !in recipes && !NotLookedUp(store, n, d)
  }

  ghost predicate AllPresent(recipes: RecipeBook, store: set<Node>, node: Node) {
    forall m :: Reaches(recipes, store, node, m) ==> !Lost(recipes, store, m)
  }

  /** The needs of m cannot all be met. */
  ghost predicate Bad(recipes: RecipeBook, store: set<Node>, m: Node) {
    OnCycle(recipes, store, m) || Lost(recipes, store, m)
  }

  /** What has been added to the store has a recipe and does not lead to m. */
  ghost predicate ClearOf(recipes: RecipeBook, store: set<Node>, m: Node, now: set<Node>) {
    store <= now && forall n :: n in now && n !in store ==> n in recipes && !Reaches(recipes, store, n, m)
  }

  ghost predicate MetClearOf(recipes: RecipeBook, store: set<Node>, m: Node, node: Node, needs: seq<Node>) {
    forall d :: d in needs ==>
      (d in store || !Reaches(recipes, store, d, m)) && (d in recipes || NotLookedUp(store, node, d))
  }

  /** Nothing that leads to a bad node is ever built. */
  lemma {:induction false} BadNeverBuilt(recipes: RecipeBook, store: set<Node>, m: Node, depth: nat, node: Node,
                                         now: set<Node>)
    requires node in recipes && Bad(recipes, store, m) && ClearOf(recipes, store, m, now)
    ensures var r := Attempt(recipes, depth, node, now);
            r.Done? ==> !Reaches(recipes, store, node, m) && ClearOf(recipes, store, m, r.store)
    decreases depth, 0
  {
    hide Reaches, Bad, Needs, MetClearOf;
    if depth > 0 {
      var needs := Needs(node, recipes[node]);
      BadNeverNeeded(recipes, store, m, depth - 1, node, needs, now);
      if AttemptAll(recipes, depth - 1, node, needs, now).Done? {
        MetMeansClear(recipes, store, m, node);
      }
    }
  }

  lemma MetMeansClear(recipes: RecipeBook, store: set<Node>, m: Node, node: Node)
    requires node in recipes && Bad(recipes, store, m)
    requires MetClearOf(recipes, store, m, node, Needs(node, recipes[node]))
    ensures !Reaches(recipes, store, node, m)
  {
    hide Reaches, Needs;
    if Reaches(recipes, store, node, m) && node != m {
      var d := FirstStep(recipes, store, node, m);
      assert false;
    }
  }

  lemma {:induction false} BadNeverNeeded(recipes: RecipeBook, store: set<Node>, m: Node, depth: nat, node: Node,
                                          needs: seq<Node>, now: set<Node>)
    requires Bad(recipes, store, m) && ClearOf(recipes, store, m, now)
    ensures var r := AttemptAll(recipes, depth, node, needs, now);
            r.Done? ==> ClearOf(recipes, store, m, r.store) && MetClearOf(recipes, store, m, node, needs)
    decreases depth, |needs| + 2
  {
    hide Reaches, Bad, ClearOf, AttemptNeed;
    if needs != [] {
      var front, d := needs[..|needs| - 1], needs[|needs| - 1];
      BadNeverNeeded(recipes, store, m, depth, node, front, now);
      var r := AttemptAll(recipes, depth, node, front, now);
      if r.Done? {
        BadNeverNeededNext(recipes, store, m, depth, node, d, r.store);
        assert needs == front + [d];
      }
    }
  }

  lemma {:induction false} BadNeverNeededNext(recipes: RecipeBook, store: set<Node>, m: Node, depth: nat, node: Node,
                                              d: Node, now: set<Node>)
    requires Bad(recipes, store, m) && ClearOf(recipes, store, m, now)
    ensures var r := AttemptNeed(recipes, depth, node, d, now);
            r.Done? ==> ClearOf(recipes, store, m, r.store) && MetClearOf(recipes, store, m, node, [d])
    decreases depth, 1
  {
    hide Reaches, Bad;
    if d in recipes {
      BadNeverBuilt(recipes, store, m, depth, d, now);
    }
  }

  // ----- what makes a run end -----

  lemma {:induction false} GroundedEnds(recipes: RecipeBook, depth: nat, node: Node, store: set<Node>)
    requires node in recipes && Grounded(recipes, store, depth, node)
    ensures Attempt(recipes, depth, node, store) != Busy
    ensures Attempt(recipes, depth, node, store).Done? ==> store <= Attempt(recipes, depth, node, store).store
    decreases depth, 0
  {
    var needs := Needs(node, recipes[node]);
    forall d | d in needs && d !in store
      ensures Grounded(recipes, store, depth - 1, d)
    {
      assert Lacking(recipes, store, node, d);
    }
    GroundedAllEnd(recipes, depth - 1, node, needs, store);
  }

  lemma {:induction false} GroundedAllEnd(recipes: RecipeBook, depth: nat, node: Node, needs: seq<Node>, store: set<Node>)
    requires forall d :: d in needs && d !in store ==> Grounded(recipes, store, depth, d)
    ensures AttemptAll(recipes, depth, node, needs, store) != Busy
    ensures var r := AttemptAll(recipes, depth, node, needs, store); r.Done? ==> store <= r.store
    decreases depth, |needs| + 2
  {
    hide Grounded;
    if needs != [] {
      var front, d := needs[..|needs| - 1], needs[|needs| - 1];
      GroundedAllEnd(recipes, depth, node, front, store);
      match AttemptAll(recipes, depth, node, front, store) {
        case Done(s) =>
          if d in recipes && d !in s {
            GroundedLess(recipes, store, s, depth, d);
            GroundedEnds(recipes, depth, d, s);
          }
        case _ =>
      }
    }
  }

  /** Where no recipe is missing no run dies over one. */
  lemma {:induction false} NeverLost(recipes: RecipeBook, store: set<Node>, depth: nat, node: Node, now: set<Node>)
    requires node in recipes && store <= now && AllPresent(recipes, store, node)
    ensures var r := Attempt(recipes, depth, node, now); r != NoRecipe && (r.Done? ==> store <= r.store)
    decreases depth, 0
  {
    if depth > 0 {
      var needs := Needs(node, recipes[node]);
      ReachesItself(recipes, store, node);
      assert !Lost(recipes, store, node);
      forall d | d in needs && d !in store
        ensures AllPresent(recipes, store, d)
      {
        forall m | Reaches(recipes, store, d, m)
          ensures !Lost(recipes, store, m)
        {
          ReachesThrough(recipes, store, node, d, m);
        }
      }
      NeverLostAll(recipes, store, depth - 1, node, needs, now);
    }
  }

  lemma {:induction false} NeverLostAll(recipes: RecipeBook, store: set<Node>, depth: nat, node: Node, needs: seq<Node>,
                                        now: set<Node>)
    requires store <= now
    requires forall d :: d in needs ==> d in recipes || NotLookedUp(store, node, d)
    requires forall d :: d in needs && d !in store ==> AllPresent(recipes, store, d)
    ensures var r := AttemptAll(recipes, depth, node, needs, now); r != NoRecipe && (r.Done? ==> store <= r.store)
    decreases depth, |needs| + 2
  {
    hide AllPresent;
    if needs != [] {
      var front, d := needs[..|needs| - 1], needs[|needs| - 1];
      NeverLostAll(recipes, store, depth, node, front, now);
      match AttemptAll(recipes, depth, node, front, now) {
        case Done(s) =>
          if d in recipes && d !in s {
            NeverLost(recipes, store, depth, d, s);
          }
        case _ =>
      }
    }
  }

  // ----- the two theorems -----

  lemma StartsClear(recipes: RecipeBook, store: set<Node>, m: Node)
    ensures ClearOf(recipes, store, m, store)
  {
  }

  /** With all recipes there, the script comes to an end if and only if nothing it would have to build on the way
      needs itself. */
  lemma EndsExactly(recipes: RecipeBook, node: Node, store: set<Node>)
    requires node in recipes && AllPresent(recipes, store, node)
    ensures Ends(recipes, node, store) <==> !Loops(recipes, store, node)
  {
    hide AllPresent, Attempt, Reaches, OnCycle, Grounded;
    if Loops(recipes, store, node) {
      var m :| Reaches(recipes, store, node, m) && OnCycle(recipes, store, m);
      StartsClear(recipes, store, m);
      forall depth: nat
        ensures Attempt(recipes, depth, node, store) == Busy
      {
        BadNeverBuilt(recipes, store, m, depth, node, store);
        NeverLost(recipes, store, depth, node, store);
      }
    } else {
      NoLoopIsGrounded(recipes, store, node);
      GroundedEnds(recipes, |recipes| + 1, node, store);
    }
  }

  /** Whatever recipes there are, with no step failing the script ends well if and only if nothing needs itself and
      no recipe looked up is missing. */
  lemma EndsWellExactly(recipes: RecipeBook, node: Node, store: set<Node>)
    requires node in recipes
    ensures (exists after :: EndsWith(recipes, node, store, after))
            <==> !Loops(recipes, store, node) && AllPresent(recipes, store, node)
  {
    hide Attempt, Reaches, OnCycle, Grounded, Lost;
    if !Loops(recipes, store, node) && AllPresent(recipes, store, node) {
      NoLoopIsGrounded(recipes, store, node);
      GroundedEnds(recipes, |recipes| + 1, node, store);
      NeverLost(recipes, store, |recipes| + 1, node, store);
      assert EndsWith(recipes, node, store, Attempt(recipes, |recipes| + 1, node, store).store);
    } else {
      var m :| Reaches(recipes, store, node, m) && Bad(recipes, store, m);
      StartsClear(recipes, store, m);
      forall after
        ensures !EndsWith(recipes, node, store, after)
      {
        forall depth: nat
          ensures Attempt(recipes, depth, node, store) != Done(after)
        {
          BadNeverBuilt(recipes, store, m, depth, node, store);
        }
      }
    }
  }

  // ----- a cycle -----

  const PLAIN: Recipe := Recipe([], [], [], [], [], false)

  const CYCLE: RecipeBook := map[
    Target("a") := PLAIN.(deps := ["b"]),
    Target("b") := PLAIN.(deps := ["a"]),
    Target("c") := PLAIN
  ]

  lemma CycleIsPresent(m: Node)
    ensures !Lost(CYCLE, {}, m)
  {
    if m in CYCLE {
      assert m == Target("a") || m == Target("b") || m == Target("c");
    }
  }

  /** Two packages that need each other keep the script calling itself for ever. */
  lemma CycleNeverEnds()
    ensures !Ends(CYCLE, Target("a"), {})
  {
    hide Lost, Reaches, Needs, Ends;
    var a, b := Target("a"), Target("b");
    CycleNeeds();
    assert Lacking(CYCLE, {}, a, b) && Lacking(CYCLE, {}, b, a);
    ReachesItself(CYCLE, {}, a);
    ReachesThrough(CYCLE, {}, b, a, a);
    assert OnCycle(CYCLE, {}, a);
    forall m | Reaches(CYCLE, {}, a, m)
      ensures !Lost(CYCLE, {}, m)
    {
      CycleIsPresent(m);
    }
    EndsExactly(CYCLE, a, {});
  }

  lemma CycleNeeds()
    ensures Needs(Target("a"), CYCLE[Target("a")]) == [Target("b")]
    ensures Needs(Target("b"), CYCLE[Target("b")]) == [Target("a")]
    ensures Needs(Target("c"), CYCLE[Target("c")]) == []
  {
  }

  /** A package beside them is built. */
  lemma BesideTheCycle()
    ensures EndsWith(CYCLE, Target("c"), {}, {Target("c")})
  {
    hide Needs;
    CycleNeeds();
    assert Attempt(CYCLE, 1, Target("c"), {}) == Done({Target("c")});
  }
}
