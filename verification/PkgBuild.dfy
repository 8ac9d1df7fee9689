/** Building a package and, first, whatever it needs: host packages, target packages and prepared sources. */
module PkgBuild {
  import opened PkgGraph
  import opened PkgRuns
  import opened Recipes

  ghost predicate Closed(recipes: RecipeBook, store: set<Node>) {
    forall n :: n in store && n in recipes ==> NeedsMet(recipes, store, n)
  }

  ghost predicate NeedsMet(recipes: RecipeBook, store: set<Node>, n: Node)
    requires n in recipes
  {
    forall d :: d in Needs(n, recipes[n]) ==> d in store
  }

  /** Whatever the recipe of a node names is in the store, field by field. */
  ghost predicate FieldsMet(store: set<Node>, node: Node, r: Recipe) {
    && (forall n :: n in r.hostdeps ==> Host(n) in store)
    && (forall n :: n in r.hostrundeps ==> Host(n) in store)
    && (forall n :: n in r.deps ==> Target(n) in store)
    && (forall n :: n in r.builddeps ==> Target(n) in store)
    && (!node.Source? ==> forall n :: n in r.fromSource ==> Source(n) in store)
    && (node.Target? && r.hasOwnSource ==> Source(node.name) in store)
  }

  /** Having all needs in the store means having there all that the recipe's fields name. */
  lemma MetByField(recipes: RecipeBook, store: set<Node>, node: Node)
    requires node in recipes
    ensures NeedsMet(recipes, store, node) <==> FieldsMet(store, node, recipes[node])
  {
    var r := recipes[node];
    forall d
      ensures d in Needs(node, r) <==> Names(node, r, d)
    {
      NeedsAreFields(node, r, d);
    }
    hide Needs;
    if NeedsMet(recipes, store, node) {
      forall n: Name
        ensures Names(node, r, Host(n)) ==> Host(n) in store
        ensures Names(node, r, Target(n)) ==> Target(n) in store
        ensures Names(node, r, Source(n)) ==> Source(n) in store
      {
      }
    }
  }

  /** The nodes built, one after the other: each new and preceded by all it needs. */
  ghost predicate InOrder(recipes: RecipeBook, before: set<Node>, built: seq<Node>) {
    && (forall k :: 0 <= k < |built| ==> built[k] in recipes)
    && (forall k :: 0 <= k < |built| ==> NeedsMet(recipes, before + Elements(built[..k]), built[k]))
    && (forall j, k :: 0 <= j < k < |built| ==> built[j] != built[k])
  }

  ghost function Elements(s: seq<Node>): set<Node> {
    set n | n in s
  }

  class World {
    var store: set<Node>
    ghost var built: seq<Node>

    constructor (store: set<Node>)
      ensures this.store == store && built == []
    {
      this.store := store;
      built := [];
    }
  }

  /** What a build leaves behind, successful or not. */
  ghost predicate Progress(recipes: RecipeBook, store: set<Node>, built: seq<Node>, store': set<Node>, built': seq<Node>) {
    && built <= built'
    && store' == store + Elements(built'[|built|..])
    && Closed(recipes, store')
    && InOrder(recipes, store, built'[|built|..])
  }

  lemma NoProgress(recipes: RecipeBook, store: set<Node>, built: seq<Node>)
    requires Closed(recipes, store)
    ensures Progress(recipes, store, built, store, built)
  {
  }

  lemma InOrderAppends(recipes: RecipeBook, s0: set<Node>, first: seq<Node>, s1: set<Node>, second: seq<Node>)
    requires InOrder(recipes, s0, first) && InOrder(recipes, s1, second) && s1 == s0 + Elements(first)
    requires forall n :: n in second ==> n !in s1
    ensures InOrder(recipes, s0, first + second)
  {
    var all := first + second;
    forall k | 0 <= k < |all|
      ensures all[k] in recipes && NeedsMet(recipes, s0 + Elements(all[..k]), all[k])
    {
      if k < |first| {
        assert all[..k] == first[..k];
      } else {
        var i := k - |first|;
        assert all[..k] == first + second[..i];
        assert s0 + Elements(all[..k]) == s1 + Elements(second[..i]);
      }
    }
    forall j, k | 0 <= j < k < |all|
      ensures all[j] != all[k]
    {
      if j < |first| <= k {
        assert all[j] in first && all[k] in second;
      }
    }
  }

  /** Progress made twice is progress, as long as the second build made nothing that was there. */
  lemma ProgressChains(recipes: RecipeBook, s0: set<Node>, b0: seq<Node>, s1: set<Node>, b1: seq<Node>,
          s2: set<Node>, b2: seq<Node>)
    requires Progress(recipes, s0, b0, s1, b1) && Progress(recipes, s1, b1, s2, b2)
    requires forall n :: n in b2[|b1|..] ==> n !in s1
    ensures Progress(recipes, s0, b0, s2, b2)
    ensures b2[|b0|..] == b1[|b0|..] + b2[|b1|..]
  {
    hide InOrder, Closed;
    var first, second := b1[|b0|..], b2[|b1|..];
    assert b2[|b0|..] == first + second;
    InOrderAppends(recipes, s0, first, s1, second);
  }

  lemma ProgressMeans(recipes: RecipeBook, s0: set<Node>, b0: seq<Node>, s1: set<Node>, b1: seq<Node>)
    requires Progress(recipes, s0, b0, s1, b1)
    ensures Closed(recipes, s1) && s0 <= s1 && b0 <= b1
    ensures forall n :: n in b1[|b0|..] ==> n in s1 && n in recipes
    ensures forall n :: n in s1 ==> n in s0 || n in b1[|b0|..]
  {
    hide NeedsMet;
  }

  /** n is needed by the node, directly or through others. */
  ghost predicate NeededBy(recipes: RecipeBook, store: set<Node>, node: Node, n: Node) {
    exists d :: Lacking(recipes, store, node, d) && Reaches(recipes, store, d, n)
  }

  /** What was built for something the node lacks is needed by the node. */
  lemma NeededThrough(recipes: RecipeBook, s0: set<Node>, s1: set<Node>, node: Node, d: Node, n: Node)
    requires s0 <= s1 && Lacking(recipes, s0, node, d) && (n == d || NeededBy(recipes, s1, d, n))
    ensures NeededBy(recipes, s0, node, n)
  {
    if n == d {
      ReachesItself(recipes, s0, d);
    } else {
      var e :| Lacking(recipes, s1, d, e) && Reaches(recipes, s1, e, n);
      ReachesLess(recipes, s0, s1, e, n);
      assert Lacking(recipes, s0, d, e);
      ReachesThrough(recipes, s0, d, e, n);
    }
  }

  lemma NotNeededByItself(recipes: RecipeBook, store: set<Node>, node: Node)
    requires !Loops(recipes, store, node)
    ensures !NeededBy(recipes, store, node, node)
  {
    ReachesItself(recipes, store, node);
    assert NeededBy(recipes, store, node, node) ==> OnCycle(recipes, store, node);
  }

  /** A need that is not there loops no more than the node that needs it, and has a smaller height. */
  lemma NeedIsLower(recipes: RecipeBook, s0: set<Node>, s1: set<Node>, node: Node, d: Node)
    requires !Loops(recipes, s0, node) && s0 <= s1
    requires node in recipes && d in Needs(node, recipes[node]) && d !in s1
    ensures Lacking(recipes, s0, node, d) && !Loops(recipes, s1, d)
    ensures Height(recipes, s1, d) < Height(recipes, s0, node)
  {
    hide Loops, Height;
    HeightFalls(recipes, s0, s1, node, d);
    if Loops(recipes, s1, d) {
      LoopsLess(recipes, s0, s1, d);
      LoopsThrough(recipes, s0, node, d);
    }
  }

  /** The first i needs were seen to as the script's recursion does. */
  ghost predicate SeenTo(recipes: RecipeBook, node: Node, needs: seq<Node>, i: nat, s0: set<Node>, now: set<Node>)
    requires i <= |needs|
  {
    exists depth: nat :: AttemptAll(recipes, depth, node, needs[..i], s0) == Done(now)
  }

  lemma SeenToNothing(recipes: RecipeBook, node: Node, needs: seq<Node>, s0: set<Node>)
    ensures SeenTo(recipes, node, needs, 0, s0, s0)
  {
    assert AttemptAll(recipes, 0, node, needs[..0], s0) == Done(s0);
  }

  lemma SeenToThere(recipes: RecipeBook, node: Node, needs: seq<Node>, i: nat, s0: set<Node>, now: set<Node>)
    requires i < |needs| && SeenTo(recipes, node, needs, i, s0, now)
    requires needs[i] in now && (needs[i] in recipes || NotLookedUp(now, node, needs[i]))
    ensures SeenTo(recipes, node, needs, i + 1, s0, now)
  {
    var depth: nat :| AttemptAll(recipes, depth, node, needs[..i], s0) == Done(now);
    assert needs[..i + 1][..i] == needs[..i];
    assert AttemptAll(recipes, depth, node, needs[..i + 1], s0) == Done(now);
  }

  lemma SeenToBuilt(recipes: RecipeBook, node: Node, needs: seq<Node>, i: nat, s0: set<Node>,
                    s1: set<Node>, s2: set<Node>)
    requires i < |needs| && SeenTo(recipes, node, needs, i, s0, s1)
    requires needs[i] in recipes && needs[i] !in s1 && EndsWith(recipes, needs[i], s1, s2)
    ensures SeenTo(recipes, node, needs, i + 1, s0, s2)
  {
    var d1: nat :| AttemptAll(recipes, d1, node, needs[..i], s0) == Done(s1);
    var d2: nat :| Attempt(recipes, d2, needs[i], s1) == Done(s2);
    var depth := if d1 < d2 then d2 else d1;
    DeeperAttemptAll(recipes, d1, depth, node, needs[..i], s0);
    DeeperAttempt(recipes, d2, depth, needs[i], s1);
    assert needs[..i + 1][..i] == needs[..i];
    assert AttemptAll(recipes, depth, node, needs[..i + 1], s0) == Done(s2);
  }

  lemma SeenToAll(recipes: RecipeBook, node: Node, s0: set<Node>, now: set<Node>)
    requires node in recipes
    requires SeenTo(recipes, node, Needs(node, recipes[node]), |Needs(node, recipes[node])|, s0, now)
    ensures EndsWith(recipes, node, s0, now + {node})
  {
    var needs := Needs(node, recipes[node]);
    assert needs[..|needs|] == needs;
    var depth: nat :| AttemptAll(recipes, depth, node, needs, s0) == Done(now);
    assert Attempt(recipes, depth + 1, node, s0) == Done(now + {node});
  }

  /** Builds what is needed and then the node itself, whose own steps may fail. It is asked only that nothing the
      node would have built needs itself. A build that does not fail is a run of the script's recursion. */
  method Build(recipes: RecipeBook, node: Node, w: World) returns (ok: bool)
    requires node in recipes
    requires Closed(recipes, w.store) && !Loops(recipes, w.store, node)
    modifies w
    ensures node !in old(w.store) ==> Progress(recipes, old(w.store), old(w.built), w.store, w.built)
    ensures Closed(recipes, w.store) && old(w.store) <= w.store && old(w.built) <= w.built
    ensures forall n :: n in w.built[|old(w.built)|..] ==> n !in old(w.store) || n == node
    ensures forall n :: n in w.store && n !in old(w.store) ==>
              n in recipes && (n == node || NeededBy(recipes, old(w.store), node, n))
    ensures ok ==> node in w.store && w.built != old(w.built) && w.built[|w.built| - 1] == node
    ensures ok ==> EndsWith(recipes, node, old(w.store), w.store)
    ensures ok ==> FieldsMet(w.store, node, recipes[node])
    ensures forall n :: n in w.store && n !in old(w.store) ==>
              n in recipes && FieldsMet(w.store, n, recipes[n]) && NamedBy(recipes, node, n)
    decreases Height(recipes, w.store, node)
  {
    hide InOrder, Closed, Progress, Needs, Loops, Height, EndsWith, NeededBy, SeenTo, FieldsMet, NamedBy;
    var needs := Needs(node, recipes[node]);
    ghost var s0, b0 := w.store, w.built;
    NoProgress(recipes, s0, b0);
    SeenToNothing(recipes, node, needs, s0);
    for i := 0 to |needs|
      invariant Progress(recipes, s0, b0, w.store, w.built) && b0 <= w.built && s0 <= w.store
      invariant forall n :: n in w.built[|b0|..] ==> n !in s0
      invariant forall n :: n in w.store && n !in s0 ==> n in recipes && NeededBy(recipes, s0, node, n)
      invariant forall k :: 0 <= k < i ==> needs[k] in w.store
      invariant SeenTo(recipes, node, needs, i, s0, w.store)
    {
      var d := needs[i];
      if d in w.store && node.Host? && d.Source? {
        SeenToThere(recipes, node, needs, i, s0, w.store);
        continue;
      }
      if d !in recipes {
        ProgressMeans(recipes, s0, b0, w.store, w.built);
        NewByField(recipes, s0, w.store, node);
        return false;
      }
      if d in w.store {
        SeenToThere(recipes, node, needs, i, s0, w.store);
        continue;
      }
      ghost var s1, b1 := w.store, w.built;
      ProgressMeans(recipes, s0, b0, s1, b1);
      NeedIsLower(recipes, s0, s1, node, d);
      ok := Build(recipes, d, w);
      ProgressMeans(recipes, s1, b1, w.store, w.built);
      ProgressChains(recipes, s0, b0, s1, b1, w.store, w.built);
      forall n | n in w.store && n !in s1
        ensures NeededBy(recipes, s0, node, n)
      {
        NeededThrough(recipes, s0, s1, node, d, n);
      }
      if !ok {
        ProgressMeans(recipes, s0, b0, w.store, w.built);
        NewByField(recipes, s0, w.store, node);
        return false;
      }
      SeenToBuilt(recipes, node, needs, i, s0, s1, w.store);
    }
    ProgressMeans(recipes, s0, b0, w.store, w.built);
    NotNeededByItself(recipes, s0, node);
    ok := *;
    if ok {
      ghost var s1, b1 := w.store, w.built;
      w.store := w.store + {node};
      w.built := w.built + [node];
      SeenToAll(recipes, node, s0, s1);
      OneMore(recipes, s1, b1, node);
      ProgressMeans(recipes, s1, b1, w.store, w.built);
      assert w.built[|b0|..] == b1[|b0|..] + [node];
      if node !in s0 {
        ProgressChains(recipes, s0, b0, s1, b1, w.store, w.built);
      }
      StoredByField(recipes, w.store, node);
    }
    NewByField(recipes, s0, w.store, node);
  }

  lemma StoredByField(recipes: RecipeBook, store: set<Node>, n: Node)
    requires Closed(recipes, store) && n in store && n in recipes
    ensures FieldsMet(store, n, recipes[n])
  {
    assert NeedsMet(recipes, store, n);
    MetByField(recipes, store, n);
  }

  lemma NewByField(recipes: RecipeBook, s0: set<Node>, store: set<Node>, node: Node)
    requires Closed(recipes, store)
    requires forall n :: n in store && n !in s0 ==> n in recipes && (n == node || NeededBy(recipes, s0, node, n))
    ensures forall n :: n in store && n !in s0 ==> FieldsMet(store, n, recipes[n]) && NamedBy(recipes, node, n)
  {
    hide Closed, FieldsMet, NamedBy;
    forall n | n in store && n !in s0
      ensures FieldsMet(store, n, recipes[n]) && NamedBy(recipes, node, n)
    {
      StoredByField(recipes, store, n);
      ReachesItself(recipes, s0, node);
      if n != node {
        var d :| Lacking(recipes, s0, node, d) && Reaches(recipes, s0, d, n);
        ReachesThrough(recipes, s0, node, d, n);
      }
      ReachedIsNamed(recipes, s0, node, n);
    }
  }

  lemma OneMore(recipes: RecipeBook, store: set<Node>, built: seq<Node>, node: Node)
    requires node in recipes && Closed(recipes, store) && NeedsMet(recipes, store, node)
    ensures Progress(recipes, store, built, store + {node}, built + [node])
  {
    var more := (built + [node])[|built|..];
    assert more == [node];
    assert Elements(more) == {node};
    assert store + Elements(more[..0]) == store;
  }

  /** The build command: the packages named on its command line, each built whether it is there or not. */
  method CmdBuild(recipes: RecipeBook, names: seq<Name>, w: World) returns (ok: bool)
    requires Closed(recipes, w.store)
    requires forall k :: 0 <= k < |names| ==> !Loops(recipes, w.store, Target(names[k]))
    modifies w
    ensures Closed(recipes, w.store) && old(w.store) <= w.store
    ensures forall n :: n in w.store && n !in old(w.store) ==> n in recipes
    ensures ok ==> forall k :: 0 <= k < |names| ==>
              && Target(names[k]) in w.store && Target(names[k]) in recipes
              && FieldsMet(w.store, Target(names[k]), recipes[Target(names[k])])
    ensures (exists k :: 0 <= k < |names| && Target(names[k]) !in recipes) ==> !ok
  {
    hide Closed, Loops, Progress, EndsWith, NeededBy, FieldsMet, NamedBy;
    ghost var s0 := w.store;
    for i := 0 to |names|
      invariant Closed(recipes, w.store) && s0 <= w.store
      invariant forall n :: n in w.store && n !in s0 ==> n in recipes
      invariant forall k :: 0 <= k < i ==> Target(names[k]) in w.store && Target(names[k]) in recipes
    {
      if Target(names[i]) !in recipes {
        return false;
      }
      if Loops(recipes, w.store, Target(names[i])) {
        LoopsLess(recipes, s0, w.store, Target(names[i]));
      }
      ok := Build(recipes, Target(names[i]), w);
      if !ok {
        return false;
      }
    }
    forall k | 0 <= k < |names|
      ensures FieldsMet(w.store, Target(names[k]), recipes[Target(names[k])])
    {
      StoredByField(recipes, w.store, Target(names[k]));
    }
    return true;
  }

  // ----- what a closed store and a finished build mean -----

  /** Each node on the path needs the next. */
  ghost predicate IsPath(recipes: RecipeBook, path: seq<Node>) {
    path != [] && forall i :: 0 <= i < |path| - 1 ==> path[i] in recipes && path[i + 1] in Needs(path[i], recipes[path[i]])
  }

  /** In a closed store whatever a stored package needs, directly or through others, is stored. */
  lemma {:induction false} ClosedHoldsAllNeeds(recipes: RecipeBook, store: set<Node>, path: seq<Node>)
    requires Closed(recipes, store) && IsPath(recipes, path) && path[0] in store
    ensures path[|path| - 1] in store
    decreases |path|
  {
    if |path| > 1 {
      assert NeedsMet(recipes, store, path[0]);
      ClosedHoldsAllNeeds(recipes, store, path[1..]);
    }
  }

  /** Where each node was built after all it needs, the position falls along every path of needs among the nodes
      built, so no path comes back to where it began. */
  lemma {:induction false} OrderHasNoCycle(recipes: RecipeBook, before: set<Node>, built: seq<Node>,
          path: seq<Node>, at: nat)
    requires InOrder(recipes, before, built)
    requires IsPath(recipes, path) && |path| > 1
    requires forall i :: 0 <= i < |path| ==> path[i] !in before
    requires at < |built| && built[at] == path[0]
    ensures path[|path| - 1] in built[..at]
    ensures path[|path| - 1] != path[0]
    decreases |path|
  {
    assert NeedsMet(recipes, before + Elements(built[..at]), built[at]);
    assert path[1] in built[..at];
    var next :| 0 <= next < at && built[next] == path[1];
    if |path| > 2 {
      OrderHasNoCycle(recipes, before, built, path[1..], next);
      assert built[..next] <= built[..at];
    }
  }
}
