/** Collecting the dependencies of a recipe: a recursive walk of separate processes that share one marker file. */
module DepWalk {
  import opened Counting
  import opened Recipes

  type Graph = map<Name, seq<Name>>

  /** Which recipes a target recipe pulls in when installed, and a host recipe when run. */
  function RunGraph(recipes: map<Name, Recipe>): Graph {
    map n | n in recipes :: recipes[n].deps
  }

  function HostRunGraph(recipes: map<Name, Recipe>): Graph {
    map n | n in recipes :: recipes[n].hostrundeps
  }

  // ----- reachability -----

  /** Each name on the path is a dependency of the one before it. */
  ghost predicate IsPath(g: Graph, path: seq<Name>) {
    path != [] && forall i :: 0 <= i < |path| - 1 ==> path[i] in g && path[i + 1] in g[path[i]]
  }

  ghost predicate LeadsTo(g: Graph, roots: seq<Name>, path: seq<Name>, n: Name) {
    IsPath(g, path) && path[0] in roots && path[|path| - 1] == n
  }

  ghost predicate Reachable(g: Graph, roots: seq<Name>, n: Name) {
    exists path :: LeadsTo(g, roots, path, n)
  }

  lemma RootReachable(g: Graph, roots: seq<Name>, n: Name)
    requires n in roots
    ensures Reachable(g, roots, n)
  {
    assert LeadsTo(g, roots, [n], n);
  }

  /** What is reachable from the dependencies of a root is reachable from the roots. */
  lemma ReachableThrough(g: Graph, roots: seq<Name>, r: Name, n: Name)
    requires r in roots && r in g && Reachable(g, g[r], n)
    ensures Reachable(g, roots, n)
  {
    var path :| LeadsTo(g, g[r], path, n);
    assert LeadsTo(g, roots, [r] + path, n);
  }

  /** A set of names that holds the roots and the dependencies of each member holds all that is reachable. */
  lemma {:induction false} ClosedHoldsReachable(g: Graph, roots: seq<Name>, names: seq<Name>, path: seq<Name>)
    requires forall r :: r in roots ==> r in names
    requires forall n :: n in names ==> n in g && forall d :: d in g[n] ==> d in names
    requires IsPath(g, path) && path[0] in roots
    ensures path[|path| - 1] in names
    decreases |path|
  {
    if |path| > 1 {
      var front := path[..|path| - 1];
      assert IsPath(g, front);
      ClosedHoldsReachable(g, roots, names, front);
    }
  }

  // ----- the walk -----

  class MarkerFile {
    var names: seq<Name>

    constructor ()
      ensures names == []
    {
      names := [];
    }
  }

  ghost predicate NoDuplicates(names: seq<Name>) {
    forall i, j :: 0 <= i < j < |names| ==> names[i] != names[j]
  }

  ghost function Unmarked(g: Graph, names: seq<Name>): set<Name> {
    set n | n in g && n !in names
  }

  /** The first loop of a process: note and mark the names that are not in the file yet. */
  method MarkNew(wanted: seq<Name>, file: MarkerFile) returns (toDo: seq<Name>)
    modifies file
    ensures file.names == old(file.names) + toDo
    ensures forall n :: n in wanted ==> n in file.names
    ensures forall n :: n in toDo ==> n in wanted && n !in old(file.names)
    ensures NoDuplicates(old(file.names)) ==> NoDuplicates(file.names)
  {
    toDo := [];
    for i := 0 to |wanted|
      invariant file.names == old(file.names) + toDo
      invariant forall k :: 0 <= k < i ==> wanted[k] in file.names
      invariant forall n :: n in toDo ==> n in wanted && n !in old(file.names)
      invariant NoDuplicates(old(file.names)) ==> NoDuplicates(file.names)
    {
      if wanted[i] !in file.names {
        toDo := toDo + [wanted[i]];
        file.names := file.names + [wanted[i]];
      }
    }
  }

  /** A name is expanded when it has a recipe and all its dependencies are marked. */
  ghost predicate Expanded(g: Graph, names: seq<Name>, n: Name) {
    n in g && forall d :: d in g[n] ==> d in names
  }

  /** What a process has done to the file when it ends. */
  ghost predicate Walked(g: Graph, wanted: seq<Name>, before: seq<Name>, after: seq<Name>) {
    && before <= after
    && (NoDuplicates(before) ==> NoDuplicates(after))
    && (forall n :: n in after && n !in before ==> Reachable(g, wanted, n))
  }

  /** One process: mark the new names among those wanted, then run a process for each of them.
      It fails when a name to expand has no recipe, and a failed process fails the one that started it. */
  method Walk(g: Graph, wanted: seq<Name>, file: MarkerFile) returns (ok: bool)
    modifies file
    ensures Walked(g, wanted, old(file.names), file.names)
    ensures ok ==> forall n :: n in wanted ==> n in file.names
    ensures ok ==> forall n :: n in file.names && n !in old(file.names) ==> Expanded(g, file.names, n)
    ensures !ok ==> exists n :: Reachable(g, wanted, n) && n !in g
    decreases |Unmarked(g, file.names)|
  {
    var toDo := MarkNew(wanted, file);
    ghost var marked := file.names;
    forall n | n in toDo
      ensures Reachable(g, wanted, n)
    {
      RootReachable(g, wanted, n);
    }
    for i := 0 to |toDo|
      invariant marked <= file.names
      invariant Walked(g, wanted, old(file.names), file.names)
      invariant forall n :: n in file.names && n !in old(file.names) ==> n in toDo[i..] || Expanded(g, file.names, n)
    {
      var dep := toDo[i];
      if dep !in g {
        return false;
      }
      ghost var before := file.names;
      FewerUnmarked(g, old(file.names), before, dep);
      ok := Walk(g, g[dep], file);
      WalkedFurther(g, wanted, dep, old(file.names), before, file.names);
      if !ok {
        ghost var n :| Reachable(g, g[dep], n) && n !in g;
        ReachableThrough(g, wanted, dep, n);
        return false;
      }
    }
    return true;
  }

  lemma FewerUnmarked(g: Graph, before: seq<Name>, now: seq<Name>, dep: Name)
    requires before <= now && dep in g && dep !in before && dep in now
    ensures |Unmarked(g, now)| < |Unmarked(g, before)|
  {
    assert Unmarked(g, now) <= Unmarked(g, before) - {dep};
    SubsetSize(Unmarked(g, now), Unmarked(g, before) - {dep});
  }

  /** What a process started for one of the wanted names did, this process did. */
  lemma WalkedFurther(g: Graph, wanted: seq<Name>, dep: Name, start: seq<Name>, before: seq<Name>, after: seq<Name>)
    requires dep in wanted && dep in g
    requires Walked(g, wanted, start, before) && Walked(g, g[dep], before, after)
    ensures Walked(g, wanted, start, after)
  {
    forall n | n in after && n !in start
      ensures Reachable(g, wanted, n)
    {
      if n !in before {
        ReachableThrough(g, wanted, dep, n);
      }
    }
  }

  // ----- the four entry points -----

  /** The names collected from an empty file: exactly the reachable ones, each once. */
  ghost predicate Collected(g: Graph, roots: seq<Name>, names: seq<Name>) {
    && NoDuplicates(names)
    && forall n :: n in names <==> Reachable(g, roots, n)
  }

  ghost predicate AllRecipesExist(g: Graph, roots: seq<Name>) {
    forall n :: Reachable(g, roots, n) ==> n in g
  }

  /** Collects from an empty file. It succeeds exactly when everything reachable has a recipe. */
  method Collect(g: Graph, roots: seq<Name>, file: MarkerFile) returns (ok: bool)
    requires file.names == []
    modifies file
    ensures ok <==> AllRecipesExist(g, roots)
    ensures ok ==> Collected(g, roots, file.names)
  {
    ok := Walk(g, roots, file);
    if ok {
      forall n | Reachable(g, roots, n)
        ensures n in file.names
      {
        var path :| LeadsTo(g, roots, path, n);
        ClosedHoldsReachable(g, roots, file.names, path);
      }
    }
  }

  /** A dependency of the recipe in hand or to build it, then dependencies of dependencies: what the names on the
      path are called in the recipes. */
  ghost predicate PulledIn(recipe: Recipe, recipes: map<Name, Recipe>, path: seq<Name>, n: Name) {
    && path != [] && (path[0] in recipe.deps || path[0] in recipe.builddeps) && path[|path| - 1] == n
    && forall i :: 0 <= i < |path| - 1 ==> path[i] in recipes && path[i + 1] in recipes[path[i]].deps
  }

  /** The same for host packages. */
  ghost predicate PulledInByHost(recipe: Recipe, recipes: map<Name, Recipe>, path: seq<Name>, n: Name) {
    && path != [] && (path[0] in recipe.hostdeps || path[0] in recipe.hostrundeps) && path[|path| - 1] == n
    && forall i :: 0 <= i < |path| - 1 ==> path[i] in recipes && path[i + 1] in recipes[path[i]].hostrundeps
  }

  lemma ReachableIsPulledIn(recipe: Recipe, recipes: map<Name, Recipe>, n: Name)
    ensures Reachable(RunGraph(recipes), recipe.deps + recipe.builddeps, n) <==>
              exists path :: PulledIn(recipe, recipes, path, n)
  {
    var g, roots := RunGraph(recipes), recipe.deps + recipe.builddeps;
    if path :| LeadsTo(g, roots, path, n) {
      assert PulledIn(recipe, recipes, path, n);
    }
    if path :| PulledIn(recipe, recipes, path, n) {
      assert LeadsTo(g, roots, path, n);
    }
  }

  lemma ReachableIsPulledInByHost(recipe: Recipe, recipes: map<Name, Recipe>, n: Name)
    ensures Reachable(HostRunGraph(recipes), recipe.hostdeps + recipe.hostrundeps, n) <==>
              exists path :: PulledInByHost(recipe, recipes, path, n)
  {
    var g, roots := HostRunGraph(recipes), recipe.hostdeps + recipe.hostrundeps;
    if path :| LeadsTo(g, roots, path, n) {
      assert PulledInByHost(recipe, recipes, path, n);
    }
    if path :| PulledInByHost(recipe, recipes, path, n) {
      assert LeadsTo(g, roots, path, n);
    }
  }

  /** Dependencies to install for building a recipe: one `deps` or `builddeps` step, then `deps` steps. */
  method GetBuilddepsFile(recipe: Recipe, recipes: map<Name, Recipe>, file: MarkerFile) returns (ok: bool)
    requires file.names == []
    modifies file
    ensures ok <==> AllRecipesExist(RunGraph(recipes), recipe.deps + recipe.builddeps)
    ensures ok ==> Collected(RunGraph(recipes), recipe.deps + recipe.builddeps, file.names)
    ensures ok ==> forall n :: n in file.names <==> exists path :: PulledIn(recipe, recipes, path, n)
  {
    hide Reachable, PulledIn;
    ok := Collect(RunGraph(recipes), recipe.deps + recipe.builddeps, file);
    forall n
      ensures Reachable(RunGraph(recipes), recipe.deps + recipe.builddeps, n) <==>
                exists path :: PulledIn(recipe, recipes, path, n)
    {
      ReachableIsPulledIn(recipe, recipes, n);
    }
  }

  /** Host packages to unpack for building a recipe: one `hostdeps` or `hostrundeps` step, then `hostrundeps` steps. */
  method GetHostdepsFile(recipe: Recipe, hostRecipes: map<Name, Recipe>, file: MarkerFile) returns (ok: bool)
    requires file.names == []
    modifies file
    ensures ok <==> AllRecipesExist(HostRunGraph(hostRecipes), recipe.hostdeps + recipe.hostrundeps)
    ensures ok ==> Collected(HostRunGraph(hostRecipes), recipe.hostdeps + recipe.hostrundeps, file.names)
    ensures ok ==> forall n :: n in file.names <==> exists path :: PulledInByHost(recipe, hostRecipes, path, n)
  {
    hide Reachable, PulledInByHost;
    ok := Collect(HostRunGraph(hostRecipes), recipe.hostdeps + recipe.hostrundeps, file);
    forall n
      ensures Reachable(HostRunGraph(hostRecipes), recipe.hostdeps + recipe.hostrundeps, n) <==>
                exists path :: PulledInByHost(recipe, hostRecipes, path, n)
    {
      ReachableIsPulledInByHost(recipe, hostRecipes, n);
    }
  }
}
