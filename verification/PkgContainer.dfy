/** Preparing a build container: once what it needs is built, everything the walks list is there to install. */
module PkgContainer {
  import opened Recipes
  import opened PkgBuild
  import opened PkgGraph
  import DepWalk

  function TargetRecipes(recipes: RecipeBook): map<Name, Recipe> {
    map node | node in recipes && node.Target? :: node.name := recipes[node]
  }

  function HostRecipes(recipes: RecipeBook): map<Name, Recipe> {
    map node | node in recipes && node.Host? :: node.name := recipes[node]
  }

  lemma TargetRecipe(recipes: RecipeBook, n: Name)
    ensures n in TargetRecipes(recipes) <==> Target(n) in recipes
    ensures n in TargetRecipes(recipes) ==> TargetRecipes(recipes)[n] == recipes[Target(n)]
  {
    if Target(n) in recipes {
      assert Target(n).name in TargetRecipes(recipes);
    }
  }

  lemma HostRecipe(recipes: RecipeBook, n: Name)
    ensures n in HostRecipes(recipes) <==> Host(n) in recipes
    ensures n in HostRecipes(recipes) ==> HostRecipes(recipes)[n] == recipes[Host(n)]
  {
    if Host(n) in recipes {
      assert Host(n).name in HostRecipes(recipes);
    }
  }

  /** Every stored package has a recipe and all it needs is stored. */
  ghost predicate Complete(recipes: RecipeBook, store: set<Node>) {
    Closed(recipes, store) && forall n :: n in store ==> n in recipes
  }

  lemma NeedsStored(recipes: RecipeBook, store: set<Node>, node: Node, d: Node)
    requires Complete(recipes, store) && node in store && d in Needs(node, recipes[node])
    ensures d in store
  {
    assert NeedsMet(recipes, store, node);
  }

  lemma TargetNeeded(names: seq<Name>, n: Name)
    requires n in names
    ensures Target(n) in TargetNodes(names)
  {
    var i :| 0 <= i < |names| && names[i] == n;
    assert TargetNodes(names)[i] == Target(n);
  }

  lemma HostNeeded(names: seq<Name>, n: Name)
    requires n in names
    ensures Host(n) in HostNodes(names)
  {
    var i :| 0 <= i < |names| && names[i] == n;
    assert HostNodes(names)[i] == Host(n);
  }

  /** Along a path of `deps` from a stored package everything is stored. */
  lemma {:induction false} TargetPathStored(recipes: RecipeBook, store: set<Node>, path: seq<Name>)
    requires Complete(recipes, store)
    requires DepWalk.IsPath(DepWalk.RunGraph(TargetRecipes(recipes)), path) && Target(path[0]) in store
    ensures Target(path[|path| - 1]) in store
    decreases |path|
  {
    if |path| > 1 {
      var n := |path| - 1;
      var front := path[..n];
      assert DepWalk.IsPath(DepWalk.RunGraph(TargetRecipes(recipes)), front);
      TargetPathStored(recipes, store, front);
      TargetRecipe(recipes, path[n - 1]);
      TargetNeeded(recipes[Target(path[n - 1])].deps, path[n]);
      NeedsStored(recipes, store, Target(path[n - 1]), Target(path[n]));
    }
  }

  lemma {:induction false} HostPathStored(recipes: RecipeBook, store: set<Node>, path: seq<Name>)
    requires Complete(recipes, store)
    requires DepWalk.IsPath(DepWalk.HostRunGraph(HostRecipes(recipes)), path) && Host(path[0]) in store
    ensures Host(path[|path| - 1]) in store
    decreases |path|
  {
    if |path| > 1 {
      var n := |path| - 1;
      var front := path[..n];
      assert DepWalk.IsPath(DepWalk.HostRunGraph(HostRecipes(recipes)), front);
      HostPathStored(recipes, store, front);
      HostRecipe(recipes, path[n - 1]);
      HostNeeded(recipes[Host(path[n - 1])].hostrundeps, path[n]);
      NeedsStored(recipes, store, Host(path[n - 1]), Host(path[n]));
    }
  }

  ghost predicate ContainerReady(store: set<Node>, r: Recipe) {
    forall d :: d in ContainerNeeds(r) ==> d in store
  }

  /** All the target packages the walk can reach are stored, and have a recipe. */
  lemma ReachableTargetStored(recipes: RecipeBook, store: set<Node>, r: Recipe, n: Name)
    requires Complete(recipes, store) && ContainerReady(store, r)
    requires DepWalk.Reachable(DepWalk.RunGraph(TargetRecipes(recipes)), r.deps + r.builddeps, n)
    ensures Target(n) in store && n in DepWalk.RunGraph(TargetRecipes(recipes))
  {
    var path :| DepWalk.LeadsTo(DepWalk.RunGraph(TargetRecipes(recipes)), r.deps + r.builddeps, path, n);
    if path[0] in r.deps {
      TargetNeeded(r.deps, path[0]);
    } else {
      TargetNeeded(r.builddeps, path[0]);
    }
    TargetPathStored(recipes, store, path);
    TargetRecipe(recipes, n);
  }

  lemma ReachableHostStored(recipes: RecipeBook, store: set<Node>, r: Recipe, n: Name)
    requires Complete(recipes, store) && ContainerReady(store, r)
    requires DepWalk.Reachable(DepWalk.HostRunGraph(HostRecipes(recipes)), r.hostdeps + r.hostrundeps, n)
    ensures Host(n) in store && n in DepWalk.HostRunGraph(HostRecipes(recipes))
  {
    var path :| DepWalk.LeadsTo(DepWalk.HostRunGraph(HostRecipes(recipes)), r.hostdeps + r.hostrundeps, path, n);
    if path[0] in r.hostdeps {
      HostNeeded(r.hostdeps, path[0]);
    } else {
      HostNeeded(r.hostrundeps, path[0]);
    }
    HostPathStored(recipes, store, path);
    HostRecipe(recipes, n);
  }

  /** Lists what goes into the container of a recipe whose direct needs are built. It cannot fail, and every
      package listed is there to be installed or unpacked. */
  method ListPackages(recipes: RecipeBook, r: Recipe, ghost store: set<Node>)
      returns (ok: bool, hostdepsFile: DepWalk.MarkerFile, depsFile: DepWalk.MarkerFile)
    requires Complete(recipes, store) && ContainerReady(store, r)
    ensures ok && fresh(hostdepsFile) && fresh(depsFile)
    ensures DepWalk.Collected(DepWalk.HostRunGraph(HostRecipes(recipes)), r.hostdeps + r.hostrundeps, hostdepsFile.names)
    ensures DepWalk.Collected(DepWalk.RunGraph(TargetRecipes(recipes)), r.deps + r.builddeps, depsFile.names)
    ensures forall n :: n in hostdepsFile.names ==> Host(n) in store
    ensures forall n :: n in depsFile.names ==> Target(n) in store
  {
    hide DepWalk.RunGraph, DepWalk.HostRunGraph, DepWalk.Reachable, DepWalk.NoDuplicates, Complete, ContainerReady;
    hostdepsFile := new DepWalk.MarkerFile();
    depsFile := new DepWalk.MarkerFile();
    forall n | DepWalk.Reachable(DepWalk.HostRunGraph(HostRecipes(recipes)), r.hostdeps + r.hostrundeps, n)
      ensures Host(n) in store && n in DepWalk.HostRunGraph(HostRecipes(recipes))
    {
      ReachableHostStored(recipes, store, r, n);
    }
    forall n | DepWalk.Reachable(DepWalk.RunGraph(TargetRecipes(recipes)), r.deps + r.builddeps, n)
      ensures Target(n) in store && n in DepWalk.RunGraph(TargetRecipes(recipes))
    {
      ReachableTargetStored(recipes, store, r, n);
    }
    var hostsListed := DepWalk.GetHostdepsFile(r, HostRecipes(recipes), hostdepsFile);
    var targetsListed := DepWalk.GetBuilddepsFile(r, TargetRecipes(recipes), depsFile);
    ok := hostsListed && targetsListed;
  }
}
