/** What each package needs before its own steps run, and when chains of such needs come to an end. */
module PkgGraph {
  import opened Counting
  import opened Recipes

  datatype Node = Host(name: Name) | Target(name: Name) | Source(name: Name)

  type RecipeBook = map<Node, Recipe>

  function HostNodes(names: seq<Name>): (nodes: seq<Node>)
    ensures |nodes| == |names| && forall i :: 0 <= i < |names| ==> nodes[i] == Host(names[i])
  {
    seq(|names|, i requires 0 <= i < |names| => Host(names[i]))
  }

  function TargetNodes(names: seq<Name>): (nodes: seq<Node>)
    ensures |nodes| == |names| && forall i :: 0 <= i < |names| ==> nodes[i] == Target(names[i])
  {
    seq(|names|, i requires 0 <= i < |names| => Target(names[i]))
  }

  function SourceNodes(names: seq<Name>): (nodes: seq<Node>)
    ensures |nodes| == |names| && forall i :: 0 <= i < |names| ==> nodes[i] == Source(names[i])
  {
    seq(|names|, i requires 0 <= i < |names| => Source(names[i]))
  }

  /** What the build container of a recipe needs. */
  function ContainerNeeds(r: Recipe): seq<Node> {
    HostNodes(r.hostdeps) + HostNodes(r.hostrundeps) + TargetNodes(r.deps) + TargetNodes(r.builddeps)
  }

  /** What has to be there before a package's own steps run, in the order it is looked for. */
  function Needs(node: Node, r: Recipe): seq<Node> {
    match node
    case Host(_) => ContainerNeeds(r) + SourceNodes(r.fromSource)
    case Target(name) =>
      SourceNodes(r.fromSource) + ContainerNeeds(r) + (if r.hasOwnSource then [Source(name)] else [])
    case Source(_) => ContainerNeeds(r)
  }

  // ----- the same, field by field of the recipe -----

  /** The recipe r of a node names d in the field that d's kind is looked up in. */
  predicate Names(node: Node, r: Recipe, d: Node) {
    match d
    case Host(n) => n in r.hostdeps || n in r.hostrundeps
    case Target(n) => n in r.deps || n in r.builddeps
    case Source(n) => (!node.Source? && n in r.fromSource) || (node.Target? && r.hasOwnSource && n == node.name)
  }

  /** What has to be there is what the fields of the recipe name, nothing more and nothing less. */
  lemma NeedsAreFields(node: Node, r: Recipe, d: Node)
    ensures d in Needs(node, r) <==> Names(node, r, d)
  {
    InHostNodes(r.hostdeps, d);
    InHostNodes(r.hostrundeps, d);
    InTargetNodes(r.deps, d);
    InTargetNodes(r.builddeps, d);
    InSourceNodes(r.fromSource, d);
    hide HostNodes, TargetNodes, SourceNodes;
  }

  lemma InHostNodes(names: seq<Name>, d: Node)
    ensures d in HostNodes(names) <==> d.Host? && d.name in names
  {
    if d.Host? && d.name in names {
      var i :| 0 <= i < |names| && names[i] == d.name;
      assert HostNodes(names)[i] == d;
    }
  }

  lemma InTargetNodes(names: seq<Name>, d: Node)
    ensures d in TargetNodes(names) <==> d.Target? && d.name in names
  {
    if d.Target? && d.name in names {
      var i :| 0 <= i < |names| && names[i] == d.name;
      assert TargetNodes(names)[i] == d;
    }
  }

  lemma InSourceNodes(names: seq<Name>, d: Node)
    ensures d in SourceNodes(names) <==> d.Source? && d.name in names
  {
    if d.Source? && d.name in names {
      var i :| 0 <= i < |names| && names[i] == d.name;
      assert SourceNodes(names)[i] == d;
    }
  }

  /** From node to m by steps along the fields of recipes. */
  ghost predicate NamedAlong(recipes: RecipeBook, path: seq<Node>, node: Node, m: Node) {
    && path != [] && path[0] == node && path[|path| - 1] == m
    && forall i :: 0 <= i < |path| - 1 ==> path[i] in recipes && Names(path[i], recipes[path[i]], path[i + 1])
  }

  ghost predicate NamedBy(recipes: RecipeBook, node: Node, m: Node) {
    exists path :: NamedAlong(recipes, path, node, m)
  }

  // ----- chains of needs among what is not there yet -----

  /** n needs d, and d is not in the store. */
  ghost predicate Lacking(recipes: RecipeBook, store: set<Node>, n: Node, d: Node) {
    n in recipes && d in Needs(n, recipes[n]) && d !in store
  }

  ghost predicate IsChain(recipes: RecipeBook, store: set<Node>, chain: seq<Node>) {
    forall i :: 0 <= i < |chain| - 1 ==> Lacking(recipes, store, chain[i], chain[i + 1])
  }

  ghost predicate Leads(recipes: RecipeBook, store: set<Node>, n: Node, m: Node, chain: seq<Node>) {
    chain != [] && IsChain(recipes, store, chain) && chain[0] == n && chain[|chain| - 1] == m
  }

  /** m is n, or n needs it, directly or through others, and none of these is in the store. */
  ghost predicate Reaches(recipes: RecipeBook, store: set<Node>, n: Node, m: Node) {
    exists chain :: Leads(recipes, store, n, m, chain)
  }

  /** Through others or directly, n needs itself. */
  ghost predicate OnCycle(recipes: RecipeBook, store: set<Node>, n: Node) {
    exists d :: Lacking(recipes, store, n, d) && Reaches(recipes, store, d, n)
  }

  /** Something n reaches needs itself. */
  ghost predicate Loops(recipes: RecipeBook, store: set<Node>, n: Node) {
    exists m :: Reaches(recipes, store, n, m) && OnCycle(recipes, store, m)
  }

  lemma ReachesItself(recipes: RecipeBook, store: set<Node>, n: Node)
    ensures Reaches(recipes, store, n, n)
  {
    assert Leads(recipes, store, n, n, [n]);
  }

  lemma ReachesThrough(recipes: RecipeBook, store: set<Node>, n: Node, d: Node, m: Node)
    requires Lacking(recipes, store, n, d) && Reaches(recipes, store, d, m)
    ensures Reaches(recipes, store, n, m)
  {
    var chain :| Leads(recipes, store, d, m, chain);
    assert Leads(recipes, store, n, m, [n] + chain);
  }

  /** What is reached is n itself or reached through something lacking. */
  lemma FirstStep(recipes: RecipeBook, store: set<Node>, n: Node, m: Node) returns (d: Node)
    requires Reaches(recipes, store, n, m) && n != m
    ensures Lacking(recipes, store, n, d) && Reaches(recipes, store, d, m)
  {
    var chain :| Leads(recipes, store, n, m, chain);
    d := chain[1];
    assert Leads(recipes, store, d, m, chain[1..]);
  }

  /** With more in the store less is lacking. */
  lemma ReachesLess(recipes: RecipeBook, store: set<Node>, more: set<Node>, n: Node, m: Node)
    requires store <= more && Reaches(recipes, more, n, m)
    ensures Reaches(recipes, store, n, m)
  {
    var chain :| Leads(recipes, more, n, m, chain);
    assert Leads(recipes, store, n, m, chain);
  }

  lemma LoopsLess(recipes: RecipeBook, store: set<Node>, more: set<Node>, n: Node)
    requires store <= more && Loops(recipes, more, n)
    ensures Loops(recipes, store, n)
  {
    var m :| Reaches(recipes, more, n, m) && OnCycle(recipes, more, m);
    var d :| Lacking(recipes, more, m, d) && Reaches(recipes, more, d, m);
    ReachesLess(recipes, store, more, n, m);
    ReachesLess(recipes, store, more, d, m);
    assert Lacking(recipes, store, m, d);
  }

  lemma LoopsThrough(recipes: RecipeBook, store: set<Node>, n: Node, d: Node)
    requires Lacking(recipes, store, n, d) && Loops(recipes, store, d)
    ensures Loops(recipes, store, n)
  {
    var m :| Reaches(recipes, store, d, m) && OnCycle(recipes, store, m);
    ReachesThrough(recipes, store, n, d, m);
  }

  lemma ReachedIsNamed(recipes: RecipeBook, store: set<Node>, n: Node, m: Node)
    requires Reaches(recipes, store, n, m)
    ensures NamedBy(recipes, n, m)
  {
    hide Needs, Names;
    var chain :| Leads(recipes, store, n, m, chain);
    forall i | 0 <= i < |chain| - 1
      ensures chain[i] in recipes && Names(chain[i], recipes[chain[i]], chain[i + 1])
    {
      assert Lacking(recipes, store, chain[i], chain[i + 1]);
      NeedsAreFields(chain[i], recipes[chain[i]], chain[i + 1]);
    }
    assert NamedAlong(recipes, chain, n, m);
  }

  // ----- without a loop every chain ends -----

  /** No chain of needs from n has more than `fuel` links. */
  ghost predicate Grounded(recipes: RecipeBook, store: set<Node>, fuel: nat, n: Node) {
    fuel > 0 && forall d :: Lacking(recipes, store, n, d) ==> Grounded(recipes, store, fuel - 1, d)
  }

  lemma {:induction false} GroundedMore(recipes: RecipeBook, store: set<Node>, fuel: nat, more: nat, n: Node)
    requires fuel <= more && Grounded(recipes, store, fuel, n)
    ensures Grounded(recipes, store, more, n)
  {
    forall d | Lacking(recipes, store, n, d)
      ensures Grounded(recipes, store, more - 1, d)
    {
      GroundedMore(recipes, store, fuel - 1, more - 1, d);
    }
  }

  lemma {:induction false} GroundedLess(recipes: RecipeBook, store: set<Node>, more: set<Node>, fuel: nat, n: Node)
    requires store <= more && Grounded(recipes, store, fuel, n)
    ensures Grounded(recipes, more, fuel, n)
  {
    forall d | Lacking(recipes, more, n, d)
      ensures Grounded(recipes, more, fuel - 1, d)
    {
      assert Lacking(recipes, store, n, d);
      GroundedLess(recipes, store, more, fuel - 1, d);
    }
  }

  /** A chain that comes back to a node it has passed shows a loop. */
  lemma RepeatLoops(recipes: RecipeBook, store: set<Node>, chain: seq<Node>, i: nat, j: nat)
    requires IsChain(recipes, store, chain) && i < j < |chain| && chain[i] == chain[j]
    ensures Loops(recipes, store, chain[0])
  {
    assert Leads(recipes, store, chain[0], chain[i], chain[..i + 1]);
    assert Leads(recipes, store, chain[i + 1], chain[j], chain[i + 1..j + 1]);
    assert Lacking(recipes, store, chain[i], chain[i + 1]);
    assert OnCycle(recipes, store, chain[i]);
  }

  ghost function Members(s: seq<Node>): set<Node> {
    set n | n in s
  }

  lemma {:induction false} DistinctMembers(s: seq<Node>)
    requires forall i, j :: 0 <= i < j < |s| ==> s[i] != s[j]
    ensures |Members(s)| == |s|
  {
    if s != [] {
      var n := |s| - 1;
      DistinctMembers(s[..n]);
      assert Members(s) == Members(s[..n]) + {s[n]};
      assert s[n] !in Members(s[..n]);
    }
  }

  /** A chain without a repetition has at most one node that is not in the recipe book. */
  lemma ChainIsShort(recipes: RecipeBook, store: set<Node>, chain: seq<Node>)
    requires chain != [] && IsChain(recipes, store, chain) && !Loops(recipes, store, chain[0])
    ensures |chain| <= |recipes| + 1
  {
    var front := chain[..|chain| - 1];
    forall i, j | 0 <= i < j < |front|
      ensures front[i] != front[j]
    {
      if front[i] == front[j] {
        RepeatLoops(recipes, store, chain, i, j);
      }
    }
    DistinctMembers(front);
    forall n | n in Members(front)
      ensures n in recipes.Keys
    {
      var i :| 0 <= i < |front| && front[i] == n;
      assert Lacking(recipes, store, chain[i], chain[i + 1]);
    }
    SubsetSize(Members(front), recipes.Keys);
  }

  lemma {:induction false} GroundedAlong(recipes: RecipeBook, store: set<Node>, chain: seq<Node>, fuel: nat)
    requires chain != [] && IsChain(recipes, store, chain) && !Loops(recipes, store, chain[0])
    requires fuel + |chain| == |recipes| + 2
    ensures Grounded(recipes, store, fuel, chain[|chain| - 1])
    decreases fuel
  {
    hide Loops, Lacking;
    ChainIsShort(recipes, store, chain);
    var last := chain[|chain| - 1];
    forall d | Lacking(recipes, store, last, d)
      ensures Grounded(recipes, store, fuel - 1, d)
    {
      GroundedAlong(recipes, store, chain + [d], fuel - 1);
    }
  }

  /** If n reaches no loop, no chain of needs from n is longer than the recipe book. */
  lemma NoLoopIsGrounded(recipes: RecipeBook, store: set<Node>, n: Node)
    requires !Loops(recipes, store, n)
    ensures Grounded(recipes, store, |recipes| + 1, n)
  {
    GroundedAlong(recipes, store, [n], |recipes| + 1);
  }

  // ----- and there is a rank that falls along every need -----

  /** The length of the longest chain of needs from n, if it is at most `bound`. */
  ghost function HeightUpTo(recipes: RecipeBook, store: set<Node>, n: Node, bound: nat): (h: nat)
    ensures h <= bound
    ensures Grounded(recipes, store, bound, n) ==> Grounded(recipes, store, h, n)
    ensures forall f: nat :: f <= bound && Grounded(recipes, store, f, n) ==> h <= f
  {
    if bound == 0 then 0
    else if Grounded(recipes, store, bound - 1, n) then HeightUpTo(recipes, store, n, bound - 1)
    else
      NotGroundedBelow(recipes, store, n, bound);
      bound
  }

  lemma NotGroundedBelow(recipes: RecipeBook, store: set<Node>, n: Node, bound: nat)
    requires bound > 0 && !Grounded(recipes, store, bound - 1, n)
    ensures forall f: nat :: f < bound ==> !Grounded(recipes, store, f, n)
  {
    forall f: nat | f < bound
      ensures !Grounded(recipes, store, f, n)
    {
      if Grounded(recipes, store, f, n) {
        GroundedMore(recipes, store, f, bound - 1, n);
      }
    }
  }

  ghost function Height(recipes: RecipeBook, store: set<Node>, n: Node): nat {
    HeightUpTo(recipes, store, n, |recipes| + 1)
  }

  /** Where there is no loop, the height falls along every need, and does not rise as the store grows. */
  lemma HeightFalls(recipes: RecipeBook, store: set<Node>, more: set<Node>, n: Node, d: Node)
    requires !Loops(recipes, store, n) && Lacking(recipes, store, n, d) && store <= more
    ensures Height(recipes, more, d) < Height(recipes, store, n)
  {
    NoLoopIsGrounded(recipes, store, n);
    var h := Height(recipes, store, n);
    assert Grounded(recipes, store, h, n);
    assert Grounded(recipes, store, h - 1, d);
    GroundedLess(recipes, store, more, h - 1, d);
  }
}
