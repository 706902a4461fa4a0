/** src/codex_workbench/accepted_source_repair.py: the cycle check and the
    reachability worklists that decide which accepted nodes a repair may touch or leave alone. */
module RepairGraph {
  import opened Options

  type Node = string

  /** `dependencies` as `_dependencies` builds it: every parent is itself a node. */
  type Graph = map<Node, seq<Node>>

  ghost predicate Closed(g: Graph) {
    forall n, p | n in g && p in g[n] :: p in g
  }

  /** A walk along parent edges: every node depends on the next one. */
  ghost predicate Walk(g: Graph, path: seq<Node>) {
    && path != []
    && (forall k | 0 <= k < |path| :: path[k] in g)
    && (forall k | 0 <= k < |path| - 1 :: path[k + 1] in g[path[k]])
  }

  ghost predicate Reaches(g: Graph, from: Node, to: Node) {
    exists path :: Walk(g, path) && path[0] == from && path[|path| - 1] == to
  }

  ghost predicate Cycle(g: Graph, path: seq<Node>) {
    Walk(g, path) && |path| > 1 && path[0] == path[|path| - 1]
  }

  ghost predicate Acyclic(g: Graph) {
    forall path :: !Cycle(g, path)
  }

  /** `_assert_acyclic`: the sets its recursive `visit` shares. */
  class CycleCheck {
    const g: Graph
    var visited: set<Node>
    var visiting: set<Node>
    /** Visited nodes in the order they were finished; the current chain of calls. */
    ghost var finished: seq<Node>
    ghost var chain: seq<Node>

    ghost predicate Inv()
      reads this
    {
      && Closed(g)
      && visited + visiting <= g.Keys && visited !! visiting
      && (forall n :: n in finished <==> n in visited)
      && (forall n :: n in chain <==> n in visiting)
      && (chain != [] ==> Walk(g, chain))
      && TopologicallySorted(g, finished)
    }

    constructor (g: Graph)
      requires Closed(g)
      ensures Inv() && this.g == g && visiting == visited == {} && chain == []
    {
      this.g := g;
      visited, visiting, finished, chain := {}, {}, [], [];
    }

    /** Raises, here `false`, exactly when it runs into its own chain of calls. */
    method Visit(n: Node) returns (ok: bool)
      requires Inv() && n in g && (chain != [] ==> n in g[chain[|chain| - 1]])
      modifies this
      ensures ok ==> Inv() && visiting == old(visiting) && chain == old(chain)
      ensures ok ==> old(visited) <= visited && n in visited
      ensures !ok ==> exists path :: Cycle(g, path)
      decreases g.Keys - visiting
    {
      if n in visited {
        return true;
      }
      if n in visiting {
        ghost var i :| 0 <= i < |chain| && chain[i] == n;
        assert Cycle(g, chain[i..] + [n]);
        return false;
      }
      visiting := visiting + {n};
      chain := chain + [n];
      for k := 0 to |g[n]|
        invariant Inv() && visiting == old(visiting) + {n} && chain == old(chain) + [n]
        invariant old(visited) <= visited
        invariant forall j | 0 <= j < k :: g[n][j] in visited
      {
        ok := Visit(g[n][k]);
        if !ok {
          return;
        }
      }
      visiting := visiting - {n};
      chain := old(chain);
      visited := visited + {n};
      FinishLast(g, finished, n);
      finished := finished + [n];
      return true;
    }
  }

  /** Every node is listed after all its parents. */
  ghost predicate TopologicallySorted(g: Graph, order: seq<Node>) {
    forall k | 0 <= k < |order| :: order[k] in g && forall p | p in g[order[k]] :: p in order[..k]
  }

  lemma FinishLast(g: Graph, order: seq<Node>, n: Node)
    requires TopologicallySorted(g, order) && n in g && forall p | p in g[n] :: p in order
    ensures TopologicallySorted(g, order + [n])
  {
    forall k | 0 <= k < |order| + 1
      ensures (order + [n])[k] in g && forall p | p in g[(order + [n])[k]] :: p in (order + [n])[..k]
    {
      assert (order + [n])[..k] == order[..k];
      assert order[..|order|] == order;
    }
  }

  /** Along a walk the first position in the order strictly decreases. */
  lemma {:induction false} WalkDescends(g: Graph, order: seq<Node>, path: seq<Node>, i: nat)
    requires TopologicallySorted(g, order) && Walk(g, path) && |path| > 1
    requires i < |order| && order[i] == path[0]
    ensures path[|path| - 1] in order[..i]
    decreases |path|
  {
    assert path[1] in order[..i];
    if |path| > 2 {
      var j :| 0 <= j < i && order[j] == path[1];
      WalkDescends(g, order, path[1..], j);
      assert order[..j] <= order[..i];
    }
  }

  /** A topological order of all nodes rules cycles out. */
  lemma SortedIsAcyclic(g: Graph, order: seq<Node>)
    requires TopologicallySorted(g, order) && forall n | n in g :: n in order
    ensures Acyclic(g)
  {
    forall path | Cycle(g, path)
      ensures false
    {
      var i := FirstIndex(order, path[0]);
      WalkDescends(g, order, path, i);
    }
  }

  ghost function FirstIndex(order: seq<Node>, n: Node): (i: nat)
    requires n in order
    ensures i < |order| && order[i] == n && n !in order[..i]
  {
    if order[0] == n then 0
    else
      var i := FirstIndex(order[1..], n) + 1;
      assert order[..i] == [order[0]] + order[1..][..i - 1];
      i
  }

  method AssertAcyclic(g: Graph) returns (ok: bool)
    requires Closed(g)
    ensures ok <==> Acyclic(g)
  {
    var check := new CycleCheck(g);
    var todo := g.Keys;
    while todo != {}
      invariant check.Inv() && check.g == g && fresh(check)
      invariant check.visiting == {} && check.chain == []
      invariant todo <= g.Keys && g.Keys - todo <= check.visited
    {
      var n :| n in todo;
      ok := check.Visit(n);
      if !ok {
        return;
      }
      todo := todo - {n};
    }
    SortedIsAcyclic(g, check.finished);
    return true;
  }

  // ---- the two worklists of `_require_repaired_accepted_descendants` ----

  ghost predicate StrictlyReaches(g: Graph, from: Node, to: Node) {
    exists path :: Walk(g, path) && |path| > 1 && path[0] == from && path[|path| - 1] == to
  }

  /** Some requested owner depends on `n`, or is `n`. */
  ghost predicate Covered(g: Graph, requested: set<Node>, n: Node) {
    exists r | r in requested :: Reaches(g, r, n)
  }

  lemma ReachesParent(g: Graph, from: Node, n: Node, p: Node)
    requires Closed(g) && Reaches(g, from, n) && p in g[n]
    ensures Reaches(g, from, p)
  {
    var path :| Walk(g, path) && path[0] == from && path[|path| - 1] == n;
    assert Walk(g, path + [p]);
  }

  lemma ReachesSelf(g: Graph, n: Node)
    requires n in g
    ensures Reaches(g, n, n)
  {
    assert Walk(g, [n]);
  }

  lemma {:induction false} ClosedUnderParents(g: Graph, s: set<Node>, path: seq<Node>)
    requires Walk(g, path) && path[0] in s
    requires forall n, p | n in s && n in g && p in g[n] :: p in s
    ensures path[|path| - 1] in s
  {
    if |path| > 1 {
      ClosedUnderParents(g, s, path[1..]);
    }
  }

  lemma {:induction false} ClosedUnderChildren(g: Graph, s: set<Node>, source: Node, path: seq<Node>)
    requires Walk(g, path) && |path| > 1 && path[|path| - 1] == source
    requires forall n | n in g && source in g[n] :: n in s
    requires forall n, p | n in g && p in g[n] && p in s :: n in s
    ensures path[0] in s
  {
    assert path[1] in g[path[0]];
    if |path| > 2 {
      ClosedUnderChildren(g, s, source, path[1..]);
    }
  }

  /** A strict descendant of a strict descendant, or of the source itself. */
  lemma ChildDescends(g: Graph, child: Node, n: Node, source: Node)
    requires child in g && n in g[child] && n in g
    requires n == source || StrictlyReaches(g, n, source)
    ensures StrictlyReaches(g, child, source)
  {
    var path := [n];
    if n != source {
      path :| Walk(g, path) && |path| > 1 && path[0] == n && path[|path| - 1] == source;
    }
    assert Walk(g, [child] + path);
  }

  /** `list` of a set, in some order. */
  method ListOf(s: set<Node>) returns (l: seq<Node>)
    ensures forall n :: n in l <==> n in s
  {
    l := [];
    var rest := s;
    while rest != {}
      invariant rest <= s && forall n :: n in l <==> n in s - rest
    {
      var n :| n in rest;
      l, rest := l + [n], rest - {n};
    }
  }

  /** One turn of the first worklist. */
  method CoverParents(parents: seq<Node>, covered0: set<Node>, pending0: seq<Node>)
    returns (covered: set<Node>, pending: seq<Node>)
    ensures covered == covered0 + set p | p in parents
    ensures forall m :: m in pending <==> m in pending0 || m in covered - covered0
    ensures covered == covered0 ==> pending == pending0
  {
    covered, pending := covered0, pending0;
    for k := 0 to |parents|
      invariant covered == covered0 + set p | p in parents[..k]
      invariant forall m :: m in pending <==> m in pending0 || m in covered - covered0
      invariant covered == covered0 ==> pending == pending0
    {
      var ancestor := parents[k];
      if ancestor !in covered {
        covered := covered + {ancestor};
        pending := pending + [ancestor];
      }
    }
    assert parents[..|parents|] == parents;
  }

  /** The loop of the first worklist stays inside any set that holds the requested owners
      and, with a node, its parents; and ends with such a set. */
  method CloseUnderParents(g: Graph, requested: set<Node>, ghost within: iset<Node>) returns (covered: set<Node>)
    requires Closed(g) && requested <= g.Keys
    requires forall n | n in requested :: n in within
    requires forall n, p | n in g && n in within && p in g[n] :: p in within
    ensures requested <= covered <= g.Keys && forall n | n in covered :: n in within
    ensures forall n, p | n in covered && p in g[n] :: p in covered
  {
    covered := requested;
    var pending := ListOf(requested);
    while pending != []
      invariant requested <= covered <= g.Keys
      invariant forall n | n in pending :: n in covered
      invariant forall n | n in covered :: n in within
      invariant forall n | n in covered :: n in pending || forall p | p in g[n] :: p in covered
      decreases g.Keys - covered, |pending|
    {
      var n := pending[|pending| - 1];
      covered, pending := CoverParents(g[n], covered, pending[..|pending| - 1]);
    }
  }

  /** The first worklist: the requested owners and all they depend on. */
  method CoverAncestors(g: Graph, requested: set<Node>) returns (covered: set<Node>)
    requires Closed(g) && requested <= g.Keys
    ensures forall n :: n in covered <==> Covered(g, requested, n)
  {
    ghost var within := iset n | Covered(g, requested, n);
    forall n | n in requested
      ensures n in within
    {
      ReachesSelf(g, n);
    }
    forall n, p | n in g && n in within && p in g[n]
      ensures p in within
    {
      var r :| r in requested && Reaches(g, r, n);
      ReachesParent(g, r, n, p);
    }
    covered := CloseUnderParents(g, requested, within);
    forall n | Covered(g, requested, n)
      ensures n in covered
    {
      var r :| r in requested && Reaches(g, r, n);
      var path :| Walk(g, path) && path[0] == r && path[|path| - 1] == n;
      ClosedUnderParents(g, covered, path);
    }
  }

  method AddChild(children0: map<Node, set<Node>>, parents: seq<Node>, n: Node)
    returns (children: map<Node, set<Node>>)
    requires forall p | p in parents :: p in children0
    ensures children.Keys == children0.Keys
    ensures forall p | p in children0 :: children[p] == children0[p] + if p in parents then {n} else {}
  {
    children := children0;
    for k := 0 to |parents|
      invariant children.Keys == children0.Keys
      invariant forall p | p in children0 :: children[p] == children0[p] + if p in parents[..k] then {n} else {}
    {
      children := children[parents[k] := children[parents[k]] + {n}];
    }
    assert parents[..|parents|] == parents;
  }

  method ChildrenOf(g: Graph) returns (children: map<Node, set<Node>>)
    requires Closed(g)
    ensures children.Keys == g.Keys
    ensures forall p | p in g :: children[p] == set n | n in g && p in g[n]
  {
    children := map n | n in g :: {};
    var todo := g.Keys;
    while todo != {}
      invariant todo <= g.Keys && children.Keys == g.Keys
      invariant forall p | p in g :: children[p] == set n | n in g.Keys - todo && p in g[n]
    {
      var n :| n in todo;
      children := AddChild(children, g[n], n);
      todo := todo - {n};
    }
  }

  /** The second worklist, from one requested owner: whether it meets no accepted descendant
      that nobody covers. */
  method DescendantsCovered(g: Graph, children: map<Node, set<Node>>, accepted: set<Node>,
                            requested: set<Node>, covered: set<Node>, source: Node) returns (ok: bool)
    requires Closed(g) && source in g && children.Keys == g.Keys
    requires forall p | p in g :: children[p] == set n | n in g && p in g[n]
    ensures ok <==> forall d | d in accepted && StrictlyReaches(g, d, source) :: d in requested || d in covered
  {
    var pending := ListOf(children[source]);
    var visited: set<Node> := {};
    forall n | n in pending
      ensures StrictlyReaches(g, n, source)
    {
      ChildDescends(g, n, source, source);
    }
    while pending != []
      invariant visited <= g.Keys
      invariant forall n | n in pending :: n in g && StrictlyReaches(g, n, source)
      invariant forall n | n in visited && n in accepted :: n in requested || n in covered
      invariant forall n | n in g && source in g[n] :: n in visited || n in pending
      invariant forall n, p | n in g && p in visited && p in g[n] :: n in visited || n in pending
      decreases g.Keys - visited, |pending|
    {
      var descendant := pending[|pending| - 1];
      pending := pending[..|pending| - 1];
      if descendant !in visited {
        visited := visited + {descendant};
        if descendant in accepted && descendant !in requested && descendant !in covered {
          return false;
        }
        var more := ListOf(children[descendant]);
        forall n | n in more
          ensures StrictlyReaches(g, n, source)
        {
          ChildDescends(g, n, descendant, source);
        }
        pending := pending + more;
      }
    }
    forall d | d in accepted && StrictlyReaches(g, d, source)
      ensures d in requested || d in covered
    {
      var path :| Walk(g, path) && |path| > 1 && path[0] == d && path[|path| - 1] == source;
      ClosedUnderChildren(g, visited, source, path);
    }
    return true;
  }

  /** Raises, here `false`, exactly when some accepted strict descendant of a requested owner
      is neither requested nor something a requested owner depends on. */
  method RequireRepairedAcceptedDescendants(g: Graph, accepted: set<Node>, requested: set<Node>) returns (ok: bool)
    requires Closed(g) && requested <= g.Keys
    ensures ok <==> forall s, d | s in requested && d in accepted && StrictlyReaches(g, d, s) ::
                      d in requested || Covered(g, requested, d)
  {
    var covered := CoverAncestors(g, requested);
    var children := ChildrenOf(g);
    var todo := requested;
    while todo != {}
      invariant todo <= requested
      invariant forall s, d | s in requested - todo && d in accepted && StrictlyReaches(g, d, s) ::
                  d in requested || d in covered
    {
      var source :| source in todo;
      ok := DescendantsCovered(g, children, accepted, requested, covered, source);
      if !ok {
        return;
      }
      todo := todo - {source};
    }
    return true;
  }

  // ---- the worklist of `build_accepted_repair_bindings` ----

  lemma ParentAscends(g: Graph, from: Node, n: Node, p: Node)
    requires Closed(g) && from in g && n in g && p in g[n] && (n == from || StrictlyReaches(g, from, n))
    ensures StrictlyReaches(g, from, p)
  {
    var path := [n];
    if n != from {
      path :| Walk(g, path) && |path| > 1 && path[0] == from && path[|path| - 1] == n;
    }
    assert Walk(g, path + [p]);
  }

  lemma {:induction false} ClosedAbove(g: Graph, s: set<Node>, path: seq<Node>)
    requires Walk(g, path) && |path| > 1 && (forall p | p in g[path[0]] :: p in s)
    requires forall n, p | n in s && n in g && p in g[n] :: p in s
    ensures path[|path| - 1] in s
  {
    assert path[1] in g[path[0]];
    ClosedUnderParents(g, s, path[1..]);
  }

  /** All that a node depends on, however far. */
  method AncestorsOf(g: Graph, requester: Node) returns (ancestors: set<Node>)
    requires Closed(g) && requester in g
    ensures forall n :: n in ancestors <==> StrictlyReaches(g, requester, n)
  {
    ancestors := {};
    var pending := g[requester];
    forall p | p in pending
      ensures StrictlyReaches(g, requester, p)
    {
      ParentAscends(g, requester, requester, p);
    }
    while pending != []
      invariant ancestors <= g.Keys
      invariant forall n | n in pending :: n in g && StrictlyReaches(g, requester, n)
      invariant forall n | n in ancestors :: StrictlyReaches(g, requester, n)
      invariant forall p | p in g[requester] :: p in ancestors || p in pending
      invariant forall n, p | n in ancestors && p in g[n] :: p in ancestors || p in pending
      decreases g.Keys - ancestors, |pending|
    {
      var ancestor := pending[|pending| - 1];
      pending := pending[..|pending| - 1];
      if ancestor !in ancestors {
        ancestors := ancestors + {ancestor};
        forall p | p in g[ancestor]
          ensures StrictlyReaches(g, requester, p)
        {
          ParentAscends(g, requester, ancestor, p);
        }
        pending := pending + g[ancestor];
      }
    }
    forall n | StrictlyReaches(g, requester, n)
      ensures n in ancestors
    {
      var path :| Walk(g, path) && |path| > 1 && path[0] == requester && path[|path| - 1] == n;
      ClosedAbove(g, ancestors, path);
    }
  }

  /** A blocked consumer may only have owners repaired that it depends on. */
  method RequireAncestors(g: Graph, requester: Node, requested: set<Node>) returns (ok: bool)
    requires Closed(g) && requester in g
    ensures ok <==> forall r | r in requested :: StrictlyReaches(g, requester, r)
  {
    var ancestors := AncestorsOf(g, requester);
    var unrelated := requested - ancestors;
    assert forall r | r in requested :: r in ancestors || r in unrelated;
    ok := unrelated == {};
  }

  // ---- `_dependencies` ----

  /** What a node's `depends_on` is: a list of strings, or something else. */
  datatype DependsOn = Strings(values: seq<Node>) | Otherwise

  predicate Distinct(s: seq<Node>) {
    forall i, j | 0 <= i < j < |s| :: s[i] != s[j]
  }

  predicate Acceptable(d: DependsOn, nodes: set<Node>) {
    d.Strings? && Distinct(d.values) && forall k | 0 <= k < |d.values| :: d.values[k] != "" && d.values[k] in nodes
  }

  /** The graph the checks run on, or nothing where some dependency list is malformed, names
      a node twice or names one that is missing. */
  method Dependencies(specs: map<Node, DependsOn>) returns (r: Option<Graph>)
    ensures r.Some? <==> forall n | n in specs :: Acceptable(specs[n], specs.Keys)
    ensures r.Some? ==> r.value.Keys == specs.Keys && Closed(r.value)
    ensures r.Some? ==> forall n | n in specs :: specs[n] == Strings(r.value[n])
  {
    var g: Graph := map[];
    var todo := specs.Keys;
    while todo != {}
      invariant todo <= specs.Keys && g.Keys == specs.Keys - todo
      invariant forall n | n in g :: specs[n] == Strings(g[n]) && Acceptable(specs[n], specs.Keys)
    {
      var n :| n in todo;
      if !Acceptable(specs[n], specs.Keys) {
        return None;
      }
      g := g[n := specs[n].values];
      todo := todo - {n};
    }
    return Some(g);
  }
}
