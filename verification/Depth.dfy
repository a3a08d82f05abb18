/**
 The depth guard of build_dag: a depth-first search that shares one visited set
 along the whole search from a root.
 */
module Depth {
  import opened Contract
  import opened Graphs
  import opened Dag

  /** The order in which each set of dependents happens to be iterated. */
  type Kids = map<TaskId, seq<TaskId>>

  predicate Orders(kids: Kids, e: Edges) {
    kids.Keys == e.Keys && forall t | t in e :: Lists(kids[t], e[t])
  }

  function KidsOf(kids: Kids, t: TaskId): seq<TaskId> {
    if t in kids then kids[t] else []
  }

  predicate Universe(kids: Kids, all: set<TaskId>) {
    forall t | t in all :: forall c | c in KidsOf(kids, t) :: c in all
  }

  function Max(a: nat, b: nat): nat {
    if a < b then b else a
  }

  /** _compute_depth: the depth it returns and the visited set it leaves. */
  function DepthOf(kids: Kids, all: set<TaskId>, t: TaskId, visited: set<TaskId>): (r: (nat, set<TaskId>))
    requires Universe(kids, all) && t in all && visited <= all
    ensures visited <= r.1 <= all
    decreases all - visited, 0
  {
    if t in visited then (0, visited)
    else
      assert all - (visited + {t}) < all - visited by { assert t in all - visited; }
      var (m, v) := MaxDepth(kids, all, KidsOf(kids, t), visited + {t});
      (1 + m, v)
  }

  /** The largest depth among some children, visited one after the other. */
  function MaxDepth(kids: Kids, all: set<TaskId>, ts: seq<TaskId>, visited: set<TaskId>): (r: (nat, set<TaskId>))
    requires Universe(kids, all) && (forall t | t in ts :: t in all) && visited <= all
    ensures visited <= r.1 <= all
    decreases all - visited, |ts|
  {
    if ts == [] then (0, visited)
    else
      var (d, v) := DepthOf(kids, all, ts[0], visited);
      assert all - v == all - visited || all - v < all - visited by { SmallerLeft(all, visited, v); }
      var (m, v') := MaxDepth(kids, all, ts[1..], v);
      (Max(d, m), v')
  }

  // ---- never an overestimate ----

  /** A chain of n different unvisited tasks that starts at t. */
  ghost predicate Chain(e: Edges, p: seq<TaskId>, t: TaskId, n: nat, visited: set<TaskId>) {
    && |p| == n && Path(e, p) && p[0] == t && Distinct(p)
    && forall x | x in p :: x !in visited
  }

  lemma {:induction false} DepthIsChain(kids: Kids, e: Edges, all: set<TaskId>, t: TaskId, visited: set<TaskId>)
    returns (p: seq<TaskId>)
    requires Orders(kids, e) && Universe(kids, all) && t in all && visited <= all && t !in visited
    ensures Chain(e, p, t, DepthOf(kids, all, t, visited).0, visited)
    decreases all - visited, 0
  {
    assert t in all - visited;
    var m := MaxDepth(kids, all, KidsOf(kids, t), visited + {t}).0;
    if m == 0 {
      p := [t];
    } else {
      var q := MaxDepthIsChain(kids, e, all, KidsOf(kids, t), visited + {t});
      assert Edge(e, t, q[0]);
      p := [t] + q;
      assert forall i | 0 <= i < |p| - 1 :: Edge(e, p[i], p[i + 1]);
      assert t !in q;
    }
  }

  lemma {:induction false} MaxDepthIsChain(kids: Kids, e: Edges, all: set<TaskId>, ts: seq<TaskId>,
                                           visited: set<TaskId>)
    returns (p: seq<TaskId>)
    requires Orders(kids, e) && Universe(kids, all) && (forall t | t in ts :: t in all) && visited <= all
    requires MaxDepth(kids, all, ts, visited).0 > 0
    ensures |p| > 0 && p[0] in ts
    ensures Chain(e, p, p[0], MaxDepth(kids, all, ts, visited).0, visited)
    decreases all - visited, |ts|
  {
    var (d, v) := DepthOf(kids, all, ts[0], visited);
    SmallerLeft(all, visited, v);
    var m := MaxDepth(kids, all, ts[1..], v).0;
    if d >= m {
      p := DepthIsChain(kids, e, all, ts[0], visited);
    } else {
      p := MaxDepthIsChain(kids, e, all, ts[1..], v);
    }
  }

  // ---- exact on forests ----

  /** No task has two dependencies, and no chain of dependents comes back to its start. */
  ghost predicate Forest(e: Edges) {
    && (forall a, b, c | Edge(e, a, c) && Edge(e, b, c) :: a == b)
    && (forall a, b | Edge(e, a, b) :: !Reach(e, b, a))
  }

  /** In a forest, what one child reaches its siblings do not. */
  lemma SiblingsApart(e: Edges, t: TaskId, a: TaskId, b: TaskId, x: TaskId)
    requires Forest(e) && Edge(e, t, a) && Edge(e, t, b) && a != b
    ensures !(Reach(e, a, x) && Reach(e, b, x))
  {
    if Reach(e, a, x) && Reach(e, b, x) {
      var p :| PathFromTo(e, p, a, x);
      CommonPoint(e, t, a, b, p);
      assert false;
    }
  }

  lemma {:induction false} CommonPoint(e: Edges, t: TaskId, a: TaskId, b: TaskId, p: seq<TaskId>)
    requires Forest(e) && Edge(e, t, a) && Edge(e, t, b) && a != b
    requires Path(e, p) && p[0] == a
    ensures !Reach(e, b, p[|p| - 1])
    decreases |p|
  {
    var x := p[|p| - 1];
    if |p| > 1 {
      assert Edge(e, p[|p| - 2], x);
      assert PathFromTo(e, p[..|p| - 1], a, p[|p| - 2]);
    }
    if Reach(e, b, x) {
      if x != b {
        var y := LastEdge(e, b, x);
        if |p| > 1 {
          CommonPoint(e, t, a, b, p[..|p| - 1]);
        }
      }
      assert false;
    }
  }

  /** The tasks reachable from t. */
  ghost function Below(e: Edges, all: set<TaskId>, t: TaskId): set<TaskId> {
    set x | x in all && Reach(e, t, x)
  }

  ghost predicate Bounds(e: Edges, t: TaskId, n: nat) {
    forall p | Path(e, p) && p[0] == t :: |p| <= n
  }

  lemma BoundsMonotone(e: Edges, t: TaskId, m: nat, n: nat)
    requires Bounds(e, t, m) && m <= n
    ensures Bounds(e, t, n)
  {}

  lemma {:induction false} ForestDepth(kids: Kids, e: Edges, all: set<TaskId>, t: TaskId, visited: set<TaskId>)
    requires Orders(kids, e) && Universe(kids, all) && t in all && visited <= all && Forest(e)
    requires Below(e, all, t) !! visited
    ensures Bounds(e, t, DepthOf(kids, all, t, visited).0)
    ensures DepthOf(kids, all, t, visited).1 <= visited + Below(e, all, t)
    decreases all - visited, 0
  {
    ReachSelf(e, t);
    assert t in Below(e, all, t);
    assert t in all - visited;
    var ts := KidsOf(kids, t);
    var (m, v) := MaxDepth(kids, all, ts, visited + {t});
    forall c | c in ts
      ensures Edge(e, t, c) && Below(e, all, c) !! (visited + {t}) && Below(e, all, c) <= Below(e, all, t)
    {
      assert Edge(e, t, c);
      ReachEdge(e, t, c);
      forall x | x in Below(e, all, c)
        ensures x in Below(e, all, t)
      {
        ReachTransitive(e, t, c, x);
      }
    }
    ForestMaxDepth(kids, e, all, t, ts, visited + {t});
    ChildBounds(e, t, ts, m);
  }

  /** A bound for the children is one less than a bound for the parent. */
  lemma ChildBounds(e: Edges, t: TaskId, ts: seq<TaskId>, m: nat)
    requires forall c :: Edge(e, t, c) ==> c in ts
    requires forall c | c in ts :: Bounds(e, c, m)
    ensures Bounds(e, t, 1 + m)
  {
    forall p | Path(e, p) && p[0] == t
      ensures |p| <= 1 + m
    {
      if |p| > 1 {
        assert Edge(e, p[0], p[1]);
        var q := p[1..];
        forall i | 0 <= i < |q| - 1
          ensures Edge(e, q[i], q[i + 1])
        {
          assert Edge(e, p[i + 1], p[i + 2]);
        }
        assert Path(e, q) && q[0] in ts;
      }
    }
  }

  lemma {:induction false} ForestMaxDepth(kids: Kids, e: Edges, all: set<TaskId>, parent: TaskId, ts: seq<TaskId>,
                                          visited: set<TaskId>)
    requires Orders(kids, e) && Universe(kids, all) && (forall t | t in ts :: t in all) && visited <= all && Forest(e)
    requires Distinct(ts)
    requires forall c | c in ts :: Edge(e, parent, c) && Below(e, all, c) !! visited
    ensures forall c | c in ts :: Bounds(e, c, MaxDepth(kids, all, ts, visited).0)
    ensures forall x | x in MaxDepth(kids, all, ts, visited).1 ::
              x in visited || exists c | c in ts :: x in Below(e, all, c)
    decreases all - visited, |ts|
  {
    hide Reach, Bounds, Orders, Forest, Edge;
    if ts != [] {
      var (d, v) := DepthOf(kids, all, ts[0], visited);
      SmallerLeft(all, visited, v);
      ForestDepth(kids, e, all, ts[0], visited);
      forall c | c in ts[1..]
        ensures Edge(e, parent, c) && Below(e, all, c) !! v
      {
        forall x | x in Below(e, all, c)
          ensures x !in v
        {
          SiblingsApart(e, parent, ts[0], c, x);
        }
      }
      ForestMaxDepth(kids, e, all, parent, ts[1..], v);
      assert forall c | c in ts[1..] :: c in ts;
      assert ts[0] in ts;
      var m := MaxDepth(kids, all, ts[1..], v).0;
      forall c | c in ts
        ensures Bounds(e, c, Max(d, m))
      {
        BoundsMonotone(e, c, if c == ts[0] then d else m, Max(d, m));
      }
    }
  }

  // ---- not exact on diamonds ----

  /** root -> a, root -> b, b -> a, a -> leaf: visiting a first cuts the longer way through b short. */
  const DIAMOND: Edges := map["root" := {"a", "b"}, "b" := {"a"}, "a" := {"leaf"}, "leaf" := {}]
  const DIAMOND_KIDS: Kids := map["root" := ["a", "b"], "b" := ["a"], "a" := ["leaf"], "leaf" := []]

  lemma DiamondUnderestimated()
    ensures Orders(DIAMOND_KIDS, DIAMOND) && Universe(DIAMOND_KIDS, DIAMOND.Keys)
    ensures DepthOf(DIAMOND_KIDS, DIAMOND.Keys, "root", {}).0 == 3
    ensures Path(DIAMOND, ["root", "b", "a", "leaf"])
  {
    var k, all := DIAMOND_KIDS, DIAMOND.Keys;
    var v := {"root", "a", "leaf"};
    DiamondFirstBranch();
    assert ["a"][1..] == [] && ["b"][1..] == [] && ["a", "b"][1..] == ["b"];
    assert {} + {"root"} == {"root"};
    assert MaxDepth(k, all, ["a"], v + {"b"}) == (0, v + {"b"});
    assert DepthOf(k, all, "b", v) == (1, v + {"b"});
    assert MaxDepth(k, all, ["a", "b"], {"root"}) == (2, v + {"b"});
  }

  lemma DiamondFirstBranch()
    ensures Universe(DIAMOND_KIDS, DIAMOND.Keys)
    ensures DepthOf(DIAMOND_KIDS, DIAMOND.Keys, "a", {"root"}) == (2, {"root", "a", "leaf"})
  {
    var k, all := DIAMOND_KIDS, DIAMOND.Keys;
    assert ["leaf"][1..] == [];
    assert {"root", "a"} + {"leaf"} == {"root", "a", "leaf"} && {"root"} + {"a"} == {"root", "a"};
    assert DepthOf(k, all, "leaf", {"root", "a"}) == (1, {"root", "a", "leaf"});
  }

  // ---- build_dag ----

  datatype Node = Node(id: TaskId, task: Payload, deps: seq<TaskId>)

  /** The visited set that one search from a root shares. */
  class Visited {
    var seen: set<TaskId>

    constructor ()
      ensures seen == {}
    {
      seen := {};
    }
  }

  method ComputeDepth(kids: Kids, ghost all: set<TaskId>, t: TaskId, visited: Visited) returns (depth: nat)
    requires Universe(kids, all) && t in all && visited.seen <= all
    modifies visited
    ensures (depth, visited.seen) == DepthOf(kids, all, t, old(visited.seen))
    decreases all - visited.seen
  {
    if t in visited.seen {
      return 0;
    }
    assert t in all - visited.seen;
    visited.seen := visited.seen + {t};
    ghost var seen1 := visited.seen;
    var ts := KidsOf(kids, t);
    var best := 0;
    for i := 0 to |ts|
      invariant seen1 <= visited.seen <= all
      invariant MaxDepth(kids, all, ts, seen1) ==
                (Max(best, MaxDepth(kids, all, ts[i..], visited.seen).0), MaxDepth(kids, all, ts[i..], visited.seen).1)
    {
      assert ts[i..][0] == ts[i] && ts[i..][1..] == ts[i + 1..];
      LeftShrinks(all, old(visited.seen), visited.seen, t);
      var d := ComputeDepth(kids, all, ts[i], visited);
      best := Max(best, d);
    }
    assert ts[|ts|..] == [];
    depth := 1 + best;
  }

  lemma LeftShrinks(all: set<TaskId>, before: set<TaskId>, now: set<TaskId>, t: TaskId)
    requires t in all && t !in before && before <= now && t in now
    ensures all - now < all - before
  {
    assert t in all - before && t !in all - now;
  }

  method IterationOrder(e: Edges) returns (kids: Kids)
    ensures Orders(kids, e)
  {
    kids := map[];
    var todo := e.Keys;
    while todo != {}
      invariant todo <= e.Keys && kids.Keys == e.Keys - todo
      invariant forall t | t in kids :: Lists(kids[t], e[t])
      decreases todo
    {
      var t :| t in todo;
      var ts := ListSet(e[t]);
      todo := todo - {t};
      kids := kids[t := ts];
    }
  }

  /** The dependencies the nodes declare; the first declaration of an id stands. */
  function DepsOf(nodes: seq<Node>): Edges {
    if nodes == [] then map[]
    else
      var last := nodes[|nodes| - 1];
      SetDefault(DepsOf(nodes[..|nodes| - 1]), last.id, Members(last.deps))
  }

  ghost predicate UniqueIds(nodes: seq<Node>) {
    forall i, j | 0 <= i < j < |nodes| :: nodes[i].id != nodes[j].id
  }

  predicate Declares(nodes: seq<Node>, t: TaskId) {
    exists n :: n in nodes && n.id == t
  }

  lemma {:induction false} DepsOfKeys(nodes: seq<Node>)
    ensures forall t :: t in DepsOf(nodes) <==> Declares(nodes, t)
  {
    if nodes != [] {
      var n := |nodes| - 1;
      DepsOfKeys(nodes[..n]);
      assert nodes == nodes[..n] + [nodes[n]];
      forall t
        ensures Declares(nodes, t) <==> Declares(nodes[..n], t) || nodes[n].id == t
      {
        assert nodes[n] in nodes;
        if Declares(nodes[..n], t) {
          var m :| m in nodes[..n] && m.id == t;
          assert m in nodes;
        }
      }
    }
  }

  predicate IsRoot(deps: Edges, t: TaskId) {
    t in deps && deps[t] == {}
  }

  /** Some chain of different tasks from a root is longer than the limit. */
  ghost predicate HasLongChain(deps: Edges, e: Edges, limit: int) {
    exists t, p :: IsRoot(deps, t) && Path(e, p) && p[0] == t && Distinct(p) && |p| > limit
  }

  method AddAll(nodes: seq<Node>) returns (dag: TaskDAG)
    ensures fresh(dag) && dag.Valid()
    ensures dag.dependencies == DepsOf(nodes)
    ensures dag.dependencies.Keys <= dag.dependents.Keys
    ensures dag.status.Keys == dag.dependencies.Keys && forall t | t in dag.status :: dag.status[t] == Pending
    ensures UniqueIds(nodes) ==> EdgesAgree(dag.dependencies, dag.dependents)
  {
    dag := new TaskDAG();
    for i := 0 to |nodes|
      invariant fresh(dag) && dag.Valid()
      invariant dag.dependencies == DepsOf(nodes[..i])
      invariant dag.dependencies.Keys <= dag.dependents.Keys
      invariant dag.status.Keys == dag.dependencies.Keys && forall t | t in dag.status :: dag.status[t] == Pending
      invariant UniqueIds(nodes) ==> EdgesAgree(dag.dependencies, dag.dependents)
    {
      assert nodes[..i + 1][..i] == nodes[..i];
      DepsOfKeys(nodes[..i]);
      if UniqueIds(nodes) {
        assert !Declares(nodes[..i], nodes[i].id);
      }
      dag.Add(nodes[i].id, nodes[i].task, nodes[i].deps);
    }
    assert nodes[..|nodes|] == nodes;
  }

  /** The iteration order is one of the graph's own sets. */
  ghost predicate OrderOf(kids: Kids, deps: Edges, e: Edges) {
    Orders(kids, e) && Universe(kids, Nodes(e)) && deps.Keys <= Nodes(e)
  }

  /** The search from some root reports more than the limit. */
  ghost predicate SomeRootTooDeep(kids: Kids, deps: Edges, e: Edges, limit: int)
    requires OrderOf(kids, deps, e)
  {
    exists t :: IsRoot(deps, t) && DepthOf(kids, Nodes(e), t, {}).0 > limit
  }

  /**
   Builds the graph, then searches from each root, and rejects exactly when one
   search, under the order the sets happen to be iterated in, reports more than
   the limit. A rejection always has a real chain longer than the limit behind it,
   whatever the graph; on a forest the converse holds too.
   */
  method BuildDag(nodes: seq<Node>, maxDepth: int) returns (dag: TaskDAG, rejected: bool, ghost kids: Kids)
    ensures fresh(dag) && dag.Valid()
    ensures dag.dependencies == DepsOf(nodes)
    ensures dag.status.Keys == dag.dependencies.Keys && forall t | t in dag.status :: dag.status[t] == Pending
    ensures UniqueIds(nodes) ==> EdgesAgree(dag.dependencies, dag.dependents)
    ensures dag.dependencies.Keys <= dag.dependents.Keys
    ensures OrderOf(kids, dag.dependencies, dag.dependents)
    ensures rejected <==> SomeRootTooDeep(kids, dag.dependencies, dag.dependents, maxDepth)
    ensures rejected ==> HasLongChain(dag.dependencies, dag.dependents, maxDepth)
    ensures Forest(dag.dependents) ==> (rejected <==> HasLongChain(dag.dependencies, dag.dependents, maxDepth))
  {
    dag := AddAll(nodes);
    rejected, kids := TooDeep(dag, maxDepth);
    if rejected {
      DeepRootHasChain(kids, dag.dependencies, dag.dependents, maxDepth);
    } else if Forest(dag.dependents) {
      ForestShort(kids, dag.dependencies, dag.dependents, Nodes(dag.dependents), maxDepth);
    }
  }

  lemma DeepRootHasChain(kids: Kids, deps: Edges, e: Edges, limit: int)
    requires OrderOf(kids, deps, e) && SomeRootTooDeep(kids, deps, e, limit)
    ensures HasLongChain(deps, e, limit)
  {
    var t :| IsRoot(deps, t) && DepthOf(kids, Nodes(e), t, {}).0 > limit;
    var p := DepthIsChain(kids, e, Nodes(e), t, {});
  }

  /** The search from each root, one fresh visited set per root. */
  method TooDeep(dag: TaskDAG, maxDepth: int) returns (rejected: bool, ghost order: Kids)
    requires dag.Valid() && dag.dependencies.Keys <= dag.dependents.Keys
    ensures OrderOf(order, dag.dependencies, dag.dependents)
    ensures rejected <==> SomeRootTooDeep(order, dag.dependencies, dag.dependents, maxDepth)
  {
    var kids := IterationOrder(dag.dependents);
    order := kids;
    ghost var all := Nodes(dag.dependents);
    var todo := dag.dependencies.Keys;
    while todo != {}
      invariant todo <= dag.dependencies.Keys
      invariant forall t | IsRoot(dag.dependencies, t) && t !in todo :: DepthOf(kids, all, t, {}).0 <= maxDepth
      decreases todo
    {
      var t :| t in todo;
      if dag.dependencies[t] == {} {
        var visited := new Visited();
        var depth := ComputeDepth(kids, all, t, visited);
        if depth > maxDepth {
          assert IsRoot(dag.dependencies, t);
          return true, kids;
        }
      }
      todo := todo - {t};
    }
    return false, kids;
  }

  lemma ForestShort(kids: Kids, deps: Edges, e: Edges, all: set<TaskId>, limit: int)
    requires Orders(kids, e) && Universe(kids, all) && deps.Keys <= all && Forest(e)
    requires forall t | IsRoot(deps, t) :: DepthOf(kids, all, t, {}).0 <= limit
    ensures !HasLongChain(deps, e, limit)
  {
    forall t, p | IsRoot(deps, t) && Path(e, p) && p[0] == t
      ensures |p| <= limit
    {
      ForestDepth(kids, e, all, t, {});
    }
  }
}
