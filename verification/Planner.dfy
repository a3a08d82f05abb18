/**
 Planner._cap_nodes: an oversized plan is cut down to a bound, keeping the tasks
 that the kept ones depend on.
 */
module Planner {
  import opened Contract
  import opened Graphs
  import opened Dag

  datatype Node = Node(id: TaskId, kind: string, deps: seq<TaskId>)

  /** The `kept` list and the `kept_ids` set the nested function fills. */
  datatype Kept = Kept(nodes: seq<Node>, ids: set<TaskId>)

  type Plan = map<TaskId, Node>

  predicate WellKeyed(byId: Plan) {
    forall t | t in byId :: byId[t].id == t
  }

  /** keep(node): mark the node, keep its dependencies first, then the node itself. */
  function KeepNode(byId: Plan, node: Node, k: Kept): (r: Kept)
    requires WellKeyed(byId) && node.id in byId && k.ids <= byId.Keys
    ensures k.ids <= r.ids <= byId.Keys
    decreases byId.Keys - k.ids, 0
  {
    if node.id in k.ids then k
    else
      assert byId.Keys - (k.ids + {node.id}) < byId.Keys - k.ids by { assert node.id in byId.Keys - k.ids; }
      var r := KeepDeps(byId, node.deps, k.(ids := k.ids + {node.id}));
      r.(nodes := r.nodes + [node])
  }

  function KeepDeps(byId: Plan, deps: seq<TaskId>, k: Kept): (r: Kept)
    requires WellKeyed(byId) && k.ids <= byId.Keys
    ensures k.ids <= r.ids <= byId.Keys
    decreases byId.Keys - k.ids, 1 + |deps|
  {
    if deps == [] then k
    else
      var r := if deps[0] in byId then KeepNode(byId, byId[deps[0]], k) else k;
      assert byId.Keys - r.ids == byId.Keys - k.ids || byId.Keys - r.ids < byId.Keys - k.ids by {
        SmallerLeft(byId.Keys, k.ids, r.ids);
      }
      KeepDeps(byId, deps[1..], r)
  }

  // ---- what is kept, on any plan ----

  function Ids(nodes: seq<Node>): set<TaskId> {
    set n | n in nodes :: n.id
  }

  predicate DistinctIds(nodes: seq<Node>) {
    forall i, j | 0 <= i < j < |nodes| :: nodes[i].id != nodes[j].id
  }

  /** Kept nodes are the plan's own, none twice, and all of them are marked. */
  predicate Sound(byId: Plan, k: Kept) {
    && (forall n | n in k.nodes :: n.id in byId && byId[n.id] == n)
    && DistinctIds(k.nodes)
    && Ids(k.nodes) <= k.ids
  }

  lemma {:induction false} KeepNodeSound(byId: Plan, node: Node, k: Kept)
    requires WellKeyed(byId) && node.id in byId && byId[node.id] == node && k.ids <= byId.Keys && Sound(byId, k)
    ensures var r := KeepNode(byId, node, k);
            Sound(byId, r) && k.nodes <= r.nodes && r.ids - Ids(r.nodes) == k.ids - Ids(k.nodes) && node.id in r.ids
    decreases byId.Keys - k.ids, 0
  {
    if node.id !in k.ids {
      assert node.id in byId.Keys - k.ids;
      var k1 := k.(ids := k.ids + {node.id});
      KeepDepsSound(byId, node.deps, k1);
      var r := KeepDeps(byId, node.deps, k1);
      assert k1.ids - Ids(k1.nodes) == (k.ids - Ids(k.nodes)) + {node.id};
      assert node.id in r.ids - Ids(r.nodes);
      assert r.ids - (Ids(r.nodes) + {node.id}) == (r.ids - Ids(r.nodes)) - {node.id};
      assert Ids(r.nodes + [node]) == Ids(r.nodes) + {node.id};
      assert node.id !in Ids(r.nodes);
      forall i | 0 <= i < |r.nodes|
        ensures r.nodes[i].id != node.id
      {
        assert r.nodes[i].id in Ids(r.nodes);
      }
    }
  }

  lemma {:induction false} KeepDepsSound(byId: Plan, deps: seq<TaskId>, k: Kept)
    requires WellKeyed(byId) && k.ids <= byId.Keys && Sound(byId, k)
    ensures var r := KeepDeps(byId, deps, k);
            && Sound(byId, r) && k.nodes <= r.nodes && r.ids - Ids(r.nodes) == k.ids - Ids(k.nodes)
            && forall d | d in deps && d in byId :: d in r.ids
    decreases byId.Keys - k.ids, 1 + |deps|
  {
    if deps != [] {
      var r := if deps[0] in byId then KeepNode(byId, byId[deps[0]], k) else k;
      SmallerLeft(byId.Keys, k.ids, r.ids);
      if deps[0] in byId {
        KeepNodeSound(byId, byId[deps[0]], k);
      }
      KeepDepsSound(byId, deps[1..], r);
    }
  }

  // ---- topological order, on acyclic plans ----

  function DepsMap(byId: Plan): Edges {
    map t | t in byId :: Members(byId[t].deps)
  }

  predicate KnownDeps(byId: Plan) {
    forall t, d | t in byId && d in byId[t].deps :: d in byId
  }

  /** The dependencies of a task other than on itself. */
  function Others(deps: Edges): Edges {
    map t | t in deps :: deps[t] - {t}
  }

  /** Each node comes after everything else it depends on. */
  predicate Topological(nodes: seq<Node>) {
    forall i, d | 0 <= i < |nodes| && d in nodes[i].deps && d != nodes[i].id :: d in Ids(nodes[..i])
  }

  /** Nodes marked but not yet kept are still being worked on, above the given rank. */
  ghost predicate OpenAbove(k: Kept, rank: map<TaskId, nat>, r: nat) {
    forall t | t in k.ids && t !in Ids(k.nodes) :: t in rank && r < rank[t]
  }

  lemma {:induction false} KeepNodeTopological(byId: Plan, rank: map<TaskId, nat>, node: Node, k: Kept)
    requires WellKeyed(byId) && node.id in byId && byId[node.id] == node && k.ids <= byId.Keys && Sound(byId, k)
    requires KnownDeps(byId) && Ranked(Others(DepsMap(byId)), rank)
    requires Topological(k.nodes) && OpenAbove(k, rank, rank[node.id])
    ensures Topological(KeepNode(byId, node, k).nodes) && node.id in Ids(KeepNode(byId, node, k).nodes)
    decreases byId.Keys - k.ids, 0
  {
    if node.id !in k.ids {
      assert node.id in byId.Keys - k.ids;
      var k1 := k.(ids := k.ids + {node.id});
      assert forall d | d in node.deps && d != node.id ::
               d in Others(DepsMap(byId))[node.id] && rank[d] < rank[node.id];
      KeepDepsSound(byId, node.deps, k1);
      KeepDepsTopological(byId, rank, node.id, node.deps, k1);
      var r := KeepDeps(byId, node.deps, k1);
      AppendTopological(r.nodes, node);
    }
  }

  lemma {:induction false} KeepDepsTopological(byId: Plan, rank: map<TaskId, nat>, self: TaskId, deps: seq<TaskId>,
                                               k: Kept)
    requires WellKeyed(byId) && k.ids <= byId.Keys && Sound(byId, k) && self in k.ids
    requires KnownDeps(byId) && Ranked(Others(DepsMap(byId)), rank)
    requires forall d | d in deps :: d in byId && (d == self || rank[d] < rank[self])
    requires Topological(k.nodes) && forall t | t in k.ids && t !in Ids(k.nodes) :: t in rank && rank[self] <= rank[t]
    ensures Topological(KeepDeps(byId, deps, k).nodes)
    ensures forall d | d in deps && d != self :: d in Ids(KeepDeps(byId, deps, k).nodes)
    decreases byId.Keys - k.ids, 1 + |deps|
  {
    if deps != [] {
      var node := byId[deps[0]];
      var r := KeepNode(byId, node, k);
      SmallerLeft(byId.Keys, k.ids, r.ids);
      KeepNodeSound(byId, node, k);
      if deps[0] != self {
        KeepNodeTopological(byId, rank, node, k);
      }
      KeepDepsSound(byId, deps[1..], r);
      assert forall t | t in r.ids && t !in Ids(r.nodes) :: t in k.ids - Ids(k.nodes) by {
        assert forall t | t in r.ids && t !in Ids(r.nodes) :: t in r.ids - Ids(r.nodes);
      }
      KeepDepsTopological(byId, rank, self, deps[1..], r);
      IdsMonotone(r.nodes, KeepDeps(byId, deps[1..], r).nodes);
    }
  }

  lemma IdsMonotone(a: seq<Node>, b: seq<Node>)
    requires a <= b
    ensures Ids(a) <= Ids(b)
  {
    assert forall n | n in a :: n in b;
  }

  lemma AppendTopological(nodes: seq<Node>, node: Node)
    requires Topological(nodes) && forall d | d in node.deps && d != node.id :: d in Ids(nodes)
    ensures Topological(nodes + [node])
  {
    forall i, d | 0 <= i <= |nodes| && d in (nodes + [node])[i].deps && d != (nodes + [node])[i].id
      ensures d in Ids((nodes + [node])[..i])
    {
      assert (nodes + [node])[..i] == nodes[..i];
      if i == |nodes| {
        assert nodes[..i] == nodes;
      }
    }
  }

  /** A prefix of a topological order still holds all dependencies of what it holds. */
  lemma PrefixClosed(nodes: seq<Node>, n: nat)
    requires Topological(nodes) && n <= |nodes|
    ensures Topological(nodes[..n]) && ClosedUnderDeps(nodes[..n])
  {
    forall i, d | 0 <= i < n && d in nodes[..n][i].deps
      ensures d != nodes[i].id ==> d in Ids(nodes[..n][..i])
      ensures d in Ids(nodes[..n])
    {
      assert nodes[..n][..i] == nodes[..i];
      IdsMonotone(nodes[..i], nodes[..n]);
      assert nodes[i] in nodes[..n];
    }
  }

  predicate ClosedUnderDeps(nodes: seq<Node>) {
    forall n, d | n in nodes && d in n.deps :: d in Ids(nodes)
  }

  // ---- the method ----

  /** `{n["task_id"]: n for n in nodes}`: the last node with an id wins. */
  function ById(nodes: seq<Node>): (r: Plan)
    ensures WellKeyed(r)
    ensures forall n | n in nodes :: n.id in r
  {
    if nodes == [] then map[] else ById(nodes[..|nodes| - 1])[nodes[|nodes| - 1].id := nodes[|nodes| - 1]]
  }

  lemma {:induction false} ByIdFrom(nodes: seq<Node>)
    ensures forall t | t in ById(nodes) :: ById(nodes)[t] in nodes
  {
    if nodes != [] {
      var m := |nodes| - 1;
      ByIdFrom(nodes[..m]);
      ByIdLast(nodes);
      hide ById;
      assert nodes == nodes[..m] + [nodes[m]];
    }
  }

  lemma {:induction false} ByIdHolds(nodes: seq<Node>)
    requires DistinctIds(nodes)
    ensures forall n | n in nodes :: n.id in ById(nodes) && ById(nodes)[n.id] == n
  {
    if nodes != [] {
      var m := |nodes| - 1;
      ByIdHolds(nodes[..m]);
      ByIdLast(nodes);
      LastIdNew(nodes);
      hide ById, DistinctIds;
      assert nodes == nodes[..m] + [nodes[m]];
    }
  }

  lemma {:induction false} ByIdCount(nodes: seq<Node>)
    requires DistinctIds(nodes)
    ensures |ById(nodes)| == |nodes|
  {
    if nodes != [] {
      var m := |nodes| - 1;
      ByIdCount(nodes[..m]);
      ByIdFrom(nodes[..m]);
      ByIdLast(nodes);
      LastIdNew(nodes);
      hide ById, DistinctIds;
      assert nodes[m].id !in ById(nodes[..m]);
    }
  }

  lemma ByIdUnique(nodes: seq<Node>)
    requires DistinctIds(nodes)
    ensures forall n | n in nodes :: n.id in ById(nodes) && ById(nodes)[n.id] == n
    ensures forall t | t in ById(nodes) :: ById(nodes)[t] in nodes
    ensures |ById(nodes)| == |nodes|
  {
    ByIdFrom(nodes);
    ByIdHolds(nodes);
    ByIdCount(nodes);
  }

  lemma LastIdNew(nodes: seq<Node>)
    requires DistinctIds(nodes) && nodes != []
    ensures forall n | n in nodes[..|nodes| - 1] :: n.id != nodes[|nodes| - 1].id
  {}

  lemma ByIdLast(nodes: seq<Node>)
    requires nodes != []
    ensures var m := |nodes| - 1; ById(nodes) == ById(nodes[..m])[nodes[m].id := nodes[m]]
    ensures var m := |nodes| - 1; WellKeyed(ById(nodes[..m]))
  {}

  /** The nested function's two variables, shared by all its calls. */
  class Keeper {
    var kept: seq<Node>
    var keptIds: set<TaskId>

    constructor ()
      ensures kept == [] && keptIds == {}
    {
      kept, keptIds := [], {};
    }

    function State(): Kept
      reads this
    {
      Kept(kept, keptIds)
    }

    method Keep(byId: Plan, node: Node)
      requires WellKeyed(byId) && node.id in byId && keptIds <= byId.Keys
      modifies this
      ensures State() == KeepNode(byId, node, old(State()))
      decreases byId.Keys - keptIds
    {
      if node.id in keptIds {
        return;
      }
      assert node.id in byId.Keys - keptIds;
      keptIds := keptIds + {node.id};
      ghost var start := State();
      for i := 0 to |node.deps|
        invariant start.ids <= keptIds <= byId.Keys
        invariant KeepDeps(byId, node.deps, start) == KeepDeps(byId, node.deps[i..], State())
      {
        var d := node.deps[i];
        assert node.deps[i..][0] == d && node.deps[i..][1..] == node.deps[i + 1..];
        if d in byId {
          assert node.id in keptIds && byId.Keys - keptIds < byId.Keys - old(keptIds);
          Keep(byId, byId[d]);
        }
      }
      assert node.deps[|node.deps|..] == [];
      kept := kept + [node];
    }
  }

  /** The state of the outer loop after some of the nodes. */
  function KeepPrefix(byId: Plan, nodes: seq<Node>, limit: int, k: Kept): (r: Kept)
    requires WellKeyed(byId) && k.ids <= byId.Keys && forall n | n in nodes :: n.id in byId
    ensures r.ids <= byId.Keys
  {
    if nodes == [] || |k.nodes| >= limit then k
    else KeepPrefix(byId, nodes[1..], limit, KeepNode(byId, nodes[0], k))
  }

  /** What _cap_nodes returns. */
  function Capped(nodes: seq<Node>, limit: int): seq<Node> {
    if |nodes| <= limit then nodes
    else
      var all := KeepPrefix(ById(nodes), nodes, limit, Kept([], {})).nodes;
      if limit <= 0 then [] else if |all| <= limit then all else all[..limit]
  }

  method CapNodes(nodes: seq<Node>, limit: int) returns (r: seq<Node>)
    ensures r == Capped(nodes, limit)
  {
    if |nodes| <= limit {
      return nodes;
    }
    hide KeepNode, WellKeyed;
    var byId: Plan := map[];
    for i := 0 to |nodes|
      invariant byId == ById(nodes[..i])
    {
      assert nodes[..i + 1][..i] == nodes[..i];
      byId := byId[nodes[i].id := nodes[i]];
    }
    assert nodes[..|nodes|] == nodes;
    var keeper := new Keeper();
    var i := 0;
    while i < |nodes| && |keeper.kept| < limit
      invariant 0 <= i <= |nodes| && keeper.keptIds <= byId.Keys
      invariant KeepPrefix(byId, nodes, limit, Kept([], {})) == KeepPrefix(byId, nodes[i..], limit, keeper.State())
    {
      assert nodes[i..][0] == nodes[i] && nodes[i..][1..] == nodes[i + 1..];
      keeper.Keep(byId, nodes[i]);
      i := i + 1;
    }
    if limit <= 0 {
      return [];
    }
    r := if |keeper.kept| <= limit then keeper.kept else keeper.kept[..limit];
  }

  // ---- the theorem ----

  lemma NothingOpen(k: Kept)
    requires Ids(k.nodes) <= k.ids && k.ids - Ids(k.nodes) == {}
    ensures k.ids == Ids(k.nodes)
  {
    forall t | t in k.ids
      ensures t in Ids(k.nodes)
    {
      assert t !in k.ids - Ids(k.nodes);
    }
  }

  lemma {:induction false} KeepPrefixSound(byId: Plan, nodes: seq<Node>, limit: int, k: Kept)
    requires WellKeyed(byId) && k.ids <= byId.Keys && Sound(byId, k) && k.ids == Ids(k.nodes)
    requires forall n | n in nodes :: n.id in byId && byId[n.id] == n
    ensures var r := KeepPrefix(byId, nodes, limit, k);
            Sound(byId, r) && r.ids == Ids(r.nodes) && (|r.nodes| >= limit || forall n | n in nodes :: n.id in r.ids)
            && k.ids <= r.ids
  {
    if nodes != [] && |k.nodes| < limit {
      KeepNodeSound(byId, nodes[0], k);
      var r := KeepNode(byId, nodes[0], k);
      NothingOpen(r);
      KeepPrefixSound(byId, nodes[1..], limit, r);
      assert nodes == [nodes[0]] + nodes[1..];
    }
  }

  lemma {:induction false} KeepPrefixTopological(byId: Plan, rank: map<TaskId, nat>, nodes: seq<Node>, limit: int,
                                                 k: Kept)
    requires WellKeyed(byId) && k.ids <= byId.Keys && Sound(byId, k) && k.ids == Ids(k.nodes) && Topological(k.nodes)
    requires forall n | n in nodes :: n.id in byId && byId[n.id] == n
    requires KnownDeps(byId) && Ranked(Others(DepsMap(byId)), rank)
    ensures Topological(KeepPrefix(byId, nodes, limit, k).nodes)
  {
    if nodes != [] && |k.nodes| < limit {
      KeepNodeSound(byId, nodes[0], k);
      KeepNodeTopological(byId, rank, nodes[0], k);
      var r := KeepNode(byId, nodes[0], k);
      NothingOpen(r);
      KeepPrefixTopological(byId, rank, nodes[1..], limit, r);
    }
  }

  lemma DistinctCount(nodes: seq<Node>)
    requires DistinctIds(nodes)
    ensures |Ids(nodes)| == |nodes|
  {
    if nodes != [] {
      var m := |nodes| - 1;
      DistinctCount(nodes[..m]);
      assert nodes == nodes[..m] + [nodes[m]];
      assert Ids(nodes) == Ids(nodes[..m]) + {nodes[m].id};
      assert nodes[m].id !in Ids(nodes[..m]);
    }
  }

  /** The outer loop stops early only once it has kept enough. */
  lemma KeepsEnough(nodes: seq<Node>, limit: nat)
    requires DistinctIds(nodes) && |nodes| > limit
    ensures var r := KeepPrefix(ById(nodes), nodes, limit, Kept([], {}));
            Sound(ById(nodes), r) && |r.nodes| >= limit
  {
    var byId := ById(nodes);
    ByIdUnique(nodes);
    KeepPrefixSound(byId, nodes, limit, Kept([], {}));
    var r := KeepPrefix(byId, nodes, limit, Kept([], {}));
    if forall n | n in nodes :: n.id in r.ids {
      assert byId.Keys <= r.ids by {
        assert forall t | t in byId :: byId[t] in nodes && byId[t].id == t;
      }
      assert |byId.Keys| == |byId|;
      DistinctCount(r.nodes);
      assert r.ids == byId.Keys;
    }
  }

  /** On any plan with unique ids the cap keeps exactly as many nodes as it may, none of them twice. */
  lemma CapKeepsAsManyAsAllowed(nodes: seq<Node>, limit: nat)
    requires DistinctIds(nodes)
    ensures |Capped(nodes, limit)| == if |nodes| <= limit then |nodes| else limit
    ensures DistinctIds(Capped(nodes, limit))
    ensures forall n | n in Capped(nodes, limit) :: n in nodes
  {
    if |nodes| > limit {
      hide KeepPrefix, ById, DistinctIds, Sound;
      KeepsEnough(nodes, limit);
      var all := KeepPrefix(ById(nodes), nodes, limit, Kept([], {})).nodes;
      assert Capped(nodes, limit) == all[..limit];
      PrefixSound(nodes, KeepPrefix(ById(nodes), nodes, limit, Kept([], {})), limit);
    }
  }

  lemma PrefixSound(nodes: seq<Node>, k: Kept, limit: nat)
    requires DistinctIds(nodes) && Sound(ById(nodes), k) && limit <= |k.nodes|
    ensures DistinctIds(k.nodes[..limit])
    ensures forall n | n in k.nodes[..limit] :: n in nodes
  {
    ByIdUnique(nodes);
    hide ById;
    forall n | n in k.nodes[..limit]
      ensures n in nodes
    {
      assert n in k.nodes;
      assert ById(nodes)[n.id] in nodes;
    }
  }

  /** Without cycles, tasks that list themselves apart, nothing kept depends on anything dropped. */
  lemma CapKeepsClosure(nodes: seq<Node>, limit: nat)
    requires DistinctIds(nodes) && KnownDeps(ById(nodes)) && Acyclic(Others(DepsMap(ById(nodes))))
    ensures ClosedUnderDeps(Capped(nodes, limit))
    ensures |nodes| > limit ==> Topological(Capped(nodes, limit))
    ensures |nodes| > limit ==> forall n | 0 <= n <= limit ::
              n <= |Capped(nodes, limit)| && ClosedUnderDeps(Capped(nodes, limit)[..n])
  {
    var byId := ById(nodes);
    ByIdUnique(nodes);
    CapKeepsAsManyAsAllowed(nodes, limit);
    if |nodes| <= limit {
      forall n, d | n in nodes && d in n.deps
        ensures d in Ids(nodes)
      {
        assert byId[n.id] == n && d in byId;
        assert byId[d] in nodes && byId[d].id == d;
      }
    } else {
      var rank :| Ranked(Others(DepsMap(byId)), rank);
      KeepPrefixTopological(byId, rank, nodes, limit, Kept([], {}));
      var all := KeepPrefix(byId, nodes, limit, Kept([], {})).nodes;
      assert Capped(nodes, limit) == all[..limit];
      PrefixClosed(all, limit);
      forall n | 0 <= n <= limit
        ensures ClosedUnderDeps(Capped(nodes, limit)[..n])
      {
        PrefixClosed(all[..limit], n);
      }
    }
  }

  // ---- which nodes survive: the plan's own order, needs first ----

  /** Keeping a node marks only what it needs, directly or not. */
  lemma {:induction false} KeepNodeReaches(byId: Plan, node: Node, k: Kept, x: TaskId)
    requires WellKeyed(byId) && node.id in byId && byId[node.id] == node && k.ids <= byId.Keys
    requires x in KeepNode(byId, node, k).ids && x !in k.ids
    ensures Reach(DepsMap(byId), node.id, x)
    decreases byId.Keys - k.ids, 0
  {
    assert node.id in byId.Keys - k.ids;
    if x == node.id {
      ReachSelf(DepsMap(byId), x);
    } else {
      var d := KeepDepsReaches(byId, node.deps, k.(ids := k.ids + {node.id}), x);
      ReachEdge(DepsMap(byId), node.id, d);
      ReachTransitive(DepsMap(byId), node.id, d, x);
    }
  }

  lemma {:induction false} KeepDepsReaches(byId: Plan, deps: seq<TaskId>, k: Kept, x: TaskId) returns (d: TaskId)
    requires WellKeyed(byId) && k.ids <= byId.Keys
    requires x in KeepDeps(byId, deps, k).ids && x !in k.ids
    ensures d in deps && d in byId && Reach(DepsMap(byId), d, x)
    decreases byId.Keys - k.ids, 1 + |deps|
  {
    d := deps[0];
    var r := if d in byId then KeepNode(byId, byId[d], k) else k;
    SmallerLeft(byId.Keys, k.ids, r.ids);
    if x in r.ids {
      KeepNodeReaches(byId, byId[d], k, x);
    } else {
      d := KeepDepsReaches(byId, deps[1..], r, x);
    }
  }

  lemma {:induction false} KeepPrefixReaches(byId: Plan, nodes: seq<Node>, limit: int, k: Kept, x: TaskId)
    requires WellKeyed(byId) && k.ids <= byId.Keys && forall n | n in nodes :: n.id in byId && byId[n.id] == n
    requires x in KeepPrefix(byId, nodes, limit, k).ids && x !in k.ids
    ensures exists n :: n in nodes && Reach(DepsMap(byId), n.id, x)
  {
    var r := KeepNode(byId, nodes[0], k);
    if x in r.ids {
      KeepNodeReaches(byId, nodes[0], k, x);
      assert nodes[0] in nodes;
    } else {
      KeepPrefixReaches(byId, nodes[1..], limit, r, x);
      var n :| n in nodes[1..] && Reach(DepsMap(byId), n.id, x);
      assert n in nodes;
    }
  }

  /** The outer loop goes through the plan in its order. */
  lemma {:induction false} KeepPrefixSplit(byId: Plan, nodes: seq<Node>, j: nat, limit: int, k: Kept)
    requires WellKeyed(byId) && k.ids <= byId.Keys && (forall n | n in nodes :: n.id in byId) && j <= |nodes|
    ensures KeepPrefix(byId, nodes, limit, k)
         == KeepPrefix(byId, nodes[j..], limit, KeepPrefix(byId, nodes[..j], limit, k))
    decreases j
  {
    if j == 0 {
      assert nodes[0..] == nodes && nodes[..0] == [];
    } else if |k.nodes| < limit {
      assert nodes[..j][0] == nodes[0] && nodes[..j][1..] == nodes[1..][..j - 1];
      assert nodes[1..][j - 1..] == nodes[j..];
      KeepPrefixSplit(byId, nodes[1..], j - 1, limit, KeepNode(byId, nodes[0], k));
    }
  }

  /**
   The cut follows the plan's order: a node that is kept although nothing before it
   in the plan needs it is kept together with every node before it.
   */
  lemma CapFollowsThePlan(nodes: seq<Node>, limit: nat, i: nat, j: nat)
    requires DistinctIds(nodes) && i < j < |nodes| && nodes[j] in Capped(nodes, limit)
    requires forall k | 0 <= k < j :: !Reach(DepsMap(ById(nodes)), nodes[k].id, nodes[j].id)
    ensures nodes[i] in Capped(nodes, limit)
  {
    hide *;
    if |nodes| > limit {
      var byId, empty := ById(nodes), Kept([], {});
      ByIdUnique(nodes);
      NothingKept(byId);
      SlicesKnown(byId, nodes, j);
      CappedCuts(nodes, limit);
      var before, all := KeepPrefix(byId, nodes[..j], limit, empty), KeepPrefix(byId, nodes, limit, empty);
      KeepPrefixSplit(byId, nodes, j, limit, empty);
      KeepPrefixSound(byId, nodes[..j], limit, empty);
      KeepPrefixExtends(byId, nodes[j..], limit, limit, before);
      if nodes[j].id in before.ids {
        KeepPrefixReaches(byId, nodes[..j], limit, empty, nodes[j].id);
        assert false;
      }
      CutAfter(byId, before, all, limit, nodes[i], nodes[j], nodes[..j], nodes[j..]);
    } else {
      SmallUncut(nodes, limit);
    }
  }

  lemma SmallUncut(nodes: seq<Node>, limit: int)
    requires |nodes| <= limit
    ensures Capped(nodes, limit) == nodes
  {}

  lemma NothingKept(byId: Plan)
    ensures Sound(byId, Kept([], {})) && Ids([]) == {}
  {}

  lemma SlicesKnown(byId: Plan, nodes: seq<Node>, j: nat)
    requires j <= |nodes| && forall n | n in nodes :: n.id in byId && byId[n.id] == n
    ensures forall n | n in nodes[..j] || n in nodes[j..] :: n.id in byId && byId[n.id] == n
    ensures forall n | n in nodes[..j] :: exists k :: 0 <= k < j && nodes[k] == n
    ensures forall k | 0 <= k < j :: nodes[k] in nodes[..j]
  {}

  lemma PrefixIds(nodes: seq<Node>, n: nat, b: Node)
    requires n <= |nodes| && b in nodes[..n]
    ensures b.id in Ids(nodes)
  {
    assert b in nodes;
  }

  lemma CutAfter(byId: Plan, before: Kept, all: Kept, limit: nat, a: Node, b: Node, earlier: seq<Node>,
                 later: seq<Node>)
    requires WellKeyed(byId) && Sound(byId, before) && before.ids <= byId.Keys && before.ids == Ids(before.nodes)
    requires forall n | n in later :: n.id in byId
    requires all == KeepPrefix(byId, later, limit, before) && before.nodes <= all.nodes && limit <= |all.nodes|
    requires |before.nodes| >= limit || forall n | n in earlier :: n.id in before.ids
    requires a in earlier && a.id in byId && byId[a.id] == a
    requires b.id !in before.ids && b in all.nodes[..limit]
    ensures a in all.nodes[..limit]
  {
    hide KeepNode, KeepDeps;
    assert |before.nodes| < limit by {
      if |before.nodes| >= limit {
        PrefixIds(before.nodes, limit, b);
        assert false;
      }
    }
    assert a.id in Ids(before.nodes);
    var k :| 0 <= k < |before.nodes| && before.nodes[k].id == a.id;
    assert before.nodes[k] in before.nodes;
    assert all.nodes[..limit][k] == a;
  }

  // ---- only such plans are safe to cap ----

  /** Raising the limit only adds to the end of what is kept. */
  lemma {:induction false} KeepPrefixExtends(byId: Plan, nodes: seq<Node>, l: int, m: int, k: Kept)
    requires WellKeyed(byId) && k.ids <= byId.Keys && Sound(byId, k) && k.ids == Ids(k.nodes) && l <= m
    requires forall n | n in nodes :: n.id in byId && byId[n.id] == n
    ensures k.nodes <= KeepPrefix(byId, nodes, l, k).nodes <= KeepPrefix(byId, nodes, m, k).nodes
  {
    if nodes != [] && |k.nodes| < m {
      KeepNodeSound(byId, nodes[0], k);
      var r := KeepNode(byId, nodes[0], k);
      NothingOpen(r);
      KeepPrefixExtends(byId, nodes[1..], l, m, r);
    }
  }

  lemma CappedCuts(nodes: seq<Node>, limit: nat)
    requires DistinctIds(nodes) && limit < |nodes|
    ensures var all := KeepPrefix(ById(nodes), nodes, limit, Kept([], {})).nodes;
            limit <= |all| && Capped(nodes, limit) == all[..limit]
  {
    KeepsEnough(nodes, limit);
    hide KeepPrefix, ById, Sound, DistinctIds;
  }

  lemma PrefixCuts(few: seq<Node>, many: seq<Node>, l: nat, m: nat)
    requires few <= many && l <= m <= |many| && l <= |few|
    ensures few[..l] == many[..m][..l]
  {}

  lemma CappedIsPrefix(nodes: seq<Node>, l: nat, m: nat)
    requires DistinctIds(nodes) && l <= m < |nodes|
    ensures |Capped(nodes, m)| == m && Capped(nodes, l) == Capped(nodes, m)[..l]
  {
    hide KeepPrefix, Capped;
    CappedCuts(nodes, l);
    CappedCuts(nodes, m);
    ByIdUnique(nodes);
    KeepPrefixExtends(ById(nodes), nodes, l, m, Kept([], {}));
    hide ById, Sound, DistinctIds, WellKeyed, Ids;
    PrefixCuts(KeepPrefix(ById(nodes), nodes, l, Kept([], {})).nodes,
               KeepPrefix(ById(nodes), nodes, m, Kept([], {})).nodes, l, m);
  }

  /** In a cut that is closed the last node's other dependencies come before it. */
  lemma LastDependencyEarlier(k: seq<Node>, i: nat, d: TaskId)
    requires i < |k| && ClosedUnderDeps(k[..i + 1]) && d in k[i].deps && d != k[i].id
    ensures d in Ids(k[..i])
  {
    assert k[..i + 1] == k[..i] + [k[i]];
    assert k[i] in k[..i + 1] && d in Ids(k[..i + 1]);
  }

  /** If every cut is closed, the longest one is in topological order. */
  lemma ClosedCutsAreTopological(nodes: seq<Node>)
    requires DistinctIds(nodes) && |nodes| > 0
    requires forall limit: nat :: ClosedUnderDeps(Capped(nodes, limit))
    ensures Topological(Capped(nodes, |nodes| - 1))
  {
    hide Capped, ClosedUnderDeps, Ids, DistinctIds;
    var k := Capped(nodes, |nodes| - 1);
    CapKeepsAsManyAsAllowed(nodes, |nodes| - 1);
    forall i, d | 0 <= i < |k| && d in k[i].deps && d != k[i].id
      ensures d in Ids(k[..i])
    {
      CappedIsPrefix(nodes, i + 1, |nodes| - 1);
      LastDependencyEarlier(k, i, d);
    }
  }

  ghost function Position(nodes: seq<Node>, t: TaskId): (i: nat)
    ensures i <= |nodes| && (i < |nodes| ==> nodes[i].id == t) && (i == |nodes| ==> t !in Ids(nodes))
  {
    if t in Ids(nodes) then
      var i :| 0 <= i < |nodes| && nodes[i].id == t;
      i
    else |nodes|
  }

  /** All but one of the plan's tasks in topological order leave no room for a cycle. */
  lemma TopologicalIsAcyclic(byId: Plan, k: seq<Node>)
    requires WellKeyed(byId) && KnownDeps(byId) && Sound(byId, Kept(k, Ids(k))) && Topological(k)
    requires |byId| == |k| + 1
    ensures Acyclic(Others(DepsMap(byId)))
  {
    DistinctCount(k);
    assert Ids(k) <= byId.Keys;
    assert |byId.Keys - Ids(k)| == 1;
    var rank := map t | t in byId :: Position(k, t);
    forall t, d | t in Others(DepsMap(byId)) && d in Others(DepsMap(byId))[t] && d in Others(DepsMap(byId))
      ensures rank[d] < rank[t]
    {
      assert d in byId[t].deps && d != t && d in byId;
      var i := Position(k, t);
      if i < |k| {
        assert k[i] in k && byId[t] == k[i];
        assert d in Ids(k[..i]);
        var n :| n in k[..i] && n.id == d;
        var j :| 0 <= j < i && k[j].id == d;
        assert Position(k, d) == j;
      } else {
        SoleLeftover(byId.Keys - Ids(k), t, d);
      }
    }
    assert Ranked(Others(DepsMap(byId)), rank);
  }

  lemma SoleLeftover(left: set<TaskId>, t: TaskId, d: TaskId)
    requires |left| == 1 && t in left && d != t
    ensures d !in left
  {
    assert |left - {t}| == 0;
  }

  /**
   For plans with unique ids and known dependencies: no cut, whatever the bound,
   keeps a node and drops one it depends on, if and only if the dependencies have
   no cycle through two tasks or more.
   */
  lemma CapClosedIffAcyclic(nodes: seq<Node>)
    requires DistinctIds(nodes) && KnownDeps(ById(nodes))
    ensures (forall limit: nat :: ClosedUnderDeps(Capped(nodes, limit))) <==> Acyclic(Others(DepsMap(ById(nodes))))
  {
    hide Capped, Acyclic, ClosedUnderDeps;
    if Acyclic(Others(DepsMap(ById(nodes)))) {
      forall limit: nat
        ensures ClosedUnderDeps(Capped(nodes, limit))
      {
        CapKeepsClosure(nodes, limit);
      }
    }
    if forall limit: nat :: ClosedUnderDeps(Capped(nodes, limit)) {
      ClosedCutsAcyclic(nodes);
    }
  }

  lemma ClosedCutsAcyclic(nodes: seq<Node>)
    requires DistinctIds(nodes) && KnownDeps(ById(nodes))
    requires forall limit: nat :: ClosedUnderDeps(Capped(nodes, limit))
    ensures Acyclic(Others(DepsMap(ById(nodes))))
  {
    var byId := ById(nodes);
    ByIdUnique(nodes);
    if nodes == [] {
      assert Ranked(Others(DepsMap(byId)), map[]);
    } else {
      ClosedCutsAreTopological(nodes);
      var k := Capped(nodes, |nodes| - 1);
      CapKeepsAsManyAsAllowed(nodes, |nodes| - 1);
      hide Capped;
      assert forall n | n in k :: n.id in byId && byId[n.id] == n;
      TopologicalIsAcyclic(byId, k);
    }
  }

  /** On a cyclic plan, which _validate_nodes lets through, a kept node can depend on a dropped one. */
  lemma CapBreaksCycles()
    ensures var plan := [Node("a", "research", ["b"]), Node("b", "analyze", ["a"])];
            DistinctIds(plan) && KnownDeps(ById(plan)) && !ClosedUnderDeps(Capped(plan, 1))
  {
    var a, b := Node("a", "research", ["b"]), Node("b", "analyze", ["a"]);
    var plan := [a, b];
    var byId := ById(plan);
    assert byId == map["a" := a, "b" := b] by {
      assert plan[..1] == [a] && [a][..0] == [];
      assert ById([a]) == map["a" := a];
    }
    CycleKept(byId, a, b);
    assert plan[0] == a;
    assert KeepPrefix(byId, plan, 1, Kept([], {})) == Kept([b, a], {"a", "b"});
    assert Capped(plan, 1) == [b, a][..1] == [b];
    assert Ids([b]) == {"b"};
    assert "a" in b.deps && b in [b];
  }

  lemma CycleKept(byId: Plan, a: Node, b: Node)
    requires a == Node("a", "research", ["b"]) && b == Node("b", "analyze", ["a"])
    requires byId == map["a" := a, "b" := b]
    ensures KeepNode(byId, a, Kept([], {})) == Kept([b, a], {"a", "b"})
  {
    assert ["a"][1..] == [] && ["b"][1..] == [];
    assert {"a"} + {"b"} == {"a", "b"} && {} + {"a"} == {"a"};
    assert KeepNode(byId, a, Kept([], {"a", "b"})) == Kept([], {"a", "b"});
    assert KeepDeps(byId, ["a"], Kept([], {"a", "b"})) == Kept([], {"a", "b"});
    assert KeepNode(byId, b, Kept([], {"a"})) == Kept([b], {"a", "b"});
    assert KeepDeps(byId, ["b"], Kept([], {"a"})) == Kept([b], {"a", "b"});
  }
}
