/**
 Dependency graphs as values: the relations and functions that the mutable
 TaskDAG class and the run protocol are both specified with.
 */
module Graphs {
  import opened Contract

  /** task -> the tasks on the other end of its edges (dependencies or dependents). */
  type Edges = map<TaskId, set<TaskId>>

  datatype DagStatus = Pending | Completed | Failed

  ghost function Nodes(e: Edges): set<TaskId> {
    e.Keys + (set k, x | k in e && x in e[k] :: x)
  }

  predicate Edge(e: Edges, a: TaskId, b: TaskId) {
    a in e && b in e[a]
  }

  ghost predicate Path(e: Edges, p: seq<TaskId>) {
    |p| > 0 && forall i | 0 <= i < |p| - 1 :: Edge(e, p[i], p[i + 1])
  }

  ghost predicate PathFromTo(e: Edges, p: seq<TaskId>, a: TaskId, b: TaskId) {
    Path(e, p) && p[0] == a && p[|p| - 1] == b
  }

  /** b can be reached from a along zero or more edges. */
  ghost predicate Reach(e: Edges, a: TaskId, b: TaskId) {
    exists p :: PathFromTo(e, p, a, b)
  }

  /** Everything reachable from t, t itself excluded. */
  ghost function Descendants(e: Edges, t: TaskId): set<TaskId> {
    set x | x in Nodes(e) && x != t && Reach(e, t, x)
  }

  /** The dependents map that goes with a dependencies map. */
  function Dependents(deps: Edges): Edges {
    map d | d in deps :: set c | c in deps && d in deps[c]
  }

  predicate Closed(deps: Edges) {
    forall t | t in deps :: deps[t] <= deps.Keys
  }

  ghost predicate Ranked(deps: Edges, rank: map<TaskId, nat>) {
    && rank.Keys == deps.Keys
    && forall t, d | t in deps && d in deps[t] && d in deps :: rank[d] < rank[t]
  }

  /** The dependencies admit a numbering in which each task follows what it waits for. */
  ghost predicate Acyclic(deps: Edges) {
    exists rank :: Ranked(deps, rank)
  }

  /** The tasks without dependencies. */
  function Roots(deps: Edges): set<TaskId> {
    set t | t in deps && deps[t] == {}
  }

  /** A list of exactly the members of a set, each once. */
  predicate Lists(batch: seq<TaskId>, ts: set<TaskId>) {
    && (forall i | 0 <= i < |batch| :: batch[i] in ts)
    && (forall t | t in ts :: t in batch)
    && (forall i, j | 0 <= i < j < |batch| :: batch[i] != batch[j])
  }

  lemma ListsExtended(batch: seq<TaskId>, ts: set<TaskId>, t: TaskId)
    requires Lists(batch, ts) && t !in ts
    ensures Lists(batch + [t], ts + {t})
  {}

  predicate HasStatus(status: map<TaskId, DagStatus>, t: TaskId, s: DagStatus) {
    t in status && status[t] == s
  }

  predicate DepsCompleted(deps: Edges, status: map<TaskId, DagStatus>, t: TaskId)
    requires t in deps
  {
    forall d | d in deps[t] :: HasStatus(status, d, Completed)
  }

  /** Pending tasks all of whose dependencies are completed. */
  function ReadySet(deps: Edges, status: map<TaskId, DagStatus>): set<TaskId> {
    set t | t in deps && HasStatus(status, t, Pending) && DepsCompleted(deps, status, t)
  }

  // ---- paths ----

  lemma ReachSelf(e: Edges, a: TaskId)
    ensures Reach(e, a, a)
  {
    assert PathFromTo(e, [a], a, a);
  }

  lemma ReachEdge(e: Edges, a: TaskId, b: TaskId)
    requires Edge(e, a, b)
    ensures Reach(e, a, b)
  {
    assert PathFromTo(e, [a, b], a, b);
  }

  lemma ReachTransitive(e: Edges, a: TaskId, b: TaskId, c: TaskId)
    requires Reach(e, a, b) && Reach(e, b, c)
    ensures Reach(e, a, c)
  {
    var p :| PathFromTo(e, p, a, b);
    var q :| PathFromTo(e, q, b, c);
    var r := p + q[1..];
    forall i | 0 <= i < |r| - 1
      ensures Edge(e, r[i], r[i + 1])
    {
      if i < |p| - 1 {
        assert Edge(e, p[i], p[i + 1]);
      } else {
        assert r[i] == q[i - |p| + 1];
        assert Edge(e, q[i - |p| + 1], q[i - |p| + 2]);
      }
    }
    assert PathFromTo(e, r, a, c);
  }

  /** A path that goes anywhere ends with an edge. */
  lemma LastEdge(e: Edges, a: TaskId, c: TaskId) returns (b: TaskId)
    requires Reach(e, a, c) && a != c
    ensures Reach(e, a, b) && Edge(e, b, c)
  {
    var p :| PathFromTo(e, p, a, c);
    b := p[|p| - 2];
    assert Edge(e, p[|p| - 2], p[|p| - 1]);
    assert PathFromTo(e, p[..|p| - 1], a, b);
  }

  /** A path that goes anywhere starts with an edge. */
  lemma FirstEdge(e: Edges, a: TaskId, c: TaskId) returns (b: TaskId)
    requires Reach(e, a, c) && a != c
    ensures Edge(e, a, b) && Reach(e, b, c)
  {
    var p :| PathFromTo(e, p, a, c);
    b := p[1];
    assert Edge(e, p[0], p[1]);
    var q := p[1..];
    forall i | 0 <= i < |q| - 1
      ensures Edge(e, q[i], q[i + 1])
    {
      assert Edge(e, p[i + 1], p[i + 2]);
    }
    assert PathFromTo(e, q, b, c);
  }

  /** A set closed under the edges contains everything reachable from its members. */
  lemma ClosedUnderEdges(e: Edges, s: set<TaskId>, a: TaskId, b: TaskId)
    requires forall x, y | x in s && Edge(e, x, y) :: y in s
    requires a in s && Reach(e, a, b)
    ensures b in s
  {
    var p :| PathFromTo(e, p, a, b);
    var i := 0;
    while i < |p| - 1
      invariant 0 <= i < |p|
      invariant p[i] in s
    {
      assert Edge(e, p[i], p[i + 1]);
      i := i + 1;
    }
  }

  lemma DescendantsStep(e: Edges, t: TaskId, x: TaskId, y: TaskId)
    requires Edge(e, x, y) && y != t
    requires x == t || x in Descendants(e, t)
    ensures y in Descendants(e, t)
  {
    ReachEdge(e, x, y);
    ReachSelf(e, t);
    ReachTransitive(e, t, x, y);
  }

  /** Turning every edge round turns every path round. */
  lemma ReachReversed(deps: Edges, a: TaskId, b: TaskId)
    requires Closed(deps)
    ensures Reach(deps, b, a) <==> Reach(Dependents(deps), a, b)
  {
    if Reach(deps, b, a) {
      var p :| PathFromTo(deps, p, b, a);
      var q := seq(|p|, i requires 0 <= i < |p| => p[|p| - 1 - i]);
      forall i | 0 <= i < |q| - 1
        ensures Edge(Dependents(deps), q[i], q[i + 1])
      {
        assert Edge(deps, p[|p| - 2 - i], p[|p| - 1 - i]);
      }
      assert PathFromTo(Dependents(deps), q, a, b);
    }
    if Reach(Dependents(deps), a, b) {
      var p :| PathFromTo(Dependents(deps), p, a, b);
      var q := seq(|p|, i requires 0 <= i < |p| => p[|p| - 1 - i]);
      forall i | 0 <= i < |q| - 1
        ensures Edge(deps, q[i], q[i + 1])
      {
        assert Edge(Dependents(deps), p[|p| - 2 - i], p[|p| - 1 - i]);
      }
      assert PathFromTo(deps, q, b, a);
    }
  }
}
