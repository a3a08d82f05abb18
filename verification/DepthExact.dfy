/**
 How far the shared visited set can mislead the depth search: the depth lies
 between the shortest way to any task and the longest chain, and for plans with
 one deepest task it is exact under every iteration order exactly when all ways to
 that task are of one length.
 */
module DepthExact {
  import opened Contract
  import opened Graphs
  import opened Dag
  import opened Depth

  lemma OrdersUniverse(kids: Kids, e: Edges)
    requires Orders(kids, e) && Closed(e)
    ensures Universe(kids, e.Keys)
  {
    forall t, c | t in e.Keys && c in KidsOf(kids, t)
      ensures c in e.Keys
    {
      assert c in e[t];
    }
  }

  // ---- at least the shortest way to any task ----

  ghost predicate Within(e: Edges, a: TaskId, x: TaskId, n: nat) {
    exists p :: PathFromTo(e, p, a, x) && |p| <= n
  }

  lemma WithinPrepended(e: Edges, t: TaskId, c: TaskId, x: TaskId, n: nat)
    requires Edge(e, t, c) && Within(e, c, x, n)
    ensures Within(e, t, x, n + 1)
  {
    var p :| PathFromTo(e, p, c, x) && |p| <= n;
    var q := [t] + p;
    forall i | 0 <= i < |q| - 1
      ensures Edge(e, q[i], q[i + 1])
    {
      assert i > 0 ==> Edge(e, p[i - 1], p[i]);
    }
    assert PathFromTo(e, q, t, x);
  }

  /** What one search newly visits it reaches within the depth it reports, and searches from there too. */
  lemma {:induction false} VisitedWithin(kids: Kids, e: Edges, t: TaskId, visited: set<TaskId>, x: TaskId)
    requires Orders(kids, e) && Closed(e) && Universe(kids, e.Keys) && t in e && visited <= e.Keys
    requires x in DepthOf(kids, e.Keys, t, visited).1 && x !in visited
    ensures Within(e, t, x, DepthOf(kids, e.Keys, t, visited).0)
    ensures e[x] <= DepthOf(kids, e.Keys, t, visited).1
    decreases e.Keys - visited, 0
  {
    hide Orders, Universe, Within, Edge;
    assert t !in visited;
    assert t in e.Keys - visited;
    var ts := KidsOf(kids, t);
    KidsAre(kids, e, t);
    if x != t {
      var c := VisitedByChild(kids, e, ts, visited + {t}, x);
      WithinPrepended(e, t, c, x, MaxDepth(kids, e.Keys, ts, visited + {t}).0);
    } else {
      SelfWithin(e, t, DepthOf(kids, e.Keys, t, visited).0);
    }
    AllVisited(kids, e, ts, visited + {t});
  }

  lemma SelfWithin(e: Edges, t: TaskId, n: nat)
    requires n >= 1
    ensures Within(e, t, t, n)
  {
    assert PathFromTo(e, [t], t, t);
  }

  lemma KidsAre(kids: Kids, e: Edges, t: TaskId)
    requires Orders(kids, e) && Closed(e) && t in e
    ensures forall c :: c in KidsOf(kids, t) <==> c in e[t]
    ensures forall c | c in KidsOf(kids, t) :: c in e && Edge(e, t, c)
  {}

  lemma {:induction false} VisitedByChild(kids: Kids, e: Edges, ts: seq<TaskId>, visited: set<TaskId>, x: TaskId)
    returns (c: TaskId)
    requires Orders(kids, e) && Closed(e) && Universe(kids, e.Keys) && (forall c | c in ts :: c in e)
    requires visited <= e.Keys
    requires x in MaxDepth(kids, e.Keys, ts, visited).1 && x !in visited
    ensures c in ts && Within(e, c, x, MaxDepth(kids, e.Keys, ts, visited).0)
    ensures e[x] <= MaxDepth(kids, e.Keys, ts, visited).1
    decreases e.Keys - visited, |ts|
  {
    hide Orders, Universe, Within;
    var (d, v) := DepthOf(kids, e.Keys, ts[0], visited);
    SmallerLeft(e.Keys, visited, v);
    var m := MaxDepth(kids, e.Keys, ts[1..], v).0;
    if x in v {
      c := ts[0];
      VisitedWithin(kids, e, c, visited, x);
      WithinMore(e, c, x, d, Max(d, m));
    } else {
      c := VisitedByChild(kids, e, ts[1..], v, x);
      WithinMore(e, c, x, m, Max(d, m));
    }
  }

  lemma WithinMore(e: Edges, a: TaskId, x: TaskId, m: nat, n: nat)
    requires Within(e, a, x, m) && m <= n
    ensures Within(e, a, x, n)
  {}

  /** Every listed child has been visited in the end. */
  lemma {:induction false} AllVisited(kids: Kids, e: Edges, ts: seq<TaskId>, visited: set<TaskId>)
    requires Universe(kids, e.Keys) && (forall c | c in ts :: c in e) && visited <= e.Keys
    ensures forall c | c in ts :: c in MaxDepth(kids, e.Keys, ts, visited).1
    decreases |ts|
  {
    hide Universe;
    if ts != [] {
      var v := DepthOf(kids, e.Keys, ts[0], visited).1;
      AllVisited(kids, e, ts[1..], v);
      assert ts == [ts[0]] + ts[1..];
    }
  }

  /** A search from a root visits all there is to reach. */
  lemma ReachedIsVisited(kids: Kids, e: Edges, t: TaskId, x: TaskId)
    requires Orders(kids, e) && Closed(e) && Universe(kids, e.Keys) && t in e && Reach(e, t, x)
    ensures x in DepthOf(kids, e.Keys, t, {}).1
  {
    var v := DepthOf(kids, e.Keys, t, {}).1;
    assert t in v;
    forall y, z | y in v && Edge(e, y, z)
      ensures z in v
    {
      VisitedWithin(kids, e, t, {}, y);
    }
    ClosedUnderEdges(e, v, t, x);
  }

  /** No way from t to x has fewer than n tasks. */
  ghost predicate AtLeast(e: Edges, t: TaskId, x: TaskId, n: nat) {
    forall p | PathFromTo(e, p, t, x) :: |p| >= n
  }

  /**
   On any closed graph and under any iteration order, the depth is at least the
   length of the shortest way to any task that can be reached.
   */
  lemma DepthAtLeastShortest(kids: Kids, e: Edges, t: TaskId, x: TaskId, n: nat)
    requires Orders(kids, e) && Closed(e) && Universe(kids, e.Keys) && t in e
    requires Reach(e, t, x) && AtLeast(e, t, x, n)
    ensures DepthOf(kids, e.Keys, t, {}).0 >= n
  {
    ReachedIsVisited(kids, e, t, x);
    VisitedWithin(kids, e, t, {}, x);
    var p :| PathFromTo(e, p, t, x) && |p| <= DepthOf(kids, e.Keys, t, {}).0;
  }

  // ---- exact when a deepest task is reached by ways of one length only ----

  /** Some longest chain from t, of n tasks, ends at x. */
  ghost predicate DeepestAt(e: Edges, t: TaskId, x: TaskId, n: nat) {
    Bounds(e, t, n) && exists p :: PathFromTo(e, p, t, x) && |p| == n
  }

  ghost predicate OneLength(e: Edges, t: TaskId, x: TaskId, n: nat) {
    forall p | PathFromTo(e, p, t, x) :: |p| == n
  }

  lemma DepthAtMostLongest(kids: Kids, e: Edges, t: TaskId, n: nat)
    requires Orders(kids, e) && Universe(kids, e.Keys) && t in e && Bounds(e, t, n)
    ensures DepthOf(kids, e.Keys, t, {}).0 <= n
  {
    var p := DepthIsChain(kids, e, e.Keys, t, {});
  }

  lemma ExactWhenOneLength(kids: Kids, e: Edges, t: TaskId, x: TaskId, n: nat)
    requires Orders(kids, e) && Closed(e) && Universe(kids, e.Keys) && t in e
    requires DeepestAt(e, t, x, n) && OneLength(e, t, x, n)
    ensures DepthOf(kids, e.Keys, t, {}).0 == n
  {
    DepthAtMostLongest(kids, e, t, n);
    DepthAtLeastShortest(kids, e, t, x, n);
  }

  // ---- and not exact otherwise, when that task is the only deepest one ----

  /** Every longest chain from t ends at x. */
  ghost predicate SoleDeepest(e: Edges, t: TaskId, x: TaskId, n: nat) {
    DeepestAt(e, t, x, n) && forall p | Path(e, p) && p[0] == t && |p| == n :: p[|p| - 1] == x
  }

  /** The search goes down q before anything else. */
  ghost predicate Follows(kids: Kids, q: seq<TaskId>) {
    forall i | 0 <= i < |q| - 1 :: KidsOf(kids, q[i]) != [] && KidsOf(kids, q[i])[0] == q[i + 1]
  }

  lemma {:induction false} ListingFrom(ts: set<TaskId>, first: TaskId) returns (batch: seq<TaskId>)
    requires first in ts
    ensures Lists(batch, ts) && batch != [] && batch[0] == first
    decreases ts
  {
    if ts == {first} {
      batch := [first];
    } else {
      var t :| t in ts && t != first;
      var rest := ListingFrom(ts - {t}, first);
      ListsExtended(rest, ts - {t}, t);
      assert ts - {t} + {t} == ts;
      batch := rest + [t];
    }
  }

  lemma {:induction false} OrderAlong(e: Edges, q: seq<TaskId>, keys: set<TaskId>) returns (kids: Kids)
    requires Path(e, q) && Distinct(q) && keys <= e.Keys
    ensures kids.Keys == keys && forall t | t in keys :: Lists(kids[t], e[t])
    ensures forall i | 0 <= i < |q| - 1 && q[i] in keys :: KidsOf(kids, q[i]) != [] && KidsOf(kids, q[i])[0] == q[i + 1]
    decreases keys
  {
    if keys == {} {
      kids := map[];
    } else {
      var t :| t in keys;
      var rest := OrderAlong(e, q, keys - {t});
      var list: seq<TaskId>;
      if i :| 0 <= i < |q| - 1 && q[i] == t {
        assert Edge(e, q[i], q[i + 1]);
        list := ListingFrom(e[t], q[i + 1]);
      } else if first :| first in e[t] {
        list := ListingFrom(e[t], first);
      } else {
        list := [];
      }
      kids := rest[t := list];
    }
  }

  lemma {:induction false} RankFalls(e: Edges, rank: map<TaskId, nat>, q: seq<TaskId>, i: nat, j: nat)
    requires Closed(e) && Ranked(e, rank) && Path(e, q) && i < j < |q|
    ensures q[i] in e && q[j] in e && rank[q[j]] < rank[q[i]]
  {
    assert Edge(e, q[i], q[i + 1]) && Edge(e, q[j - 1], q[j]);
    if i < j - 1 {
      RankFalls(e, rank, q, i, j - 1);
    }
  }

  lemma AcyclicDistinct(e: Edges, q: seq<TaskId>)
    requires Closed(e) && Acyclic(e) && Path(e, q)
    ensures Distinct(q)
  {
    var rank :| Ranked(e, rank);
    forall i, j | 0 <= i < j < |q|
      ensures q[i] != q[j]
    {
      RankFalls(e, rank, q, i, j);
    }
  }

  /** Part of a way followed by a chain of its own is a way, no longer than the longest. */
  lemma Joined(e: Edges, t: TaskId, x: TaskId, n: nat, q: seq<TaskId>, i: nat, p: seq<TaskId>)
    requires SoleDeepest(e, t, x, n) && Path(e, q) && q[0] == t && i <= |q| && Path(e, p)
    requires i == 0 ==> p[0] == t
    requires i > 0 ==> Edge(e, q[i - 1], p[0])
    ensures i + |p| <= n
    ensures i + |p| == n ==> p[|p| - 1] == x
  {
    var r := q[..i] + p;
    forall j | 0 <= j < |r| - 1
      ensures Edge(e, r[j], r[j + 1])
    {
      if j < i - 1 {
        assert Edge(e, q[j], q[j + 1]);
      } else if j >= i {
        assert Edge(e, p[j - i], p[j - i + 1]);
      }
    }
    assert Path(e, r) && r[0] == t;
  }

  /** From the sole deepest task itself no chain leads on. */
  lemma MissedAtEnd(kids: Kids, e: Edges, t: TaskId, x: TaskId, n: nat, q: seq<TaskId>, visited: set<TaskId>)
    requires Orders(kids, e) && Universe(kids, e.Keys) && SoleDeepest(e, t, x, n) && x in e
    requires PathFromTo(e, q, t, x) && |q| < n && visited <= e.Keys && x !in visited
    ensures |q| - 1 + DepthOf(kids, e.Keys, x, visited).0 < n
    ensures x in DepthOf(kids, e.Keys, x, visited).1
  {
    var p := DepthIsChain(kids, e, e.Keys, x, visited);
    var i := |q| - 1;
    assert i > 0 ==> Edge(e, q[i - 1], q[i]);
    Joined(e, t, x, n, q, i, p);
    hide SoleDeepest;
    SameEnds(p);
  }

  lemma SameEnds(p: seq<TaskId>)
    requires Distinct(p) && |p| > 0
    ensures p[|p| - 1] == p[0] ==> |p| == 1
  {}

  /** Once x has been visited, the other children of a task on the way lead to no longest chain. */
  lemma OthersMiss(kids: Kids, e: Edges, t: TaskId, x: TaskId, n: nat, q: seq<TaskId>, i: nat, ts: seq<TaskId>,
                   visited: set<TaskId>)
    requires Orders(kids, e) && Closed(e) && Universe(kids, e.Keys) && SoleDeepest(e, t, x, n)
    requires PathFromTo(e, q, t, x) && i < |q| - 1 && |q| < n
    requires (forall c | c in ts :: c in e && Edge(e, q[i], c)) && visited <= e.Keys && x in visited
    ensures i + 1 + MaxDepth(kids, e.Keys, ts, visited).0 < n
  {
    if MaxDepth(kids, e.Keys, ts, visited).0 > 0 {
      var p := MaxDepthIsChain(kids, e, e.Keys, ts, visited);
      Joined(e, t, x, n, q, i + 1, p);
      assert p[|p| - 1] in p;
    }
  }

  /** The search of a task that starts with a given child. */
  lemma FirstChild(kids: Kids, all: set<TaskId>, t: TaskId, visited: set<TaskId>)
    requires Universe(kids, all) && t in all && visited <= all && t !in visited && KidsOf(kids, t) != []
    ensures var ts := KidsOf(kids, t);
            var first := DepthOf(kids, all, ts[0], visited + {t});
            var rest := MaxDepth(kids, all, ts[1..], first.1);
            DepthOf(kids, all, t, visited) == (1 + Max(first.0, rest.0), rest.1)
  {}

  lemma NextOnWay(q: seq<TaskId>, i: nat)
    requires Distinct(q) && i < |q|
    ensures q[i] !in Members(q[..i]) && Members(q[..i + 1]) == Members(q[..i]) + {q[i]}
  {
    assert q[..i + 1] == q[..i] + [q[i]];
  }

  /** Reaching x along q, too short a way, the search misses every longest chain. */
  lemma {:induction false} MissedAlong(kids: Kids, e: Edges, t: TaskId, x: TaskId, n: nat, q: seq<TaskId>, i: nat)
    requires Orders(kids, e) && Closed(e) && Universe(kids, e.Keys) && SoleDeepest(e, t, x, n)
    requires PathFromTo(e, q, t, x) && Distinct(q) && |q| < n && Follows(kids, q) && i < |q|
    requires forall j | 0 <= j < |q| :: q[j] in e
    ensures Members(q[..i]) <= e.Keys
    ensures i + DepthOf(kids, e.Keys, q[i], Members(q[..i])).0 < n
    ensures x in DepthOf(kids, e.Keys, q[i], Members(q[..i])).1
    decreases |q| - i
  {
    hide SoleDeepest, Orders, Universe, Distinct, DepthOf, MaxDepth;
    var v := Members(q[..i]);
    assert v <= e.Keys by {
      assert forall y | y in q[..i] :: y in q;
    }
    NextOnWay(q, i);
    if i == |q| - 1 {
      MissedAtEnd(kids, e, t, x, n, q, v);
    } else {
      MissedAlong(kids, e, t, x, n, q, i + 1);
      assert KidsOf(kids, q[i]) != [] && KidsOf(kids, q[i])[0] == q[i + 1];
      FirstChild(kids, e.Keys, q[i], v);
      KidsAre(kids, e, q[i]);
      var ts := KidsOf(kids, q[i]);
      assert forall c | c in ts[1..] :: c in ts;
      OthersMiss(kids, e, t, x, n, q, i, ts[1..], DepthOf(kids, e.Keys, q[i + 1], v + {q[i]}).1);
    }
  }

  ghost predicate AlwaysExact(e: Edges, t: TaskId, n: nat)
    requires Closed(e) && t in e
  {
    forall kids | Orders(kids, e) && Universe(kids, e.Keys) :: DepthOf(kids, e.Keys, t, {}).0 == n
  }

  lemma SomeOrderMisses(e: Edges, t: TaskId, x: TaskId, n: nat, q: seq<TaskId>)
    requires Closed(e) && Acyclic(e) && t in e && SoleDeepest(e, t, x, n)
    requires PathFromTo(e, q, t, x) && |q| != n
    ensures !AlwaysExact(e, t, n)
  {
    hide SoleDeepest, Acyclic;
    AcyclicDistinct(e, q);
    var kids := OrderAlong(e, q, e.Keys);
    OrdersUniverse(kids, e);
    WayKnown(e, t, q);
    Joined(e, t, x, n, q, 0, q);
    assert q[..0] == [] && Members([]) == {};
    MissedAlong(kids, e, t, x, n, q, 0);
  }

  lemma {:induction false} WayKnown(e: Edges, t: TaskId, q: seq<TaskId>)
    requires Closed(e) && t in e && Path(e, q) && q[0] == t
    ensures forall j | 0 <= j < |q| :: q[j] in e
  {
    var j := 0;
    while j < |q| - 1
      invariant j < |q| && forall k | 0 <= k <= j :: q[k] in e
    {
      assert Edge(e, q[j], q[j + 1]);
      j := j + 1;
    }
  }

  /**
   For an acyclic graph in which one task alone ends the longest chains from a
   root: the depth search is exact under every iteration order if and only if all
   ways from the root to that task are of one length.
   */
  lemma ExactIffOneLength(e: Edges, t: TaskId, x: TaskId, n: nat)
    requires Closed(e) && Acyclic(e) && t in e && SoleDeepest(e, t, x, n)
    ensures AlwaysExact(e, t, n) <==> OneLength(e, t, x, n)
  {
    hide Acyclic;
    if OneLength(e, t, x, n) {
      forall kids | Orders(kids, e) && Universe(kids, e.Keys)
        ensures DepthOf(kids, e.Keys, t, {}).0 == n
      {
        ExactWhenOneLength(kids, e, t, x, n);
      }
    } else {
      var q :| PathFromTo(e, q, t, x) && |q| != n;
      SomeOrderMisses(e, t, x, n, q);
    }
  }

  // ---- what the depth guard then accepts ----

  lemma ClosedNodes(e: Edges)
    requires Closed(e)
    ensures Nodes(e) == e.Keys
  {}

  /** An accepted plan has no task whose shortest way from a root is longer than the limit. */
  lemma AcceptedIsShallow(kids: Kids, deps: Edges, e: Edges, limit: int, t: TaskId, x: TaskId, n: nat)
    requires Closed(e) && OrderOf(kids, deps, e) && !SomeRootTooDeep(kids, deps, e, limit)
    requires IsRoot(deps, t) && Reach(e, t, x) && AtLeast(e, t, x, n)
    ensures n <= limit
  {
    ClosedNodes(e);
    DepthAtLeastShortest(kids, e, t, x, n);
  }

  /** Where each root has a deepest task reached by ways of one length, the guard is right about every plan. */
  lemma GuardExactWhenOneLength(kids: Kids, deps: Edges, e: Edges, limit: int)
    requires Closed(e) && OrderOf(kids, deps, e)
    requires forall t | IsRoot(deps, t) :: exists x, n :: DeepestAt(e, t, x, n) && OneLength(e, t, x, n)
    ensures SomeRootTooDeep(kids, deps, e, limit) <==> HasLongChain(deps, e, limit)
  {
    if SomeRootTooDeep(kids, deps, e, limit) {
      DeepRootHasChain(kids, deps, e, limit);
    }
    if HasLongChain(deps, e, limit) {
      ClosedNodes(e);
      var t, p :| IsRoot(deps, t) && Path(e, p) && p[0] == t && Distinct(p) && |p| > limit;
      var x, n :| DeepestAt(e, t, x, n) && OneLength(e, t, x, n);
      ExactWhenOneLength(kids, e, t, x, n);
    }
  }

  // ---- the guard's verdict, in terms of the plan alone ----

  /** What the guard decides is what the searches over the recorded edges, in some order, report. */
  ghost predicate Judged(deps: Edges, limit: int, rejected: bool) {
    exists kids: Kids, e: Edges :: EdgesAgree(deps, e) && Closed(e) && OrderOf(kids, deps, e)
                                   && (rejected <==> SomeRootTooDeep(kids, deps, e, limit))
  }

  /** Every task has a way from each root above it that is no longer than the limit. */
  ghost predicate Shallow(deps: Edges, limit: int) {
    forall t, x, n: nat | IsRoot(deps, t) && Reach(Dependents(deps), t, x) && AtLeast(Dependents(deps), t, x, n) ::
      n <= limit
  }

  lemma SamePaths(e: Edges, f: Edges)
    requires forall a, b :: Edge(e, a, b) <==> Edge(f, a, b)
    ensures forall p :: Path(e, p) <==> Path(f, p)
    ensures forall a, b :: Reach(e, a, b) <==> Reach(f, a, b)
    ensures forall a, b, n :: AtLeast(e, a, b, n) <==> AtLeast(f, a, b, n)
    ensures Forest(e) <==> Forest(f)
    ensures forall deps, limit :: HasLongChain(deps, e, limit) <==> HasLongChain(deps, f, limit)
  {
    assert forall p :: Path(e, p) <==> Path(f, p);
    assert forall p, a, b :: PathFromTo(e, p, a, b) <==> PathFromTo(f, p, a, b);
    forall a, b
      ensures Reach(e, a, b) <==> Reach(f, a, b)
    {
      if p :| PathFromTo(e, p, a, b) {
        assert PathFromTo(f, p, a, b);
      }
      if p :| PathFromTo(f, p, a, b) {
        assert PathFromTo(e, p, a, b);
      }
    }
    hide Reach, PathFromTo, Path, Edge;
  }

  lemma RecordedEdges(deps: Edges, e: Edges)
    requires Closed(deps) && EdgesAgree(deps, e)
    ensures forall a, b :: Edge(e, a, b) <==> Edge(Dependents(deps), a, b)
  {
    forall a, b
      ensures Edge(e, a, b) <==> Edge(Dependents(deps), a, b)
    {}
  }

  lemma RecordedClosed(deps: Edges, e: Edges)
    requires EdgesAgree(deps, e) && deps.Keys <= e.Keys
    ensures Closed(e)
  {
    forall d, c | d in e && c in e[d]
      ensures c in e
    {
      assert Edge(e, d, c);
    }
  }

  /**
   The guard rejects only plans with a chain longer than the limit and lets pass
   only shallow ones; on a forest it rejects exactly the plans with such a chain.
   */
  lemma Verdict(deps: Edges, limit: int, rejected: bool)
    requires Closed(deps) && Judged(deps, limit, rejected)
    ensures rejected ==> HasLongChain(deps, Dependents(deps), limit)
    ensures !rejected ==> Shallow(deps, limit)
    ensures Forest(Dependents(deps)) ==> (rejected <==> HasLongChain(deps, Dependents(deps), limit))
  {
    hide Forest, AtLeast, HasLongChain, Reach, Path, SomeRootTooDeep, OrderOf, EdgesAgree;
    var kids: Kids, e: Edges :| EdgesAgree(deps, e) && Closed(e) && OrderOf(kids, deps, e)
                                && (rejected <==> SomeRootTooDeep(kids, deps, e, limit));
    var f := Dependents(deps);
    RecordedEdges(deps, e);
    SamePaths(e, f);
    if rejected {
      DeepRootHasChain(kids, deps, e, limit);
    } else {
      forall t, x, n: nat | IsRoot(deps, t) && Reach(f, t, x) && AtLeast(f, t, x, n)
        ensures n <= limit
      {
        AcceptedIsShallow(kids, deps, e, limit, t, x, n);
      }
      if Forest(e) {
        ForestAccepted(kids, deps, e, limit);
      }
    }
  }

  lemma ForestAccepted(kids: Kids, deps: Edges, e: Edges, limit: int)
    requires OrderOf(kids, deps, e) && !SomeRootTooDeep(kids, deps, e, limit) && Forest(e)
    ensures !HasLongChain(deps, e, limit)
  {
    ForestShort(kids, deps, e, Nodes(e), limit);
  }
}
