/**
 TaskDAG: the in-memory dependency graph the orchestrator mutates as tasks
 finish. Dictionaries are maps; the one dictionary whose iteration order shows,
 `dependencies`, has its insertion order beside it. Python sets are iterated in
 an arbitrary order.
 */
module Dag {
  import opened Contract
  import opened Graphs

  type Payload = string

  function Children(e: Edges, t: TaskId): set<TaskId> {
    if t in e then e[t] else {}
  }

  function Members(ts: seq<TaskId>): set<TaskId> {
    set t | t in ts
  }

  function SetDefault(e: Edges, t: TaskId, v: set<TaskId>): Edges {
    if t in e then e else e[t := v]
  }

  /** Every edge is recorded at both of its ends. */
  ghost predicate EdgesAgree(dependencies: Edges, dependents: Edges) {
    forall d, c :: Edge(dependents, d, c) <==> c in dependencies && d in dependencies[c]
  }

  /** The children of t that are ready: what mark_completed returns. */
  function ReadyChildren(dependencies: Edges, dependents: Edges, status: map<TaskId, DagStatus>, t: TaskId)
    : set<TaskId>
  {
    set c | c in Children(dependents, t) && HasStatus(status, c, Pending)
            && forall d | d in Children(dependencies, c) :: HasStatus(status, d, Completed)
  }

  /**
   The tasks mark_completed reports are exactly those that became ready, if and
   only if the task was not completed before or has no ready child.
   */
  lemma NewlyReadyIsIncrement(dependencies: Edges, dependents: Edges, before: map<TaskId, DagStatus>, t: TaskId)
    requires EdgesAgree(dependencies, dependents)
    ensures var after := before[t := Completed];
            ReadyChildren(dependencies, dependents, after, t)
              == ReadySet(dependencies, after) - ReadySet(dependencies, before)
            <==> !HasStatus(before, t, Completed) || ReadyChildren(dependencies, dependents, before, t) == {}
  {
    var after := before[t := Completed];
    var kids := ReadyChildren(dependencies, dependents, after, t);
    var gained := ReadySet(dependencies, after) - ReadySet(dependencies, before);
    assert forall c :: c in Children(dependents, t) <==> Edge(dependents, t, c);
    if HasStatus(before, t, Completed) {
      assert after == before;
      assert gained == {};
    } else {
      forall c
        ensures c in kids <==> c in gained
      {
        if c in gained {
          assert DepsCompleted(dependencies, after, c);
          if c in ReadySet(dependencies, after) && t !in dependencies[c] {
            assert DepsCompleted(dependencies, before, c);
          }
        }
        if c in kids {
          assert DepsCompleted(dependencies, after, c);
          assert !HasStatus(before, t, Completed) && t in dependencies[c];
        }
      }
    }
  }

  /** The dependents map after t was recorded under each of ds. */
  ghost predicate EdgesAdded(was: Edges, now: Edges, t: TaskId, ds: seq<TaskId>) {
    && now.Keys == was.Keys + {t} + Members(ds)
    && forall d, c :: Edge(now, d, c) <==> Edge(was, d, c) || (c == t && d in ds)
  }

  lemma EdgeAdded(was: Edges, now: Edges, t: TaskId, ds: seq<TaskId>, d: TaskId)
    requires EdgesAdded(was, now, t, ds)
    ensures EdgesAdded(was, now[d := Children(now, d) + {t}], t, ds + [d])
  {
    var next := now[d := Children(now, d) + {t}];
    forall x, c
      ensures Edge(next, x, c) <==> Edge(was, x, c) || (c == t && x in ds + [d])
    {
      assert Edge(next, x, c) <==> Edge(now, x, c) || (x == d && c == t);
    }
    assert Members(ds + [d]) == Members(ds) + {d};
  }

  lemma OrderExtended(order: seq<TaskId>, e: Edges, t: TaskId, v: set<TaskId>)
    requires Lists(order, e.Keys)
    ensures SetDefault(e, t, v).Keys == e.Keys + {t}
    ensures Lists(if t in e then order else order + [t], SetDefault(e, t, v).Keys)
  {
    if t !in e {
      ListsExtended(order, e.Keys, t);
    }
  }

  lemma EdgesAddedFirst(was: Edges, t: TaskId)
    ensures EdgesAdded(was, SetDefault(was, t, {}), t, [])
  {}

  lemma EdgesAddedAgree(dependencies: Edges, was: Edges, now: Edges, t: TaskId, ds: seq<TaskId>)
    requires EdgesAdded(was, now, t, ds)
    ensures now.Keys == was.Keys + {t} + Members(ds)
    ensures forall d, c :: Edge(now, d, c) <==> Edge(was, d, c) || (c == t && d in ds)
    ensures EdgesAgree(dependencies, was) && t !in dependencies
            ==> EdgesAgree(SetDefault(dependencies, t, Members(ds)), now)
  {}

  class TaskDAG {
    var tasks: map<TaskId, Payload>
    var order: seq<TaskId>
    var dependencies: Edges
    var dependents: Edges
    var status: map<TaskId, DagStatus>

    ghost predicate Valid()
      reads this
    {
      && Lists(order, dependencies.Keys)
      && tasks.Keys == dependencies.Keys
      && dependencies.Keys <= status.Keys
    }

    constructor ()
      ensures Valid()
      ensures tasks == map[] && order == [] && dependencies == map[] && dependents == map[] && status == map[]
    {
      tasks, order, dependencies, dependents, status := map[], [], map[], map[], map[];
    }

    method Add(t: TaskId, task: Payload, deps: seq<TaskId>)
      requires Valid()
      modifies this
      ensures Valid()
      ensures tasks == old(tasks)[t := task]
      ensures status == if t in old(status) then old(status) else old(status)[t := Pending]
      ensures dependencies == SetDefault(old(dependencies), t, Members(deps))
      ensures order == if t in old(dependencies) then old(order) else old(order) + [t]
      ensures dependents.Keys == old(dependents).Keys + {t} + Members(deps)
      ensures forall d, c :: Edge(dependents, d, c) <==> Edge(old(dependents), d, c) || (c == t && d in deps)
      ensures EdgesAgree(old(dependencies), old(dependents)) && t !in old(dependencies)
              ==> EdgesAgree(dependencies, dependents)
    {
      hide EdgesAdded, EdgesAgree, Lists, Edge, Members;
      hide SetDefault;
      tasks := tasks[t := task];
      status := if t in status then status else status[t := Pending];
      OrderExtended(order, dependencies, t, Members(deps));
      order := if t in dependencies then order else order + [t];
      dependencies := SetDefault(dependencies, t, Members(deps));
      Link(t, deps);
      EdgesAddedAgree(old(dependencies), old(dependents), dependents, t, deps);
    }

    /** The loop of `add`: record t as a dependent of each of its dependencies. */
    method Link(t: TaskId, deps: seq<TaskId>)
      modifies this`dependents
      ensures EdgesAdded(old(dependents), dependents, t, deps)
    {
      hide EdgesAdded;
      dependents := SetDefault(dependents, t, {});
      EdgesAddedFirst(old(dependents), t);
      for i := 0 to |deps|
        invariant EdgesAdded(old(dependents), dependents, t, deps[..i])
      {
        EdgeAdded(old(dependents), dependents, t, deps[..i], deps[i]);
        assert deps[..i + 1] == deps[..i] + [deps[i]];
        dependents := dependents[deps[i] := Children(dependents, deps[i]) + {t}];
      }
      assert deps[..|deps|] == deps;
    }

    /** The pending tasks whose dependencies are all completed, in insertion order. */
    method ReadyTasks() returns (ready: seq<TaskId>)
      requires Valid()
      ensures Lists(ready, ReadySet(dependencies, status))
      ensures ready == Filtered(order, ReadySet(dependencies, status))
      ensures InOrder(ready, order)
    {
      ready := [];
      ghost var all := ReadySet(dependencies, status);
      for i := 0 to |order|
        invariant ready == Filtered(order[..i], all)
      {
        var t := order[i];
        assert order[..i + 1][..i] == order[..i];
        if t in status && status[t] == Pending {
          var waiting := exists d | d in dependencies[t] :: !(d in status && status[d] == Completed);
          if !waiting {
            assert DepsCompleted(dependencies, status, t);
            ready := ready + [t];
          } else {
            assert !DepsCompleted(dependencies, status, t);
          }
        }
      }
      assert order[..|order|] == order;
      FilteredLists(order, dependencies.Keys, all);
      FilteredInOrder(order, all);
    }

    method MarkCompleted(t: TaskId) returns (newly: seq<TaskId>)
      requires Valid()
      modifies this`status
      ensures Valid()
      ensures status == old(status)[t := Completed]
      ensures Lists(newly, ReadyChildren(dependencies, dependents, status, t))
      ensures EdgesAgree(dependencies, dependents) && !HasStatus(old(status), t, Completed)
              ==> Lists(newly, ReadySet(dependencies, status) - ReadySet(dependencies, old(status)))
    {
      status := status[t := Completed];
      newly := [];
      var todo := Children(dependents, t);
      ghost var all := ReadyChildren(dependencies, dependents, status, t);
      while todo != {}
        invariant todo <= Children(dependents, t)
        invariant Lists(newly, all - todo)
        decreases todo
      {
        var c :| c in todo;
        todo := todo - {c};
        var waiting := exists d | d in Children(dependencies, c) :: !(d in status && status[d] == Completed);
        if c in status && status[c] == Pending && !waiting {
          assert c in all;
          newly := newly + [c];
        } else {
          assert c !in all;
        }
      }
      assert all - {} == all;
      if EdgesAgree(dependencies, dependents) && !HasStatus(old(status), t, Completed) {
        NewlyReadyIsIncrement(dependencies, dependents, old(status), t);
      }
    }

    method MarkFailed(t: TaskId)
      requires Valid()
      modifies this`status
      ensures Valid()
      ensures status == old(status)[t := Failed]
    {
      status := status[t := Failed];
    }

    /** All transitive dependents of t, each once; cycles do not matter. */
    method Descendants(t: TaskId) returns (out: seq<TaskId>)
      ensures Lists(out, Graphs.Descendants(dependents, t))
    {
      out := [];
      var frontier := [t];
      var seen := {t};
      ReachSelf(dependents, t);
      while frontier != []
        invariant Lists(out, seen - {t}) && t in seen
        invariant forall x | x in frontier :: x in seen
        invariant forall x | x in seen :: Reach(dependents, t, x) && (x == t || x in Nodes(dependents))
        invariant forall x | x in seen && x !in frontier :: Children(dependents, x) <= seen
        decreases Nodes(dependents) + {t} - seen, |frontier|
      {
        var cur := frontier[|frontier| - 1];
        frontier := frontier[..|frontier| - 1];
        var todo := Children(dependents, cur);
        ghost var seen0 := seen;
        ghost var frontier0 := frontier;
        while todo != {}
          invariant todo <= Children(dependents, cur)
          invariant Lists(out, seen - {t}) && t in seen && seen0 <= seen && cur in seen
          invariant forall x | x in frontier :: x in seen
          invariant forall x | x in seen :: Reach(dependents, t, x) && (x == t || x in Nodes(dependents))
          invariant forall x | x in seen && x !in frontier && x != cur :: Children(dependents, x) <= seen
          invariant Children(dependents, cur) - todo <= seen
          invariant seen == seen0 ==> frontier == frontier0
          decreases todo
        {
          var child :| child in todo;
          todo := todo - {child};
          if child !in seen {
            assert Edge(dependents, cur, child);
            ReachEdge(dependents, cur, child);
            ReachTransitive(dependents, t, cur, child);
            seen := seen + {child};
            out := out + [child];
            frontier := frontier + [child];
          }
        }
        SmallerLeft(Nodes(dependents) + {t}, seen0, seen);
      }
      SeenIsDescendants(dependents, t, seen);
    }
  }

  /** An arbitrary listing of a set. */
  method ListSet(s: set<TaskId>) returns (ts: seq<TaskId>)
    ensures Lists(ts, s)
  {
    ts := [];
    var todo := s;
    while todo != {}
      invariant todo <= s && Lists(ts, s - todo)
      decreases todo
    {
      var t :| t in todo;
      ListsExtended(ts, s - todo, t);
      todo := todo - {t};
      ts := ts + [t];
      assert s - todo == s - (todo + {t}) + {t};
    }
    assert s - {} == s;
  }

  lemma SmallerLeft(all: set<TaskId>, seen0: set<TaskId>, seen: set<TaskId>)
    requires seen0 <= seen <= all
    ensures seen != seen0 ==> all - seen < all - seen0
  {
    if seen != seen0 {
      var x :| x in seen && x !in seen0;
      assert x in all - seen0 && x !in all - seen;
    }
  }

  /** A reachable set that is closed under the edges is everything reachable. */
  lemma SeenIsDescendants(e: Edges, t: TaskId, seen: set<TaskId>)
    requires t in seen
    requires forall x | x in seen :: Reach(e, t, x) && (x == t || x in Nodes(e))
    requires forall x | x in seen :: Children(e, x) <= seen
    ensures seen - {t} == Graphs.Descendants(e, t)
  {
    forall x | x in Graphs.Descendants(e, t)
      ensures x in seen
    {
      assert forall y, z | y in seen && Edge(e, y, z) :: z in Children(e, y);
      ClosedUnderEdges(e, seen, t, x);
    }
  }

  function Filtered(ts: seq<TaskId>, keep: set<TaskId>): seq<TaskId> {
    if ts == [] then []
    else Filtered(ts[..|ts| - 1], keep) + (if ts[|ts| - 1] in keep then [ts[|ts| - 1]] else [])
  }

  /** One place of x in the list is before one of y. */
  predicate Before(all: seq<TaskId>, x: TaskId, y: TaskId) {
    exists a, b :: 0 <= a < b < |all| && all[a] == x && all[b] == y
  }

  /** What comes earlier in the one list comes earlier in the other. */
  predicate InOrder(some: seq<TaskId>, all: seq<TaskId>) {
    forall i, j | 0 <= i < j < |some| :: Before(all, some[i], some[j])
  }

  lemma BeforeLonger(ts: seq<TaskId>, t: TaskId, x: TaskId)
    ensures forall y, z | Before(ts, y, z) :: Before(ts + [t], y, z)
    ensures x in ts ==> Before(ts + [t], x, t)
  {
    forall y, z | Before(ts, y, z)
      ensures Before(ts + [t], y, z)
    {
      var a, b :| 0 <= a < b < |ts| && ts[a] == y && ts[b] == z;
      assert (ts + [t])[a] == y && (ts + [t])[b] == z;
    }
    if x in ts {
      var a :| 0 <= a < |ts| && ts[a] == x;
      assert (ts + [t])[a] == x && (ts + [t])[|ts|] == t;
    }
  }

  lemma {:induction false} FilteredInOrder(ts: seq<TaskId>, keep: set<TaskId>)
    ensures InOrder(Filtered(ts, keep), ts)
    ensures forall t | t in Filtered(ts, keep) :: t in ts
  {
    if ts != [] {
      var n, some := |ts| - 1, Filtered(ts[..|ts| - 1], keep);
      FilteredInOrder(ts[..n], keep);
      assert ts == ts[..n] + [ts[n]];
      hide Before;
      forall i, j | 0 <= i < j < |Filtered(ts, keep)|
        ensures Before(ts, Filtered(ts, keep)[i], Filtered(ts, keep)[j])
      {
        assert some[i] in some;
        BeforeLonger(ts[..n], ts[n], some[i]);
      }
    }
  }

  lemma {:induction false} FilteredMembers(ts: seq<TaskId>, keep: set<TaskId>)
    requires forall i, j | 0 <= i < j < |ts| :: ts[i] != ts[j]
    ensures forall t :: t in Filtered(ts, keep) <==> t in ts && t in keep
    ensures forall i, j | 0 <= i < j < |Filtered(ts, keep)| :: Filtered(ts, keep)[i] != Filtered(ts, keep)[j]
  {
    if ts != [] {
      var n := |ts| - 1;
      FilteredMembers(ts[..n], keep);
      assert ts == ts[..n] + [ts[n]];
    }
  }

  lemma FilteredLists(ts: seq<TaskId>, all: set<TaskId>, keep: set<TaskId>)
    requires Lists(ts, all) && keep <= all
    ensures Lists(Filtered(ts, keep), keep)
  {
    FilteredMembers(ts, keep);
    assert forall i | 0 <= i < |Filtered(ts, keep)| :: Filtered(ts, keep)[i] in Filtered(ts, keep);
  }
}
