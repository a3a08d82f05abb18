/**
 The database form of the failure cascade: the advancer's stuck-task sweep,
 run again and again with whatever limit, against the descendants cascade of the
 in-memory graph.
 */
module Sweep {
  import opened Contract
  import opened Graphs
  import opened Rows

  predicate FailedRow(rows: Table, t: TaskId) {
    t in rows && rows[t].status == FAILED
  }

  function FailedRows(rows: Table): set<TaskId> {
    set t | t in rows && rows[t].status == FAILED
  }

  /** t is failed or lies below a failed task. */
  ghost predicate IsDoomed(deps: Edges, rows: Table, t: TaskId) {
    exists f :: FailedRow(rows, f) && Reach(Dependents(deps), f, t)
  }

  /** Tasks below a failed one that have not failed yet. */
  ghost function Doomed(deps: Edges, rows: Table): set<TaskId> {
    set t | t in rows && !FailedRow(rows, t) && IsDoomed(deps, rows, t)
  }

  /** Nothing below a failed task has started: what the run protocol guarantees. */
  ghost predicate BelowUnstarted(deps: Edges, rows: Table) {
    forall t | t in Doomed(deps, rows) :: rows[t].status == QUEUED
  }

  /** Sweeps that each fail some of the tasks then stuck. */
  function SweepAll(deps: Edges, rows: Table, batches: seq<set<TaskId>>): Table {
    if batches == [] then rows
    else SweepAll(deps, MarkFailedAll(rows, batches[0]), batches[1..])
  }

  predicate ValidSweeps(deps: Edges, rows: Table, batches: seq<set<TaskId>>) {
    batches == []
    || (batches[0] <= Stuck(deps, rows) && ValidSweeps(deps, MarkFailedAll(rows, batches[0]), batches[1..]))
  }

  lemma DoomedStep(deps: Edges, rows: Table, d: TaskId, t: TaskId)
    requires t in deps && d in deps[t] && d in deps && IsDoomed(deps, rows, d)
    ensures IsDoomed(deps, rows, t)
  {
    var f :| FailedRow(rows, f) && Reach(Dependents(deps), f, d);
    assert Edge(Dependents(deps), d, t);
    ReachEdge(Dependents(deps), d, t);
    ReachTransitive(Dependents(deps), f, d, t);
  }

  lemma FailedIsDoomed(deps: Edges, rows: Table, t: TaskId)
    requires FailedRow(rows, t)
    ensures IsDoomed(deps, rows, t)
  {
    ReachSelf(Dependents(deps), t);
  }

  /** One sweep fails tasks that were doomed before it, and dooms no others. */
  lemma SweepDooms(deps: Edges, rows: Table, ts: set<TaskId>)
    requires rows.Keys == deps.Keys && Closed(deps) && ts <= Stuck(deps, rows)
    ensures ts <= Doomed(deps, rows)
    ensures Doomed(deps, MarkFailedAll(rows, ts)) == Doomed(deps, rows) - ts
  {
    var rows' := MarkFailedAll(rows, ts);
    forall t | t in ts
      ensures IsDoomed(deps, rows, t) && !FailedRow(rows, t)
    {
      var d :| d in deps[t] && d in rows && rows[d].status == FAILED;
      FailedIsDoomed(deps, rows, d);
      DoomedStep(deps, rows, d, t);
    }
    forall t | t in rows
      ensures IsDoomed(deps, rows', t) <==> IsDoomed(deps, rows, t)
    {
      if IsDoomed(deps, rows, t) {
        var f :| FailedRow(rows, f) && Reach(Dependents(deps), f, t);
        assert FailedRow(rows', f);
      }
      if IsDoomed(deps, rows', t) {
        var f :| FailedRow(rows', f) && Reach(Dependents(deps), f, t);
        if !FailedRow(rows, f) {
          var g :| FailedRow(rows, g) && Reach(Dependents(deps), g, f);
          ReachTransitive(Dependents(deps), g, f, t);
        }
      }
    }
  }

  /** With nothing stuck, nothing that could still be failed is left below a failed task. */
  lemma NothingStuck(deps: Edges, rows: Table)
    requires rows.Keys == deps.Keys && Closed(deps) && BelowUnstarted(deps, rows)
    requires Stuck(deps, rows) == {}
    ensures Doomed(deps, rows) == {}
  {
    var failed := FailedRows(rows);
    forall x, y | x in failed && Edge(Dependents(deps), x, y)
      ensures y in failed
    {
      FailedIsDoomed(deps, rows, x);
      DoomedStep(deps, rows, x, y);
      assert y in failed || y in Doomed(deps, rows);
      assert y in Doomed(deps, rows) ==> y in Stuck(deps, rows);
    }
    forall t | t in rows && IsDoomed(deps, rows, t)
      ensures t in failed
    {
      var f :| FailedRow(rows, f) && Reach(Dependents(deps), f, t);
      ClosedUnderEdges(Dependents(deps), failed, f, t);
    }
  }

  /**
   However the sweeps are limited and whatever they pick first, once nothing is
   stuck exactly the tasks below a failed one have been failed.
   */
  lemma {:induction false} SweepsConverge(deps: Edges, rows: Table, batches: seq<set<TaskId>>)
    requires rows.Keys == deps.Keys && Closed(deps) && BelowUnstarted(deps, rows)
    requires ValidSweeps(deps, rows, batches) && Stuck(deps, SweepAll(deps, rows, batches)) == {}
    ensures SweepAll(deps, rows, batches) == MarkFailedAll(rows, Doomed(deps, rows))
  {
    if batches == [] {
      NothingStuck(deps, rows);
      assert MarkFailedAll(rows, {}) == rows;
    } else {
      var rows' := MarkFailedAll(rows, batches[0]);
      SweepDooms(deps, rows, batches[0]);
      assert BelowUnstarted(deps, rows');
      hide Doomed, Stuck, BelowUnstarted;
      SweepsConverge(deps, rows', batches[1..]);
      MarkedTwice(rows, batches[0], Doomed(deps, rows));
    }
  }

  // ---- limited sweeps come to an end ----

  /** No sweep comes back empty-handed while something is stuck: any limit but zero sees to that. */
  predicate Eager(deps: Edges, rows: Table, batches: seq<set<TaskId>>) {
    batches == []
    || ((batches[0] == {} ==> Stuck(deps, rows) == {}) && Eager(deps, MarkFailedAll(rows, batches[0]), batches[1..]))
  }

  lemma SweepShrinks(deps: Edges, rows: Table, ts: set<TaskId>)
    requires rows.Keys == deps.Keys && Closed(deps) && ts <= Stuck(deps, rows)
    ensures |Doomed(deps, MarkFailedAll(rows, ts))| == |Doomed(deps, rows)| - |ts|
  {
    SweepDooms(deps, rows, ts);
    hide Doomed;
    assert |Doomed(deps, rows) - ts| == |Doomed(deps, rows)| - |ts|;
  }

  /** There is room for as many sweeps that fail something as there are tasks below a failed one. */
  lemma {:induction false} BusySweepsBounded(deps: Edges, rows: Table, batches: seq<set<TaskId>>)
    requires rows.Keys == deps.Keys && Closed(deps) && ValidSweeps(deps, rows, batches)
    requires forall ts | ts in batches :: ts != {}
    ensures |batches| <= |Doomed(deps, rows)|
  {
    if batches != [] {
      SweepShrinks(deps, rows, batches[0]);
      hide Doomed, Stuck;
      assert batches[0] in batches && |batches[0]| > 0;
      assert forall ts | ts in batches[1..] :: ts in batches;
      BusySweepsBounded(deps, MarkFailedAll(rows, batches[0]), batches[1..]);
    }
  }

  /**
   As many limited sweeps as there are tasks below a failed one always reach the
   fixpoint, and leave exactly those tasks failed.
   */
  lemma LimitedSweepsFinish(deps: Edges, rows: Table, batches: seq<set<TaskId>>)
    requires rows.Keys == deps.Keys && Closed(deps) && BelowUnstarted(deps, rows)
    requires ValidSweeps(deps, rows, batches) && Eager(deps, rows, batches)
    requires |batches| >= |Doomed(deps, rows)|
    ensures Stuck(deps, SweepAll(deps, rows, batches)) == {}
    ensures SweepAll(deps, rows, batches) == MarkFailedAll(rows, Doomed(deps, rows))
  {
    FixpointReached(deps, rows, batches);
    SweepsConverge(deps, rows, batches);
  }

  lemma NoneDoomedNoneStuck(deps: Edges, rows: Table)
    requires rows.Keys == deps.Keys && Closed(deps) && Doomed(deps, rows) == {}
    ensures Stuck(deps, rows) == {}
  {
    SweepDooms(deps, rows, Stuck(deps, rows));
  }

  lemma {:induction false} FixpointReached(deps: Edges, rows: Table, batches: seq<set<TaskId>>)
    requires rows.Keys == deps.Keys && Closed(deps) && BelowUnstarted(deps, rows)
    requires ValidSweeps(deps, rows, batches) && Eager(deps, rows, batches)
    requires |batches| >= |Doomed(deps, rows)|
    ensures Stuck(deps, SweepAll(deps, rows, batches)) == {}
  {
    if batches == [] {
      NoneDoomedNoneStuck(deps, rows);
    } else {
      var rows' := MarkFailedAll(rows, batches[0]);
      SweepDooms(deps, rows, batches[0]);
      SweepShrinks(deps, rows, batches[0]);
      assert BelowUnstarted(deps, rows');
      if Stuck(deps, rows) == {} {
        NothingStuck(deps, rows);
      }
      hide Doomed, Stuck, BelowUnstarted;
      assert batches[0] != {} ==> |batches[0]| > 0;
      FixpointReached(deps, rows', batches[1..]);
    }
  }

  // ---- how many unlimited sweeps it takes ----

  function FullSweeps(deps: Edges, rows: Table, n: nat): Table {
    if n == 0 then rows
    else FullSweeps(deps, MarkFailedAll(rows, Stuck(deps, rows)), n - 1)
  }

  /** No chain of dependents from a failed task has more than n tasks. */
  ghost predicate ChainsWithin(deps: Edges, rows: Table, n: nat) {
    forall p | Path(Dependents(deps), p) && FailedRow(rows, p[0]) :: |p| <= n
  }

  /** A chain of n tasks or fewer leads from a failed task to t. */
  ghost predicate NearFailure(deps: Edges, rows: Table, t: TaskId, n: nat) {
    exists p :: Path(Dependents(deps), p) && FailedRow(rows, p[0]) && p[|p| - 1] == t && |p| <= n
  }

  ghost predicate DoomedWithin(deps: Edges, rows: Table, n: nat) {
    forall t | t in Doomed(deps, rows) :: NearFailure(deps, rows, t, n)
  }

  /** A sweep brings the failures one task nearer to everything below them. */
  lemma SweepShortens(deps: Edges, rows: Table, t: TaskId, n: nat)
    requires rows.Keys == deps.Keys && Closed(deps) && BelowUnstarted(deps, rows)
    requires NearFailure(deps, rows, t, n + 1) && t in Doomed(deps, rows)
    ensures NearFailure(deps, MarkFailedAll(rows, Stuck(deps, rows)), t, n)
  {
    var rows' := MarkFailedAll(rows, Stuck(deps, rows));
    var p :| Path(Dependents(deps), p) && FailedRow(rows, p[0]) && p[|p| - 1] == t && |p| <= n + 1;
    assert |p| > 1;
    assert Edge(Dependents(deps), p[0], p[1]);
    FailedIsDoomed(deps, rows, p[0]);
    DoomedStep(deps, rows, p[0], p[1]);
    assert FailedRow(rows', p[1]);
    var q := p[1..];
    forall i | 0 <= i < |q| - 1
      ensures Edge(Dependents(deps), q[i], q[i + 1])
    {
      assert Edge(Dependents(deps), p[i + 1], p[i + 2]);
    }
    assert Path(Dependents(deps), q) && FailedRow(rows', q[0]) && q[|q| - 1] == t;
  }

  lemma NothingNear(deps: Edges, rows: Table, t: TaskId)
    requires NearFailure(deps, rows, t, 1)
    ensures FailedRow(rows, t)
  {
    var p :| Path(Dependents(deps), p) && FailedRow(rows, p[0]) && p[|p| - 1] == t && |p| <= 1;
  }

  lemma MarkedTwice(rows: Table, a: set<TaskId>, b: set<TaskId>)
    requires a <= b
    ensures MarkFailedAll(MarkFailedAll(rows, a), b - a) == MarkFailedAll(rows, b)
  {}

  lemma {:induction false} FullSweepsSuffice(deps: Edges, rows: Table, n: nat)
    requires rows.Keys == deps.Keys && Closed(deps) && BelowUnstarted(deps, rows)
    requires DoomedWithin(deps, rows, n + 1)
    ensures FullSweeps(deps, rows, n) == MarkFailedAll(rows, Doomed(deps, rows))
    decreases n
  {
    var ts := Stuck(deps, rows);
    var doomed := Doomed(deps, rows);
    if n == 0 {
      assert doomed == {} by {
        forall t | t in rows
          ensures t !in doomed
        {
          if NearFailure(deps, rows, t, 1) {
            NothingNear(deps, rows, t);
          }
        }
      }
      assert MarkFailedAll(rows, {}) == rows;
    } else {
      var rows' := MarkFailedAll(rows, ts);
      SweepDooms(deps, rows, ts);
      assert BelowUnstarted(deps, rows');
      hide NearFailure, BelowUnstarted, Stuck, Doomed;
      forall t | t in Doomed(deps, rows')
        ensures NearFailure(deps, rows', t, n)
      {
        SweepShortens(deps, rows, t, n);
      }
      FullSweepsSuffice(deps, rows', n - 1);
      MarkedTwice(rows, ts, doomed);
    }
  }

  /** As many unlimited sweeps as the longest chain below a failed task has edges are enough. */
  lemma LongestChainSweeps(deps: Edges, rows: Table, n: nat)
    requires rows.Keys == deps.Keys && Closed(deps) && BelowUnstarted(deps, rows)
    requires ChainsWithin(deps, rows, n + 1)
    ensures FullSweeps(deps, rows, n) == MarkFailedAll(rows, Doomed(deps, rows))
  {
    forall t | t in Doomed(deps, rows)
      ensures NearFailure(deps, rows, t, n + 1)
    {
      var f :| FailedRow(rows, f) && Reach(Dependents(deps), f, t);
      var p :| PathFromTo(Dependents(deps), p, f, t);
      assert Path(Dependents(deps), p) && FailedRow(rows, p[0]);
    }
    FullSweepsSuffice(deps, rows, n);
  }
}
