/**
 The two drivers of one graph agree: in every reachable state of the run
 protocol, sweeping the database for stuck tasks does what the failure hooks
 still to run will do in memory, and what the run's workers write is what the
 advancer expects of workers.
 */
module Agreement {
  import opened Contract
  import opened Graphs
  import opened Rows
  import opened Protocol
  import opened Sweep
  import Advancer
  import Invariant
  import RunTheorems

  /** The worker has recorded a failure and its hook is still to run. */
  predicate AtFailHook(s: State, w: WorkerId) {
    Busy(s, w) && s.workers[w].pc == FailHook
  }

  ghost predicate AwaitsCascade(c: Config, s: State, x: TaskId) {
    exists w :: AtFailHook(s, w) && x in Cascaded(c, s, s.workers[w].m.id)
  }

  lemma FailedRowInGraph(c: Config, s: State, f: TaskId)
    requires Invariant.Inv(c, s) && FailedRow(s.rows, f)
    ensures f in c.deps
    ensures s.dag[f] == Failed || (s.dag[f] == Pending && exists w :: AtFailHook(s, w) && s.workers[w].m.id == f)
  {
    hide Invariant.Exclusive, Invariant.KeysOk, Invariant.Frontier, Good, Invariant.CountId, Keys.Key, Fate,
         LastAttempt;
    assert Invariant.Resting(c, s, f);
    if s.dag[f] == Pending {
      assert f in s.dispatched;
      forall i | 0 <= i < |s.queue|
        ensures s.queue[i].id != f
      {
        assert Invariant.CopyOk(c, s, s.queue[i], Taken);
      }
      var w :| w in s.workers && Invariant.HeldBy(s, w, f);
      assert Invariant.CopyOk(c, s, s.workers[w].m, s.workers[w].pc);
      assert AtFailHook(s, w);
    }
  }

  /** A failed task of the graph has only failed tasks below it. */
  lemma FailedDownward(c: Config, s: State, f: TaskId, x: TaskId)
    requires Invariant.Inv(c, s) && f in c.deps && s.dag[f] == Failed && Reach(Dependents(c.deps), f, x)
    ensures x in c.deps && s.dag[x] == Failed && FailedRow(s.rows, x)
  {
    hide Invariant.Exclusive, Invariant.KeysOk, Invariant.Located, Invariant.Copies, Good;
    var failed := set y | y in c.deps && s.dag[y] == Failed;
    forall y, z | y in failed && Edge(Dependents(c.deps), y, z)
      ensures z in failed
    {
      assert Invariant.Frontier(c, s, z);
    }
    ClosedUnderEdges(Dependents(c.deps), failed, f, x);
    assert Invariant.Resting(c, s, x);
  }

  lemma FailingTask(c: Config, s: State, w: WorkerId)
    requires Invariant.Inv(c, s) && AtFailHook(s, w)
    ensures s.workers[w].m.id in c.deps && FailedRow(s.rows, s.workers[w].m.id) && s.dag[s.workers[w].m.id] == Pending
  {
    hide Invariant.Exclusive, Invariant.KeysOk, Invariant.Located, Invariant.Resting, Invariant.Frontier, Keys.Key,
         Invariant.CountId, Invariant.MsgOk;
    assert Invariant.CopyOk(c, s, s.workers[w].m, FailHook);
  }

  lemma CascadedIsDoomed(c: Config, s: State, w: WorkerId, x: TaskId)
    requires Invariant.Inv(c, s) && AtFailHook(s, w) && x in Cascaded(c, s, s.workers[w].m.id)
    ensures x in Doomed(c.deps, s.rows) && x in s.rows && s.rows[x] == FRESH_ROW
  {
    hide Invariant.Exclusive, Invariant.KeysOk, Invariant.Located, Invariant.Copies, Invariant.Resting,
         Invariant.Frontier, Reach;
    FailingTask(c, s, w);
    Invariant.BelowUndispatched(c, s, s.workers[w].m.id, x);
    RunTheorems.UndispatchedRow(c, s, x);
  }

  lemma DoomedIsCascaded(c: Config, s: State, x: TaskId)
    requires Invariant.Inv(c, s) && x in Doomed(c.deps, s.rows)
    ensures AwaitsCascade(c, s, x)
  {
    hide Invariant.Exclusive, Invariant.KeysOk, Invariant.Located, Invariant.Copies, Good, Reach;
    var f :| FailedRow(s.rows, f) && Reach(Dependents(c.deps), f, x);
    hide Invariant.Resting, Invariant.Frontier;
    FailedRowInGraph(c, s, f);
    if s.dag[f] == Failed {
      FailedDownward(c, s, f, x);
      assert false;
    } else {
      var w :| AtFailHook(s, w) && s.workers[w].m.id == f;
      assert x in Descendants(Dependents(c.deps), f) by {
        assert x in Nodes(Dependents(c.deps));
      }
      Invariant.BelowUndispatched(c, s, f, x);
      StillPending(c, s, x);
      assert x in Cascaded(c, s, f);
    }
  }

  lemma StillPending(c: Config, s: State, x: TaskId)
    requires Invariant.Inv(c, s) && x in c.deps && x !in s.dispatched && !FailedRow(s.rows, x)
    ensures s.dag[x] == Pending
  {
    hide Invariant.Exclusive, Invariant.KeysOk, Invariant.Located, Invariant.Copies, Invariant.Frontier, Good;
    assert Invariant.Resting(c, s, x);
  }

  /** What the sweeps would still fail is exactly what the outstanding failure hooks will cascade to. */
  lemma DoomedIsAwaitingCascade(c: Config, s: State, x: TaskId)
    requires Reachable(c, s)
    ensures x in Doomed(c.deps, s.rows) <==> AwaitsCascade(c, s, x)
    ensures x in Doomed(c.deps, s.rows) ==> x in s.rows && s.rows[x] == FRESH_ROW
  {
    hide Reachable, Invariant.Inv, Doomed, Cascaded;
    Invariant.ReachableInv(c, s);
    if x in Doomed(c.deps, s.rows) {
      DoomedIsCascaded(c, s, x);
    }
    if AwaitsCascade(c, s, x) {
      var w :| AtFailHook(s, w) && x in Cascaded(c, s, s.workers[w].m.id);
      CascadedIsDoomed(c, s, w, x);
    }
  }

  /**
   With one failure hook outstanding, sweeping until nothing is stuck, under any
   limits, leaves the very table the hook leaves; as many unlimited sweeps as the
   longest chain below the failure has edges do so too.
   */
  lemma SweepsEqualTheHook(c: Config, s: State, w: WorkerId, batches: seq<set<TaskId>>, n: nat)
    requires Reachable(c, s) && Enabled(c, s, RunFailHook(w))
    requires forall v | AtFailHook(s, v) :: v == w
    ensures ValidSweeps(c.deps, s.rows, batches) && Stuck(c.deps, SweepAll(c.deps, s.rows, batches)) == {}
            ==> SweepAll(c.deps, s.rows, batches) == Apply(c, s, RunFailHook(w)).rows
    ensures ChainsWithin(c.deps, s.rows, n + 1)
            ==> FullSweeps(c.deps, s.rows, n) == Apply(c, s, RunFailHook(w)).rows
  {
    hide Reachable, ValidSweeps, SweepAll, FullSweeps, ChainsWithin, Stuck, Doomed, Cascaded;
    var t := s.workers[w].m.id;
    ReachableTable(c, s);
    forall x
      ensures x in Doomed(c.deps, s.rows) <==> x in Cascaded(c, s, t)
      ensures x in Doomed(c.deps, s.rows) ==> x in s.rows && s.rows[x] == FRESH_ROW
    {
      assert AtFailHook(s, w);
      DoomedIsAwaitingCascade(c, s, x);
    }
    assert Doomed(c.deps, s.rows) == Cascaded(c, s, t);
    assert BelowUnstarted(c.deps, s.rows);
    HookTable(c, s, w);
    if ValidSweeps(c.deps, s.rows, batches) && Stuck(c.deps, SweepAll(c.deps, s.rows, batches)) == {} {
      SweepsConverge(c.deps, s.rows, batches);
    }
    if ChainsWithin(c.deps, s.rows, n + 1) {
      LongestChainSweeps(c.deps, s.rows, n);
    }
  }

  lemma ReachableTable(c: Config, s: State)
    requires Reachable(c, s)
    ensures Closed(c.deps) && s.rows.Keys == c.deps.Keys
  {
    hide Reachable;
    RunTheorems.ReachableShape(c, s);
  }

  lemma HookTable(c: Config, s: State, w: WorkerId)
    requires Reachable(c, s) && Enabled(c, s, RunFailHook(w))
    ensures Apply(c, s, RunFailHook(w)).rows == MarkFailedAll(s.rows, Cascaded(c, s, s.workers[w].m.id))
  {
    hide Reachable, Invariant.Exclusive, Invariant.KeysOk, Invariant.Located, Invariant.Resting, Invariant.Frontier,
         Cascaded, Keys.Key, Invariant.CountId;
    Invariant.ReachableInv(c, s);
    var t := s.workers[w].m.id;
    assert Invariant.CopyOk(c, s, s.workers[w].m, FailHook);
    assert s.rows[t].state == FAILED;
    assert SetState(s.rows, t, FAILED) == s.rows;
  }

  /** With no failure hook outstanding a sweep finds nothing to do. */
  lemma NothingToSweep(c: Config, s: State)
    requires Reachable(c, s) && forall w :: !AtFailHook(s, w)
    ensures Stuck(c.deps, s.rows) == {}
  {
    hide Reachable, Doomed, Stuck, Cascaded;
    ReachableTable(c, s);
    SweepDooms(c.deps, s.rows, Stuck(c.deps, s.rows));
    forall x
      ensures x !in Doomed(c.deps, s.rows)
    {
      DoomedIsAwaitingCascade(c, s, x);
    }
  }

  /** A worker's write to its task's row is one the advancer's workers may make. */
  lemma WorkersWriteAsExpected(c: Config, s: State, w: WorkerId, action: Action)
    requires Reachable(c, s) && Enabled(c, s, Act(w, action))
    ensures var t := s.workers[w].m.id;
            t in s.rows && t in Apply(c, s, Act(w, action)).rows
            && Advancer.WorkerMayWrite(s.rows[t], Apply(c, s, Act(w, action)).rows[t])
  {
    hide Reachable, Invariant.Exclusive, Invariant.KeysOk, Invariant.Located, Invariant.Resting, Invariant.Frontier,
         Keys.Key, Invariant.CountId, CanAct, Invariant.PcOk, Invariant.MsgOk;
    Invariant.ReachableInv(c, s);
    var m := s.workers[w].m;
    Invariant.HeldMessage(c, s, w);
    RunTheorems.RowAfterLegal(c, s, m, s.workers[w].pc, action, s.rows[m.id], Invariant.CountId(s.dead, m.id),
                              s.runs[m.id]);
  }
}
