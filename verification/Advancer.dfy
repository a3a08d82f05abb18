/**
 The cross-process advancer: the same graph driven from the database alone. One
 advancer selects, publishes and marks tasks one statement at a time and sweeps
 for stuck ones; meanwhile workers may write the row of any published task,
 including between its publication and the mark that records it.
 */
module Advancer {
  import opened Contract
  import opened Graphs
  import opened Rows
  import opened Sweep

  datatype Pc =
    | Idle
    | Publishing(todo: seq<TaskId>)             // rows selected by dispatchable_tasks
    | Marking(t: TaskId, todo: seq<TaskId>)     // t is on the bus, mark_dispatched to come
    | Sweeping(todo: seq<TaskId>)               // rows selected by fail_tasks_with_failed_deps

  datatype State = State(rows: Table, pc: Pc, published: set<TaskId>)

  datatype Step =
    | SelectReady(batch: seq<TaskId>)
    | Publish
    | Mark
    | SelectStuck(batch: seq<TaskId>)
    | FailOne
    | Rest
    | WorkerWrite(t: TaskId, row: Row)

  /** Any batch the query could return under any limit. */
  predicate Selects(batch: seq<TaskId>, all: set<TaskId>) {
    Distinct(batch) && forall t | t in batch :: t in all
  }

  predicate Final(s: TaskStatus) {
    s == COMPLETED || s == FAILED
  }

  predicate WorkerStatus(s: TaskStatus) {
    s == RUNNING || s == RETRYING || s == COMPLETED || s == FAILED
  }

  /** What a worker may do to a row: never back to CREATED or QUEUED, never off a final status. */
  predicate WorkerMayWrite(was: Row, now: Row) {
    && (now.state == was.state || WorkerStatus(now.state))
    && (now.status == was.status || (!Final(was.status) && WorkerStatus(now.status)))
  }

  predicate Enabled(deps: Edges, s: State, step: Step) {
    match step
    case SelectReady(batch) => s.pc.Idle? && Selects(batch, Dispatchable(deps, s.rows))
    case Publish => s.pc.Publishing? && s.pc.todo != []
    case Mark => s.pc.Marking?
    case SelectStuck(batch) => s.pc.Idle? && Selects(batch, Stuck(deps, s.rows))
    case FailOne => s.pc.Sweeping? && s.pc.todo != []
    case Rest => (s.pc.Publishing? || s.pc.Sweeping?) && s.pc.todo == []
    case WorkerWrite(t, row) => t in s.published && t in s.rows && WorkerMayWrite(s.rows[t], row)
  }

  function Apply(deps: Edges, s: State, step: Step): State
    requires Enabled(deps, s, step)
  {
    match step
    case SelectReady(batch) => s.(pc := Publishing(batch))
    case Publish => s.(pc := Marking(s.pc.todo[0], s.pc.todo[1..]), published := s.published + {s.pc.todo[0]})
    case Mark => s.(rows := MarkDispatched(s.rows, s.pc.t), pc := Publishing(s.pc.todo))
    case SelectStuck(batch) => s.(pc := Sweeping(batch))
    case FailOne => s.(rows := MarkFailed(s.rows, s.pc.todo[0]), pc := Sweeping(s.pc.todo[1..]))
    case Rest => s.(pc := Idle)
    case WorkerWrite(t, row) => s.(rows := s.rows[t := row])
  }

  predicate Init(deps: Edges, s: State) {
    && s.rows == (map t | t in deps :: FRESH_ROW)
    && s.pc == Idle && s.published == {}
  }

  ghost predicate Run(deps: Edges, s: State, steps: seq<Step>, s': State)
    decreases |steps|
  {
    if steps == [] then s' == s
    else Enabled(deps, s, steps[0]) && Run(deps, Apply(deps, s, steps[0]), steps[1..], s')
  }

  ghost predicate Reachable(deps: Edges, s: State) {
    exists s0, steps :: Init(deps, s0) && Run(deps, s0, steps, s)
  }

  /** One more step at the end of a run. */
  lemma {:induction false} RunSnoc(deps: Edges, s0: State, steps: seq<Step>, s: State, step: Step)
    requires Run(deps, s0, steps, s) && Enabled(deps, s, step)
    ensures Run(deps, s0, steps + [step], Apply(deps, s, step))
    decreases |steps|
  {
    hide Enabled, Apply;
    if steps == [] {
      assert [step][1..] == [];
    } else {
      RunSnoc(deps, Apply(deps, s0, steps[0]), steps[1..], s, step);
      assert (steps + [step])[1..] == steps[1..] + [step];
    }
  }

  // ---- the invariant ----

  predicate DepsDone(deps: Edges, rows: Table, t: TaskId) {
    t in deps && forall d | d in deps[t] :: d in rows && rows[d].status == COMPLETED
  }

  predicate HasFailedDep(deps: Edges, rows: Table, t: TaskId) {
    t in deps && exists d | d in deps[t] :: FailedRow(rows, d)
  }

  predicate Fresh(s: State, t: TaskId) {
    t in s.rows && t !in s.published && s.rows[t] == FRESH_ROW
  }

  predicate RowOk(deps: Edges, s: State, t: TaskId)
    requires t in s.rows
  {
    if t in s.published then
      && DepsDone(deps, s.rows, t)
      && (s.rows[t].status == QUEUED || WorkerStatus(s.rows[t].status))
      && (s.rows[t].state == CREATED ==> s.pc.Marking? && s.pc.t == t)
    else s.rows[t] == FRESH_ROW || (s.rows[t].status == FAILED && HasFailedDep(deps, s.rows, t))
  }

  predicate PcOk(deps: Edges, s: State) {
    match s.pc
    case Idle => true
    case Publishing(todo) => Distinct(todo) && forall t | t in todo :: Fresh(s, t) && DepsDone(deps, s.rows, t)
    case Marking(u, todo) =>
      && u in s.published && u in s.rows
      && Distinct(todo) && forall t | t in todo :: Fresh(s, t) && DepsDone(deps, s.rows, t)
    case Sweeping(todo) => Distinct(todo) && forall t | t in todo :: Fresh(s, t) && HasFailedDep(deps, s.rows, t)
  }

  predicate Inv(deps: Edges, s: State) {
    && s.rows.Keys == deps.Keys && s.published <= deps.Keys
    && (forall t | t in s.rows :: RowOk(deps, s, t))
    && PcOk(deps, s)
  }

  /** Final statuses stay, so what was said of dependencies stays true. */
  predicate FinalKept(rows: Table, rows': Table) {
    rows'.Keys == rows.Keys && forall t | t in rows && Final(rows[t].status) :: rows'[t].status == rows[t].status
  }

  lemma DepsKept(deps: Edges, rows: Table, rows': Table, t: TaskId)
    requires FinalKept(rows, rows')
    ensures DepsDone(deps, rows, t) ==> DepsDone(deps, rows', t)
    ensures HasFailedDep(deps, rows, t) ==> HasFailedDep(deps, rows', t)
  {
    if HasFailedDep(deps, rows, t) {
      var d :| d in deps[t] && FailedRow(rows, d);
      assert FailedRow(rows', d);
    }
  }

  /** Writing one row keeps what is known of all the others. */
  lemma OtherRows(deps: Edges, s: State, s': State, u: TaskId)
    requires Inv(deps, s) && FinalKept(s.rows, s'.rows) && s.published <= s'.published <= s.published + {u}
    requires forall t | t in s.rows && t != u :: s'.rows[t] == s.rows[t]
    requires s.pc.Marking? ==> s.pc.t == u || s'.pc == s.pc
    ensures forall t | t in s.rows && t != u :: RowOk(deps, s', t)
    ensures forall t | t != u && Fresh(s, t) :: Fresh(s', t)
    ensures forall t | t in s.rows :: DepsDone(deps, s.rows, t) ==> DepsDone(deps, s'.rows, t)
    ensures forall t | t in s.rows :: HasFailedDep(deps, s.rows, t) ==> HasFailedDep(deps, s'.rows, t)
  {
    forall t | t in s.rows
      ensures DepsDone(deps, s.rows, t) ==> DepsDone(deps, s'.rows, t)
      ensures HasFailedDep(deps, s.rows, t) ==> HasFailedDep(deps, s'.rows, t)
    {
      DepsKept(deps, s.rows, s'.rows, t);
    }
    hide DepsDone, HasFailedDep, FinalKept, PcOk;
    forall t | t in s.rows && t != u
      ensures RowOk(deps, s', t)
    {
      assert RowOk(deps, s, t);
    }
  }

  lemma TailDistinct(ts: seq<TaskId>)
    requires Distinct(ts) && ts != []
    ensures Distinct(ts[1..]) && ts[0] !in ts[1..] && forall t | t in ts[1..] :: t in ts
  {}

  lemma SelectInv(deps: Edges, s: State, step: Step)
    requires Closed(deps) && Inv(deps, s) && Enabled(deps, s, step) && (step.SelectReady? || step.SelectStuck?)
    ensures Inv(deps, Apply(deps, s, step))
  {
    var s' := Apply(deps, s, step);
    forall t | t in step.batch
      ensures Fresh(s', t)
      ensures if step.SelectReady? then DepsDone(deps, s.rows, t) else HasFailedDep(deps, s.rows, t)
    {
      assert RowOk(deps, s, t);
    }
    forall t | t in s'.rows
      ensures RowOk(deps, s', t)
    {
      assert RowOk(deps, s, t);
    }
  }

  lemma PublishInv(deps: Edges, s: State)
    requires Inv(deps, s) && Enabled(deps, s, Publish)
    ensures Inv(deps, Apply(deps, s, Publish))
    ensures s.pc.todo[0] !in s.published
  {
    var t := s.pc.todo[0];
    var s' := Apply(deps, s, Publish);
    TailDistinct(s.pc.todo);
    assert t in s.pc.todo && Fresh(s, t);
    OtherRows(deps, s, s', t);
    assert RowOk(deps, s', t);
  }

  lemma MarkInv(deps: Edges, s: State)
    requires Inv(deps, s) && Enabled(deps, s, Mark)
    ensures Inv(deps, Apply(deps, s, Mark))
  {
    var s' := Apply(deps, s, Mark);
    OtherRows(deps, s, s', s.pc.t);
    assert RowOk(deps, s, s.pc.t);
  }

  lemma FailOneInv(deps: Edges, s: State)
    requires Inv(deps, s) && Enabled(deps, s, FailOne)
    ensures Inv(deps, Apply(deps, s, FailOne))
  {
    var t := s.pc.todo[0];
    var s' := Apply(deps, s, FailOne);
    TailDistinct(s.pc.todo);
    assert t in s.pc.todo && Fresh(s, t);
    OtherRows(deps, s, s', t);
  }

  lemma WorkerWriteInv(deps: Edges, s: State, t: TaskId, row: Row)
    requires Inv(deps, s) && Enabled(deps, s, WorkerWrite(t, row))
    ensures Inv(deps, Apply(deps, s, WorkerWrite(t, row)))
  {
    var s' := Apply(deps, s, WorkerWrite(t, row));
    OtherRows(deps, s, s', t);
    assert RowOk(deps, s, t);
  }

  lemma StepInv(deps: Edges, s: State, step: Step)
    requires Closed(deps) && Inv(deps, s) && Enabled(deps, s, step)
    ensures Inv(deps, Apply(deps, s, step))
  {
    match step
    case SelectReady(_) => hide Inv; SelectInv(deps, s, step);
    case SelectStuck(_) => hide Inv; SelectInv(deps, s, step);
    case Publish => hide Inv; PublishInv(deps, s);
    case Mark => hide Inv; MarkInv(deps, s);
    case FailOne => hide Inv; FailOneInv(deps, s);
    case Rest =>
      forall t | t in s.rows
        ensures RowOk(deps, Apply(deps, s, step), t)
      {
        assert RowOk(deps, s, t);
      }
    case WorkerWrite(t, row) => hide Inv; WorkerWriteInv(deps, s, t, row);
  }

  lemma {:induction false} RunInv(deps: Edges, s: State, steps: seq<Step>, s': State)
    requires Closed(deps) && Inv(deps, s) && Run(deps, s, steps, s')
    ensures Inv(deps, s')
    decreases |steps|
  {
    hide Inv, Apply, Enabled;
    if steps != [] {
      StepInv(deps, s, steps[0]);
      RunInv(deps, Apply(deps, s, steps[0]), steps[1..], s');
    }
  }

  lemma ReachableInv(deps: Edges, s: State)
    requires Closed(deps) && Reachable(deps, s)
    ensures Inv(deps, s)
  {
    var s0, steps :| Init(deps, s0) && Run(deps, s0, steps, s);
    RunInv(deps, s0, steps, s);
  }

  // ---- what the advancer agrees with ----

  /** Between sweeps the SQL query finds exactly the graph's ready tasks that are not yet published. */
  lemma DispatchableIsReady(deps: Edges, s: State)
    requires Closed(deps) && Reachable(deps, s) && s.pc.Idle?
    ensures Dispatchable(deps, s.rows) == ReadySet(deps, Mirror(s.rows)) - s.published
  {
    ReachableInv(deps, s);
    hide Reachable;
    forall t | t in deps
      ensures t in Dispatchable(deps, s.rows) <==> t in ReadySet(deps, Mirror(s.rows)) - s.published
    {
      assert RowOk(deps, s, t);
      assert forall d | d in deps[t] :: HasStatus(Mirror(s.rows), d, Completed) <==> s.rows[d].status == COMPLETED;
    }
  }

  /** No task is ever published twice, and none before its dependencies are completed. */
  lemma PublishedOnce(deps: Edges, s: State)
    requires Closed(deps) && Reachable(deps, s) && Enabled(deps, s, Publish)
    ensures s.pc.todo[0] !in s.published
    ensures DepsDone(deps, s.rows, s.pc.todo[0])
  {
    hide Reachable;
    ReachableInv(deps, s);
    assert s.pc.todo[0] in s.pc.todo;
  }

  /** Nothing below a failed task has been published. */
  lemma BelowFailedUnpublished(deps: Edges, s: State, f: TaskId, t: TaskId)
    requires Closed(deps) && Inv(deps, s)
    requires FailedRow(s.rows, f) && f != t && Reach(Dependents(deps), f, t)
    ensures t in s.rows && t !in s.published
  {
    var b := LastEdge(Dependents(deps), f, t);
    assert t in deps && b in deps[t];
    if t in s.published {
      assert RowOk(deps, s, t);
      var done := set x | x in s.rows && s.rows[x].status == COMPLETED;
      ReachReversed(deps, f, b);
      forall x, y | x in done && Edge(deps, x, y)
        ensures y in done
      {
        assert RowOk(deps, s, x);
      }
      ClosedUnderEdges(deps, done, b, f);
      assert false;
    }
  }

  lemma ReachableBelowUnstarted(deps: Edges, s: State)
    requires Closed(deps) && Reachable(deps, s)
    ensures s.rows.Keys == deps.Keys && BelowUnstarted(deps, s.rows)
  {
    hide Reachable;
    ReachableInv(deps, s);
    forall t | t in Doomed(deps, s.rows)
      ensures s.rows[t].status == QUEUED
    {
      var f :| FailedRow(s.rows, f) && Reach(Dependents(deps), f, t);
      BelowFailedUnpublished(deps, s, f, t);
      assert RowOk(deps, s, t);
    }
  }

  /** In every reachable state the sweeps end in the in-memory cascade, whatever their limits. */
  lemma SweepsAreTheCascade(deps: Edges, s: State, batches: seq<set<TaskId>>, n: nat)
    requires Closed(deps) && Reachable(deps, s)
    ensures s.rows.Keys == deps.Keys
    ensures ValidSweeps(deps, s.rows, batches) && Stuck(deps, SweepAll(deps, s.rows, batches)) == {}
            ==> SweepAll(deps, s.rows, batches) == MarkFailedAll(s.rows, Doomed(deps, s.rows))
    ensures ValidSweeps(deps, s.rows, batches) && Eager(deps, s.rows, batches) && |batches| >= |Doomed(deps, s.rows)|
            ==> SweepAll(deps, s.rows, batches) == MarkFailedAll(s.rows, Doomed(deps, s.rows))
    ensures ChainsWithin(deps, s.rows, n + 1)
            ==> FullSweeps(deps, s.rows, n) == MarkFailedAll(s.rows, Doomed(deps, s.rows))
    ensures forall t | t in deps :: t in Doomed(deps, s.rows) <==>
              !FailedRow(s.rows, t) && exists f :: FailedRow(s.rows, f) && t in Descendants(Dependents(deps), f)
  {
    hide Reachable, BelowUnstarted, ValidSweeps, Eager, SweepAll, FullSweeps, ChainsWithin;
    ReachableBelowUnstarted(deps, s);
    if ValidSweeps(deps, s.rows, batches) && Eager(deps, s.rows, batches) && |batches| >= |Doomed(deps, s.rows)| {
      LimitedSweepsFinish(deps, s.rows, batches);
    }
    if ValidSweeps(deps, s.rows, batches) && Stuck(deps, SweepAll(deps, s.rows, batches)) == {} {
      SweepsConverge(deps, s.rows, batches);
    }
    if ChainsWithin(deps, s.rows, n + 1) {
      LongestChainSweeps(deps, s.rows, n);
    }
    DoomedIsDescendants(deps, s.rows);
  }

  lemma DoomedIsDescendants(deps: Edges, rows: Table)
    requires rows.Keys == deps.Keys
    ensures forall t | t in deps :: t in Doomed(deps, rows) <==>
              !FailedRow(rows, t) && exists f :: FailedRow(rows, f) && t in Descendants(Dependents(deps), f)
  {
    forall t | t in deps && t in Doomed(deps, rows)
      ensures exists f :: FailedRow(rows, f) && t in Descendants(Dependents(deps), f)
    {
      var f :| FailedRow(rows, f) && Reach(Dependents(deps), f, t);
      assert t in Nodes(Dependents(deps));
      assert t in Descendants(Dependents(deps), f);
    }
  }

  // ---- finalising a workflow ----

  datatype Verdict = WorkflowFailed | WorkflowCompleted

  /** finalize_workflows on one workflow's tasks: failed as soon as one has failed. */
  function Finalized(rows: Table): Option<Verdict> {
    if rows == map[] then None
    else if exists t | t in rows :: rows[t].status == FAILED then Some(WorkflowFailed)
    else if forall t | t in rows :: rows[t].status == COMPLETED || rows[t].status == PARTIAL then
      Some(WorkflowCompleted)
    else None
  }

  predicate AllFinal(rows: Table) {
    forall t | t in rows :: Final(rows[t].status)
  }

  lemma StepKeepsFinal(deps: Edges, s: State, step: Step)
    requires Inv(deps, s) && Enabled(deps, s, step)
    ensures FinalKept(s.rows, Apply(deps, s, step).rows)
  {
    if step.FailOne? {
      assert s.pc.todo[0] in s.pc.todo && Fresh(s, s.pc.todo[0]);
    }
  }

  lemma {:induction false} RunKeepsFinal(deps: Edges, s: State, steps: seq<Step>, s': State)
    requires Closed(deps) && Inv(deps, s) && Run(deps, s, steps, s')
    ensures FinalKept(s.rows, s'.rows)
    decreases |steps|
  {
    hide Inv, Enabled, Apply;
    if steps != [] {
      StepKeepsFinal(deps, s, steps[0]);
      StepInv(deps, s, steps[0]);
      RunKeepsFinal(deps, Apply(deps, s, steps[0]), steps[1..], s');
    }
  }

  /** No task of the engine's own making is ever partial. */
  lemma NeverPartial(deps: Edges, s: State, t: TaskId)
    requires Inv(deps, s) && t in s.rows
    ensures s.rows[t].status != PARTIAL
  {
    assert RowOk(deps, s, t);
  }

  /**
   Finalising does not wait for every task, but it is never wrong: once it gives a
   verdict, every later state gets the same one, and when all tasks are final the
   verdict is "completed" exactly when all of them are.
   */
  lemma FinalizedForGood(deps: Edges, s: State, steps: seq<Step>, s': State)
    requires Closed(deps) && Reachable(deps, s) && Run(deps, s, steps, s')
    ensures Finalized(s.rows).Some? ==> Finalized(s'.rows) == Finalized(s.rows)
    ensures AllFinal(s'.rows) && s'.rows != map[] ==>
              Finalized(s'.rows) ==
                Some(if forall t | t in s'.rows :: s'.rows[t].status == COMPLETED then WorkflowCompleted
                     else WorkflowFailed)
  {
    hide Reachable, Run, Inv;
    ReachableInv(deps, s);
    RunKeepsFinal(deps, s, steps, s');
    forall t | t in s.rows
      ensures s.rows[t].status != PARTIAL
    {
      NeverPartial(deps, s, t);
    }
    if f: TaskId :| f in s.rows && s.rows[f].status == FAILED {
      assert s'.rows[f].status == FAILED;
    }
  }

  predicate NotFinalRow(rows: Table, t: TaskId) {
    t in rows && !Final(rows[t].status)
  }

  /** A verdict is early exactly when one task has failed and another is not final. */
  lemma EarlyIff(deps: Edges, s: State)
    requires Closed(deps) && Reachable(deps, s)
    ensures Finalized(s.rows).Some? && !AllFinal(s.rows)
            <==> (exists f :: FailedRow(s.rows, f)) && exists t :: NotFinalRow(s.rows, t)
  {
    hide Reachable, Inv;
    ReachableInv(deps, s);
    forall t | t in s.rows
      ensures s.rows[t].status != PARTIAL
    {
      NeverPartial(deps, s, t);
    }
    if !AllFinal(s.rows) {
      var t :| t in s.rows && !Final(s.rows[t].status);
      assert NotFinalRow(s.rows, t);
    }
    if f :| FailedRow(s.rows, f) {
      assert s.rows[f].status == FAILED;
    } else {
      assert forall t | t in s.rows :: !FailedRow(s.rows, t);
    }
  }

  // ---- plans whose verdict always waits ----

  /** Nothing was ever published: what a plan without roots stays at. */
  predicate Untouched(deps: Edges, s: State) {
    && s.rows == (map t | t in deps :: FRESH_ROW) && s.published == {}
    && (s.pc.Idle? || ((s.pc.Publishing? || s.pc.Sweeping?) && s.pc.todo == []))
  }

  predicate Rootless(deps: Edges) {
    forall t | t in deps :: deps[t] != {}
  }

  lemma SelectsSome(batch: seq<TaskId>, all: set<TaskId>)
    requires Selects(batch, all)
    ensures batch == [] || exists t :: t in all
  {
    if batch != [] {
      assert batch[0] in batch;
    }
  }

  lemma StepUntouched(deps: Edges, s: State, step: Step)
    requires Closed(deps) && Rootless(deps) && Untouched(deps, s) && Enabled(deps, s, step)
    ensures Untouched(deps, Apply(deps, s, step))
  {
    forall t | t in deps
      ensures t !in Dispatchable(deps, s.rows)
    {
      var d :| d in deps[t];
      assert d in s.rows && s.rows[d].status == QUEUED;
    }
    if step.SelectReady? {
      SelectsSome(step.batch, Dispatchable(deps, s.rows));
    } else if step.SelectStuck? {
      SelectsSome(step.batch, Stuck(deps, s.rows));
    }
  }

  lemma {:induction false} RunUntouched(deps: Edges, s: State, steps: seq<Step>, s': State)
    requires Closed(deps) && Rootless(deps) && Untouched(deps, s) && Run(deps, s, steps, s')
    ensures Untouched(deps, s')
    decreases |steps|
  {
    hide Untouched, Rootless, Enabled, Apply;
    if steps != [] {
      StepUntouched(deps, s, steps[0]);
      RunUntouched(deps, Apply(deps, s, steps[0]), steps[1..], s');
    }
  }

  lemma InitReachable(deps: Edges, s: State)
    requires Init(deps, s)
    ensures Reachable(deps, s)
  {
    assert Run(deps, s, [], s);
  }

  lemma ReachNext(deps: Edges, s: State, step: Step) returns (s': State)
    requires Reachable(deps, s) && Enabled(deps, s, step)
    ensures s' == Apply(deps, s, step) && Reachable(deps, s')
  {
    hide Apply, Enabled, Init, Run;
    s' := Apply(deps, s, step);
    var s0, steps :| Init(deps, s0) && Run(deps, s0, steps, s);
    RunSnoc(deps, s0, steps, s, step);
  }

  /** A root fails while another task has not started. */
  lemma RootFailsFirst(deps: Edges, r: TaskId, t: TaskId) returns (s: State)
    requires r in deps && deps[r] == {} && t in deps && t != r
    ensures Reachable(deps, s) && s.pc.Idle?
    ensures Finalized(s.rows) == Some(WorkflowFailed) && NotFinalRow(s.rows, t) && !AllFinal(s.rows)
  {
    hide Reachable;
    var s0 := State(map x | x in deps :: FRESH_ROW, Idle, {});
    InitReachable(deps, s0);
    assert r in Dispatchable(deps, s0.rows);
    var s1 := ReachNext(deps, s0, SelectReady([r]));
    hide Dispatchable;
    var s2 := ReachNext(deps, s1, Publish);
    var s3 := ReachNext(deps, s2, Mark);
    var s4 := ReachNext(deps, s3, Rest);
    s := ReachNext(deps, s4, WorkerWrite(r, Row(FAILED, FAILED, 1)));
    assert s.rows[r].status == FAILED && NotFinalRow(s.rows, t);
  }

  ghost predicate AlwaysWaits(deps: Edges) {
    forall s | Reachable(deps, s) && s.pc.Idle? :: Finalized(s.rows).Some? ==> AllFinal(s.rows)
  }

  lemma SmallPlanWaits(deps: Edges, s: State)
    requires Closed(deps) && |deps| <= 1 && Reachable(deps, s) && Finalized(s.rows).Some?
    ensures AllFinal(s.rows)
  {
    EarlyIff(deps, s);
    ReachableInv(deps, s);
    hide Reachable, Inv, Finalized;
    assert s.rows.Keys == deps.Keys by {
      ReachableKeys(deps, s);
    }
    forall t, f | t in s.rows && f in s.rows
      ensures t == f
    {
      assert |deps.Keys - {t}| == 0;
      assert f == t || f in deps.Keys - {t};
    }
  }

  lemma ReachableKeys(deps: Edges, s: State)
    requires Closed(deps) && Reachable(deps, s)
    ensures s.rows.Keys == deps.Keys
  {
    hide Reachable;
    ReachableInv(deps, s);
  }

  /**
   Between the advancer's statements a verdict always waits for every task if and
   only if the plan has at most one task, or no root and so nothing to run.
   */
  lemma FinalizingWaitsIff(deps: Edges)
    requires Closed(deps)
    ensures AlwaysWaits(deps) <==> |deps| <= 1 || Rootless(deps)
  {
    hide Reachable, Finalized, AllFinal;
    if |deps| <= 1 {
      forall s | Reachable(deps, s) && Finalized(s.rows).Some?
        ensures AllFinal(s.rows)
      {
        SmallPlanWaits(deps, s);
      }
    } else if Rootless(deps) {
      forall s | Reachable(deps, s)
        ensures Finalized(s.rows).None?
      {
        RootlessNeverFinalized(deps, s);
      }
    } else {
      var r :| r in deps && deps[r] == {};
      assert |deps.Keys - {r}| == |deps.Keys| - 1;
      var t :| t in deps.Keys - {r};
      var s := RootFailsFirst(deps, r, t);
    }
  }

  lemma RootlessNeverFinalized(deps: Edges, s: State)
    requires Closed(deps) && Rootless(deps) && Reachable(deps, s)
    ensures Finalized(s.rows).None?
  {
    var s0, steps :| Init(deps, s0) && Run(deps, s0, steps, s);
    hide Run;
    RunUntouched(deps, s0, steps, s);
    if s.rows != map[] {
      var t :| t in s.rows;
      assert s.rows[t].status == QUEUED;
    }
  }
}
