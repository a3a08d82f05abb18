/**
 advance_once and the stuck-task sweep as they run on the store and the bus, each
 proved to be a run of the advancer's transition system.
 */
module AdvanceLoop {
  import opened Contract
  import opened Graphs
  import opened Rows
  import opened Advancer
  import opened Dag
  import opened Store
  import opened Bus

  /** The statements of a pass that has published the first i tasks of a batch. */
  function PassSteps(batch: seq<TaskId>, i: nat): seq<Step>
    requires i <= |batch|
  {
    if i == 0 then [SelectReady(batch)] else PassSteps(batch, i - 1) + [Publish, Mark]
  }

  function Dispatched(rows: Table, ts: seq<TaskId>): Table {
    map t | t in rows :: if t in ts then rows[t].(state := QUEUED) else rows[t]
  }

  lemma DispatchedStep(rows: Table, batch: seq<TaskId>, i: nat)
    requires i < |batch| && batch[i] in rows
    ensures Rows.MarkDispatched(Dispatched(rows, batch[..i]), batch[i]) == Dispatched(rows, batch[..i + 1])
    ensures Members(batch[..i + 1]) == Members(batch[..i]) + {batch[i]}
  {
    assert batch[..i + 1] == batch[..i] + [batch[i]];
  }

  function Partway(s: State, batch: seq<TaskId>, i: nat): State
    requires i <= |batch|
  {
    State(Dispatched(s.rows, batch[..i]), Publishing(batch[i..]), s.published + Members(batch[..i]))
  }

  lemma {:induction false} PassRun(deps: Edges, s: State, batch: seq<TaskId>, i: nat)
    requires s.pc.Idle? && Selects(batch, Dispatchable(deps, s.rows)) && i <= |batch|
    ensures Run(deps, s, PassSteps(batch, i), Partway(s, batch, i))
  {
    hide Dispatchable;
    if i == 0 {
      assert batch[..0] == [] && batch[0..] == batch;
      assert Dispatched(s.rows, []) == s.rows && Members([]) == {};
      assert [SelectReady(batch)][1..] == [];
      assert Run(deps, Apply(deps, s, SelectReady(batch)), [], Partway(s, batch, 0));
    } else {
      PassRun(deps, s, batch, i - 1);
      var was, t := Partway(s, batch, i - 1), batch[i - 1];
      assert t in batch && batch[i - 1..][0] == t && batch[i - 1..][1..] == batch[i..];
      DispatchableKnown(deps, s.rows, t);
      DispatchedStep(s.rows, batch, i - 1);
      var now := Apply(deps, was, Publish);
      hide Run, Dispatched, Members;
      assert s.published + Members(batch[..i - 1]) + {t} == s.published + Members(batch[..i]);
      assert Apply(deps, now, Mark) == Partway(s, batch, i);
      RunSnoc(deps, s, PassSteps(batch, i - 1), was, Publish);
      RunSnoc(deps, s, PassSteps(batch, i - 1) + [Publish], now, Mark);
      assert PassSteps(batch, i - 1) + [Publish] + [Mark] == PassSteps(batch, i);
    }
  }

  lemma DispatchableKnown(deps: Edges, rows: Table, t: TaskId)
    ensures t in Dispatchable(deps, rows) ==> t in rows
  {}

  /** A finished pass as a run, from idle to idle. */
  lemma PassIsRun(deps: Edges, s: State, batch: seq<TaskId>)
    requires s.pc.Idle? && Selects(batch, Dispatchable(deps, s.rows))
    ensures Run(deps, s, PassSteps(batch, |batch|) + [Rest],
                State(Dispatched(s.rows, batch), Idle, s.published + Members(batch)))
  {
    hide Dispatchable, Dispatched, Members;
    PassRun(deps, s, batch, |batch|);
    assert batch[..|batch|] == batch && batch[|batch|..] == [];
    RunSnoc(deps, s, PassSteps(batch, |batch|), Partway(s, batch, |batch|), Rest);
  }

  /** A pass takes exactly its batch out of what can be dispatched, so nothing is selected twice. */
  lemma PassConsumes(deps: Edges, rows: Table, batch: seq<TaskId>)
    ensures Dispatchable(deps, Dispatched(rows, batch)) == Dispatchable(deps, rows) - Members(batch)
  {
    var rows' := Dispatched(rows, batch);
    forall t | t in rows && t in deps
      ensures t in Dispatchable(deps, rows') <==> t in Dispatchable(deps, rows) - Members(batch)
    {
      assert forall d | d in rows :: rows'[d].status == rows[d].status;
    }
  }

  /** Unless its limit binds a query returns all there is, and unless it is zero something. */
  lemma LimitedMembers(batch: seq<TaskId>, all: set<TaskId>, limit: int)
    requires Limited(batch, all, limit)
    ensures !(0 <= limit < |all|) ==> Members(batch) == all
    ensures limit != 0 && all != {} ==> Members(batch) != {}
  {
    if !(0 <= limit < |all|) {
      UnlimitedListsAll(batch, all, limit);
      assert forall t | t in batch :: t in all;
    } else if limit != 0 {
      assert batch[0] in Members(batch);
    }
  }

  /** What a pass puts on the queue. */
  function Announced<M>(batch: seq<TaskId>, message: TaskId -> M): seq<Entry<M>> {
    seq(|batch|, i requires 0 <= i < |batch| => Entry(message(batch[i]), None))
  }

  lemma NothingAnnounced<M>(rows: Table, q: seq<Entry<M>>, message: TaskId -> M)
    ensures Dispatched(rows, []) == rows && q + Announced([], message) == q
  {}

  lemma AnnouncedStep<M>(q: seq<Entry<M>>, batch: seq<TaskId>, t: TaskId, message: TaskId -> M)
    ensures q + Announced(batch, message) + [Entry(message(t), None)] == q + Announced(batch + [t], message)
  {}

  /** advance_once. `message` gives the message of a task row. */
  method AdvanceOnce<M>(store: AsyncTaskStore, bus: InMemoryBus<M>, queue: QueueName, message: TaskId -> M, limit: int,
                        ghost published: set<TaskId>)
    returns (dispatched: seq<TaskId>)
    modifies store`rows, bus`queues
    ensures Limited(dispatched, Dispatchable(store.deps, old(store.rows)), limit)
    ensures !(0 <= limit < |Dispatchable(store.deps, old(store.rows))|) ==>
              Members(dispatched) == Dispatchable(store.deps, old(store.rows))
              && Dispatchable(store.deps, store.rows) == {}
    ensures Run(store.deps, State(old(store.rows), Idle, published), PassSteps(dispatched, |dispatched|) + [Rest],
                State(store.rows, Idle, published + Members(dispatched)))
    ensures Dispatchable(store.deps, store.rows) == Dispatchable(store.deps, old(store.rows)) - Members(dispatched)
    ensures bus.Queue(queue) == old(bus.Queue(queue)) + Announced(dispatched, message)
  {
    hide Run, Dispatchable, Members, Announced, Dispatched;
    var batch := store.DispatchableTasks(limit);
    dispatched := [];
    NothingAnnounced(store.rows, bus.Queue(queue), message);
    for i := 0 to |batch|
      invariant dispatched == batch[..i]
      invariant store.rows == Dispatched(old(store.rows), dispatched)
      invariant bus.Queue(queue) == old(bus.Queue(queue)) + Announced(dispatched, message)
    {
      assert batch[i] in batch;
      DispatchableKnown(store.deps, old(store.rows), batch[i]);
      DispatchedStep(old(store.rows), batch, i);
      AnnouncedStep(old(bus.Queue(queue)), dispatched, batch[i], message);
      bus.Publish(queue, message(batch[i]));
      store.MarkDispatched(batch[i]);
      dispatched := dispatched + [batch[i]];
      assert batch[..i + 1] == batch[..i] + [batch[i]];
    }
    assert batch[..|batch|] == batch;
    PassIsRun(store.deps, State(old(store.rows), Idle, published), batch);
    PassConsumes(store.deps, old(store.rows), batch);
    LimitedMembers(batch, Dispatchable(store.deps, old(store.rows)), limit);
  }

  // ---- the sweep ----

  function SweepSteps(batch: seq<TaskId>, i: nat): seq<Step>
    requires i <= |batch|
  {
    if i == 0 then [SelectStuck(batch)] else SweepSteps(batch, i - 1) + [FailOne]
  }

  lemma {:induction false} SweepRun(deps: Edges, s: State, batch: seq<TaskId>, i: nat)
    requires s.pc.Idle? && Selects(batch, Stuck(deps, s.rows)) && i <= |batch|
    ensures Run(deps, s, SweepSteps(batch, i),
                State(MarkFailedAll(s.rows, Members(batch[..i])), Sweeping(batch[i..]), s.published))
  {
    hide Stuck;
    if i == 0 {
      assert batch[..0] == [] && batch[0..] == batch;
      assert MarkFailedAll(s.rows, Members([])) == s.rows;
      assert [SelectStuck(batch)][1..] == [];
      assert Run(deps, Apply(deps, s, SelectStuck(batch)), [], State(s.rows, Sweeping(batch), s.published));
    } else {
      SweepRun(deps, s, batch, i - 1);
      assert batch[i - 1..][0] == batch[i - 1] && batch[i - 1..][1..] == batch[i..];
      FailedOneMore(s.rows, batch, i - 1);
      hide Run, MarkFailedAll, Members;
      var was := State(MarkFailedAll(s.rows, Members(batch[..i - 1])), Sweeping(batch[i - 1..]), s.published);
      RunSnoc(deps, s, SweepSteps(batch, i - 1), was, FailOne);
    }
  }

  /** One stuck-task sweep on the store. */
  method SweepOnce(store: AsyncTaskStore, limit: int, ghost published: set<TaskId>) returns (failed: seq<TaskId>)
    modifies store`rows
    ensures Limited(failed, Stuck(store.deps, old(store.rows)), limit)
    ensures !(0 <= limit < |Stuck(store.deps, old(store.rows))|) ==>
              Members(failed) == Stuck(store.deps, old(store.rows))
    ensures limit != 0 && Stuck(store.deps, old(store.rows)) != {} ==> Members(failed) != {}
    ensures store.rows == MarkFailedAll(old(store.rows), Members(failed))
    ensures Run(store.deps, State(old(store.rows), Idle, published), SweepSteps(failed, |failed|) + [Rest],
                State(store.rows, Idle, published))
  {
    hide Run, Stuck, Members, MarkFailedAll;
    failed := store.FailTasksWithFailedDeps(limit);
    LimitedMembers(failed, Stuck(store.deps, old(store.rows)), limit);
    ghost var s := State(old(store.rows), Idle, published);
    SweepRun(store.deps, s, failed, |failed|);
    assert failed[..|failed|] == failed && failed[|failed|..] == [];
    RunSnoc(store.deps, s, SweepSteps(failed, |failed|), State(store.rows, Sweeping([]), published), Rest);
  }
}
