/**
 The orchestrator's hooks and the worker's settle methods as they run, on the
 store, the bus and the graph they share. Every method is proved to be a run of
 the protocol: the tables, queues and graph it leaves are those of the protocol
 state its statements lead to, one step a statement.
 */
module Engine {
  import opened Contract
  import opened Graphs
  import opened Keys
  import opened Rows
  import opened Protocol
  import opened Dag
  import opened Store
  import opened Bus
  import Breaker

  /** A message as it travels: the task's part, and when a retried copy may be executed. */
  datatype Envelope = Envelope(msg: Msg, retryAt: Option<real>)

  function Msgs(q: seq<Entry<Envelope>>): seq<Msg> {
    seq(|q|, i requires 0 <= i < |q| => q[i].payload.msg)
  }

  lemma MsgsAppend(q: seq<Entry<Envelope>>, e: Entry<Envelope>)
    ensures Msgs(q + [e]) == Msgs(q) + [e.payload.msg]
  {}

  lemma MsgsRemove(q: seq<Entry<Envelope>>, i: nat)
    requires i < |q|
    ensures Msgs(q)[i] == q[i].payload.msg
    ensures Msgs(q[..i] + q[i + 1..]) == Msgs(q)[..i] + Msgs(q)[i + 1..]
  {}

  lemma MessagesAppend(c: Config, rows: Table, batch: seq<TaskId>, t: TaskId)
    requires t in rows && forall x | x in batch :: x in rows
    ensures forall x | x in batch + [t] :: x in rows
    ensures Messages(c, rows, batch + [t]) == Messages(c, rows, batch) + [FirstMessage(c, rows, t)]
  {
    hide FirstMessage;
    var longer := Messages(c, rows, batch + [t]);
    assert forall i | 0 <= i < |batch| :: longer[i] == Messages(c, rows, batch)[i];
  }

  /** Two dependents maps with the same edges have the same descendants. */
  lemma SameEdgesSameDescendants(e: Edges, f: Edges, t: TaskId)
    requires forall a, b :: Edge(e, a, b) <==> Edge(f, a, b)
    ensures Graphs.Descendants(e, t) == Graphs.Descendants(f, t)
  {
    forall x
      ensures x in Graphs.Descendants(e, t) ==> x in Graphs.Descendants(f, t)
      ensures x in Graphs.Descendants(f, t) ==> x in Graphs.Descendants(e, t)
    {
      if x in Graphs.Descendants(e, t) {
        ReachAlong(e, f, t, x);
      }
      if x in Graphs.Descendants(f, t) {
        ReachAlong(f, e, t, x);
      }
    }
  }

  lemma ReachAlong(e: Edges, f: Edges, t: TaskId, x: TaskId)
    requires forall a, b :: Edge(e, a, b) ==> Edge(f, a, b)
    requires x != t && Reach(e, t, x)
    ensures Reach(f, t, x) && x in Nodes(f)
  {
    var p :| PathFromTo(e, p, t, x);
    assert PathFromTo(f, p, t, x);
    var y := LastEdge(f, t, x);
  }

  // ---- a store shared with other workflows ----

  predicate Apart(foreign: Table, rows: Table) {
    forall t | t in foreign :: t !in rows
  }

  lemma UpdateOwn(foreign: Table, rows: Table, t: TaskId, row: Row)
    requires Apart(foreign, rows) && t in rows
    ensures (foreign + rows)[t := row] == foreign + rows[t := row]
    ensures t in foreign + rows && (foreign + rows)[t] == rows[t]
    ensures rows[t := row].Keys == rows.Keys && Apart(foreign, rows[t := row])
  {}

  /** Writing one of a workflow's own rows leaves the others alone. */
  lemma WriteOwn(foreign: Table, rows: Table, t: TaskId, x: TaskStatus, a: nat)
    requires Apart(foreign, rows) && t in rows
    ensures SetState(foreign + rows, t, x) == foreign + SetState(rows, t, x)
    ensures SetStatus(foreign + rows, t, x) == foreign + SetStatus(rows, t, x)
    ensures SetAttempt(foreign + rows, t, a) == foreign + SetAttempt(rows, t, a)
    ensures SetState(rows, t, x).Keys == SetStatus(rows, t, x).Keys == SetAttempt(rows, t, a).Keys == rows.Keys
    ensures Apart(foreign, SetState(rows, t, x)) && Apart(foreign, SetStatus(rows, t, x))
    ensures Apart(foreign, SetAttempt(rows, t, a))
  {
    hide Apart;
    UpdateOwn(foreign, rows, t, rows[t].(state := x));
    UpdateOwn(foreign, rows, t, rows[t].(status := x));
    UpdateOwn(foreign, rows, t, rows[t].(attempt := a));
  }

  lemma OwnKeys(foreign: Table, rows: Table, t: TaskId, x: TaskStatus)
    ensures SetState(rows, t, x).Keys == rows.Keys
    ensures forall y | y in rows :: y in foreign + SetState(rows, t, x)
  {}

  lemma ReadOwn(foreign: Table, rows: Table, t: TaskId)
    requires t in rows
    ensures t in foreign + rows && (foreign + rows)[t] == rows[t]
    ensures IsCompleted(foreign + rows, t) == IsCompleted(rows, t)
    ensures Claimable(foreign + rows, t) == Claimable(rows, t)
  {}

  lemma StartOwn(foreign: Table, rows: Table, t: TaskId)
    requires Apart(foreign, rows) && t in rows
    ensures Rows.MarkStarted(foreign + rows, t) == foreign + Rows.MarkStarted(rows, t)
  {
    ReadOwn(foreign, rows, t);
    hide Claimable, SetState, SetStatus, SetAttempt, Apart;
    WriteOwn(foreign, rows, t, RUNNING, 0);
    WriteOwn(foreign, SetState(rows, t, RUNNING), t, RUNNING, 0);
  }

  lemma ExecuteOwn(foreign: Table, rows: Table, t: TaskId, a: nat)
    requires Apart(foreign, rows) && t in rows
    ensures SetState(SetAttempt(foreign + rows, t, a), t, RUNNING)
         == foreign + SetState(SetAttempt(rows, t, a), t, RUNNING)
    ensures SetState(SetAttempt(rows, t, a), t, RUNNING).Keys == rows.Keys
  {
    hide SetState, SetStatus, SetAttempt, Apart;
    WriteOwn(foreign, rows, t, RUNNING, a);
    WriteOwn(foreign, SetAttempt(rows, t, a), t, RUNNING, 0);
  }

  lemma FinishOwn(foreign: Table, rows: Table, t: TaskId, x: TaskStatus)
    requires Apart(foreign, rows) && t in rows
    ensures SetStatus(SetState(foreign + rows, t, x), t, x) == foreign + SetStatus(SetState(rows, t, x), t, x)
    ensures SetStatus(SetState(rows, t, x), t, x).Keys == rows.Keys
  {
    hide SetState, SetStatus, SetAttempt, Apart;
    WriteOwn(foreign, rows, t, x, 0);
    WriteOwn(foreign, SetState(rows, t, x), t, x, 0);
  }

  lemma RetryOwn(foreign: Table, rows: Table, t: TaskId, a: nat)
    requires Apart(foreign, rows) && t in rows
    ensures Rows.MarkRetried(SetState(foreign + rows, t, RETRYING), t, a)
         == foreign + Rows.MarkRetried(SetState(rows, t, RETRYING), t, a)
    ensures Rows.MarkRetried(SetState(rows, t, RETRYING), t, a).Keys == rows.Keys
  {
    hide SetState, SetStatus, SetAttempt, Apart;
    WriteOwn(foreign, rows, t, RETRYING, a);
    var once := SetState(rows, t, RETRYING);
    WriteOwn(foreign, once, t, RETRYING, a);
    WriteOwn(foreign, SetState(once, t, RETRYING), t, RETRYING, a);
    WriteOwn(foreign, SetStatus(SetState(once, t, RETRYING), t, RETRYING), t, RETRYING, a);
  }

  class Orchestrator {
    const c: Config
    const queue: QueueName
    const store: AsyncTaskStore
    const bus: InMemoryBus<Envelope>
    const dag: TaskDAG
    ghost const foreign: Table             // rows of other workflows
    ghost const deadBefore: seq<Msg>       // dead letters from before this run
    var dispatched: set<TaskId>

    constructor (c: Config, queue: QueueName, store: AsyncTaskStore, bus: InMemoryBus<Envelope>, dag: TaskDAG)
      ensures this.c == c && this.queue == queue && this.store == store && this.bus == bus && this.dag == dag
      ensures dispatched == {} && foreign == store.rows - c.deps.Keys
      ensures deadBefore == Msgs(bus.Queue(DEAD_LETTER_QUEUE))
    {
      this.c, this.queue, this.store, this.bus, this.dag := c, queue, store, bus, dag;
      foreign, deadBefore := store.rows - c.deps.Keys, Msgs(bus.Queue(DEAD_LETTER_QUEUE));
      dispatched := {};
    }

    /** The graph is the plan's, and other workflows have other tasks. */
    ghost predicate Valid()
      reads dag
    {
      && c.Valid() && queue != DEAD_LETTER_QUEUE
      && dag.Valid() && dag.dependencies == c.deps && EdgesAgree(dag.dependencies, dag.dependents)
      && foreign.Keys !! c.deps.Keys
    }

    /** Store, bus and graph hold this protocol state, and of other workflows what they held before. */
    ghost predicate Mirrors(s: State)
      reads this, store, bus, dag
    {
      && s.rows.Keys == c.deps.Keys && s.dag.Keys == c.deps.Keys
      && store.rows == foreign + s.rows && store.keys == s.keys
      && Msgs(bus.Queue(queue)) == s.queue && Msgs(bus.Queue(DEAD_LETTER_QUEUE)) == deadBefore + s.dead
      && dag.status == s.dag && dispatched == s.dispatched
    }

    ghost predicate At(s: State)
      reads this, store, bus, dag
    {
      Valid() && Mirrors(s)
    }

    lemma Known(s: State)
      requires At(s)
      ensures c.Valid() && s.rows.Keys == c.deps.Keys && s.dag.Keys == c.deps.Keys && s.keys == store.keys
      ensures store.rows == foreign + s.rows && Apart(foreign, s.rows)
      ensures Msgs(bus.Queue(queue)) == s.queue && Msgs(bus.Queue(DEAD_LETTER_QUEUE)) == deadBefore + s.dead
      ensures dag.status == s.dag && dispatched == s.dispatched
      ensures Valid() && queue != DEAD_LETTER_QUEUE && Closed(c.deps)
    {}

    lemma Lands(s: State)
      requires Valid() && s.rows.Keys == c.deps.Keys && s.dag.Keys == c.deps.Keys
      requires store.rows == foreign + s.rows && store.keys == s.keys
      requires Msgs(bus.Queue(queue)) == s.queue && Msgs(bus.Queue(DEAD_LETTER_QUEUE)) == deadBefore + s.dead
      requires dag.status == s.dag && dispatched == s.dispatched
      ensures At(s)
    {}

    method Dispatch(t: TaskId)
      requires t in store.rows && queue != DEAD_LETTER_QUEUE
      modifies bus`queues
      ensures bus.Queue(queue) == old(bus.Queue(queue)) + [FirstEntry(c, store.rows, t)]
      ensures bus.Queue(DEAD_LETTER_QUEUE) == old(bus.Queue(DEAD_LETTER_QUEUE))
    {
      bus.Publish(queue, Envelope(FirstMessage(c, store.rows, t), None));
    }

    /** Publishes those of the ready tasks that were not published before. */
    method DispatchNew(ready: seq<TaskId>) returns (ghost batch: seq<TaskId>)
      requires queue != DEAD_LETTER_QUEUE && (forall t | t in ready :: t in store.rows) && Distinct(ready)
      modifies this`dispatched, bus`queues
      ensures dispatched == old(dispatched) + Members(ready)
      ensures Lists(batch, Members(ready) - old(dispatched)) && forall t | t in batch :: t in store.rows
      ensures Msgs(bus.Queue(queue)) == old(Msgs(bus.Queue(queue))) + Messages(c, store.rows, batch)
      ensures forall e | e in bus.Queue(queue) :: e in old(bus.Queue(queue)) || Untimed(e)
      ensures bus.Queue(DEAD_LETTER_QUEUE) == old(bus.Queue(DEAD_LETTER_QUEUE))
    {
      hide Lists, Msgs, FirstMessage, Messages, Members, Distinct;
      batch := [];
      NothingDispatched(c, store.rows, ready, dispatched, Msgs(bus.Queue(queue)));
      for i := 0 to |ready|
        invariant dispatched == old(dispatched) + Members(ready[..i])
        invariant Lists(batch, Members(ready[..i]) - old(dispatched))
        invariant forall t | t in batch :: t in store.rows
        invariant Msgs(bus.Queue(queue)) == old(Msgs(bus.Queue(queue))) + Messages(c, store.rows, batch)
        invariant forall e | e in bus.Queue(queue) :: e in old(bus.Queue(queue)) || Untimed(e)
        invariant bus.Queue(DEAD_LETTER_QUEUE) == old(bus.Queue(DEAD_LETTER_QUEUE))
      {
        var t := ready[i];
        NextDispatch(old(dispatched), batch, ready, i);
        if t !in dispatched {
          dispatched := dispatched + {t};
          MessagesAppend(c, store.rows, batch, t);
          MsgsAppend(bus.Queue(queue), FirstEntry(c, store.rows, t));
          Dispatch(t);
          batch := batch + [t];
        }
      }
      assert ready[..|ready|] == ready;
    }

    /** The graph's part of a completion: mark it, record it, ask what is ready. */
    method CompleteTask(t: TaskId, ghost s: State) returns (ready: seq<TaskId>)
      requires At(s) && t in c.deps
      modifies dag`status, store`rows
      ensures Valid() && dag.status == s.dag[t := Completed]
      ensures store.rows == foreign + SetState(s.rows, t, COMPLETED)
      ensures Distinct(ready) && Members(ready) == ReadySet(c.deps, s.dag[t := Completed])
      ensures forall x | x in ready :: x in c.deps
    {
      hide EdgesAgree, DepsCompleted, Msgs, Filtered, ReadyChildren, ReadySet, Lists, Members, Closed, SetState,
           Distinct, Apart, TaskDAG.Valid, Entries;
      Known(s);
      WriteOwn(foreign, s.rows, t, COMPLETED, 0);
      var newly := dag.MarkCompleted(t);
      store.WriteState(t, COMPLETED);
      ready := dag.ReadyTasks();
      ReadyKnown(c.deps, dag.status, ready);
    }

    /** on_done, under the dispatch lock. */
    method OnDone(t: TaskId, ghost s: State, ghost w: WorkerId) returns (ghost batch: seq<TaskId>)
      requires At(s) && t in c.deps
      requires Busy(s, w) && s.workers[w].pc == DoneHook && s.workers[w].m.id == t
      modifies this`dispatched, dag`status, store`rows, bus`queues
      ensures Enabled(c, s, RunDoneHook(w, batch)) && At(Apply(c, s, RunDoneHook(w, batch)))
      ensures forall e | e in bus.Queue(queue) :: e in old(bus.Queue(queue)) || Untimed(e)
    {
      hide Msgs, FirstMessage, Messages, ReadySet, Lists, Members, Closed, Enabled, Apply, DoneHooked, ToDispatch,
           SetState, Distinct, Apart, Entries, Untimed, At, Valid;
      Known(s);
      var ready := CompleteTask(t, s);
      OwnKeys(foreign, s.rows, t, COMPLETED);
      batch := DispatchNew(ready);
      BatchKnown(batch, ready, s.dispatched);
      SameMessages(c, foreign, s.rows, t, COMPLETED, batch);
      DoneHookEffect(c, s, w, t, batch);
      Lands(Apply(c, s, RunDoneHook(w, batch)));
    }

    /** on_fail, under the dispatch lock: the cascade goes to every pending descendant. */
    method OnFail(t: TaskId, ghost s: State, ghost w: WorkerId)
      requires At(s) && t in c.deps
      requires Busy(s, w) && s.workers[w].pc == FailHook && s.workers[w].m.id == t
      modifies dag`status, store`rows
      ensures Enabled(c, s, RunFailHook(w)) && At(Apply(c, s, RunFailHook(w)))
    {
      hide Msgs, Enabled, Apply, Closed, FailedDag, FailedRows, Entries, At, Valid, Apart, Dependents,
           Graphs.Descendants;
      Known(s);
      FailTask(t, s);
      CascadeDone(c, s, w, t);
      Lands(Apply(c, s, RunFailHook(w)));
    }

    /** The graph's part of a failure: mark it, record it, and cascade below it. */
    method FailTask(t: TaskId, ghost s: State)
      requires At(s) && t in c.deps
      modifies dag`status, store`rows
      ensures Valid() && dag.status == FailedDag(s, t, Graphs.Descendants(Dependents(c.deps), t))
      ensures store.rows == foreign + FailedRows(s, t, Graphs.Descendants(Dependents(c.deps), t))
    {
      hide EdgesAgree, Lists, Edge, Graphs.Descendants, Msgs, Members, Dependents, Closed, FailedRows, SetState, Apart,
           Distinct, TaskDAG.Valid, FailedDag, Entries;
      Known(s);
      WriteOwn(foreign, s.rows, t, FAILED, 0);
      DescendantsAgree(dag.dependencies, dag.dependents, t);
      dag.MarkFailed(t);
      store.WriteState(t, FAILED);
      var down := dag.Descendants(t);
      ListsMembers(down, Graphs.Descendants(dag.dependents, t));
      Cascade(t, down, s);
    }

    /** The loop of the cascade: fails the listed tasks that are still pending, in the graph and in the store. */
    method Cascade(t: TaskId, down: seq<TaskId>, ghost s: State)
      requires dag.Valid() && dag.status == s.dag[t := Failed] && store.rows == foreign + SetState(s.rows, t, FAILED)
      requires t in s.rows && s.dag.Keys == s.rows.Keys && Apart(foreign, s.rows) && t !in down && Distinct(down)
      modifies dag`status, store`rows
      ensures dag.Valid()
      ensures dag.status == FailedDag(s, t, Members(down)) && store.rows == foreign + FailedRows(s, t, Members(down))
    {
      hide Lists, Members, SetState, FailedRows, Rows.MarkFailed, Distinct, Apart;
      CascadeStarts(s, t, down);
      for i := 0 to |down|
        invariant dag.Valid()
        invariant dag.status == FailedDag(s, t, Members(down[..i]))
        invariant store.rows == foreign + FailedRows(s, t, Members(down[..i]))
      {
        var d := down[i];
        CascadeStep(s, t, down, i);
        CascadeOwn(foreign, s, t, Members(down[..i]), d);
        if d in dag.status && dag.status[d] == Pending {
          dag.MarkFailed(d);
          store.MarkFailed(d);
        }
      }
      assert down[..|down|] == down;
    }
  }

  function FirstEntry(c: Config, rows: Table, t: TaskId): Entry<Envelope>
    requires t in rows
  {
    Entry(Envelope(FirstMessage(c, rows, t), None), None)
  }

  /** An entry that was never delayed. */
  predicate Untimed(e: Entry<Envelope>) {
    e.retryAt.None? && e.payload.retryAt.None?
  }

  lemma CascadeOwn(foreign: Table, s: State, t: TaskId, down: set<TaskId>, d: TaskId)
    requires Apart(foreign, s.rows) && s.dag.Keys == s.rows.Keys && t in s.rows
    ensures HasStatus(FailedDag(s, t, down), d, Pending) ==>
              Rows.MarkFailed(foreign + FailedRows(s, t, down), d)
              == foreign + Rows.MarkFailed(FailedRows(s, t, down), d)
  {
    if HasStatus(FailedDag(s, t, down), d, Pending) {
      var rows := FailedRows(s, t, down);
      assert rows.Keys == s.rows.Keys && d in s.dag;
      FinishOwn(foreign, rows, d, FAILED);
    }
  }

  // ---- the cascade loop, part of the way ----

  function PendingIn(s: State, down: set<TaskId>): set<TaskId> {
    set x | x in down && HasStatus(s.dag, x, Pending)
  }

  /** The graph once t and the pending ones among `down` are failed. */
  function FailedDag(s: State, t: TaskId, down: set<TaskId>): map<TaskId, DagStatus> {
    map x | x in s.dag.Keys + {t} :: if x == t || x in PendingIn(s, down) then Failed else s.dag[x]
  }

  function FailedRows(s: State, t: TaskId, down: set<TaskId>): Table {
    MarkFailedAll(SetState(s.rows, t, FAILED), PendingIn(s, down))
  }

  lemma CascadeStarts(s: State, t: TaskId, down: seq<TaskId>)
    ensures s.dag[t := Failed] == FailedDag(s, t, Members(down[..0]))
    ensures SetState(s.rows, t, FAILED) == FailedRows(s, t, Members(down[..0]))
  {
    assert PendingIn(s, Members(down[..0])) == {};
  }

  lemma CascadeStep(s: State, t: TaskId, down: seq<TaskId>, i: nat)
    requires i < |down| && t !in down && Distinct(down)
    ensures var d, was, now := down[i], Members(down[..i]), Members(down[..i + 1]);
            if HasStatus(FailedDag(s, t, was), d, Pending)
            then FailedDag(s, t, now) == FailedDag(s, t, was)[d := Failed]
                 && FailedRows(s, t, now) == Rows.MarkFailed(FailedRows(s, t, was), d)
            else FailedDag(s, t, now) == FailedDag(s, t, was) && FailedRows(s, t, now) == FailedRows(s, t, was)
  {
    var d, was, now := down[i], Members(down[..i]), Members(down[..i + 1]);
    assert down[..i + 1] == down[..i] + [d];
    assert now == was + {d} && d !in was;
    if HasStatus(s.dag, d, Pending) {
      assert PendingIn(s, now) == PendingIn(s, was) + {d};
    } else {
      assert PendingIn(s, now) == PendingIn(s, was);
    }
  }

  lemma CascadeDone(c: Config, s: State, w: WorkerId, t: TaskId)
    requires Busy(s, w) && s.workers[w].pc == FailHook && s.workers[w].m.id == t
    ensures var all := Graphs.Descendants(Dependents(c.deps), t);
            Enabled(c, s, RunFailHook(w))
            && Apply(c, s, RunFailHook(w))
                 == s.(dag := FailedDag(s, t, all), rows := FailedRows(s, t, all), workers := s.workers[w := Idle])
            && FailedRows(s, t, all).Keys == s.rows.Keys
            && FailedDag(s, t, all).Keys == s.dag.Keys + {t}
  {
    hide Graphs.Descendants;
    assert Cascaded(c, s, t) == PendingIn(s, Graphs.Descendants(Dependents(c.deps), t));
  }

  lemma DoneHookEffect(c: Config, s: State, w: WorkerId, t: TaskId, batch: seq<TaskId>)
    requires Busy(s, w) && s.workers[w].pc == DoneHook && s.workers[w].m.id == t
    requires Lists(batch, ReadySet(c.deps, s.dag[t := Completed]) - s.dispatched)
    requires forall x | x in batch :: x in s.rows
    ensures Enabled(c, s, RunDoneHook(w, batch))
    ensures Apply(c, s, RunDoneHook(w, batch))
              == s.(dag := s.dag[t := Completed], rows := SetState(s.rows, t, COMPLETED),
                    dispatched := s.dispatched + ReadySet(c.deps, s.dag[t := Completed]),
                    queue := s.queue + Messages(c, s.rows, batch), workers := s.workers[w := Idle])
  {
    hide ReadySet, Lists;
  }

  lemma DescendantsAgree(deps: Edges, dependents: Edges, t: TaskId)
    requires EdgesAgree(deps, dependents) && Closed(deps)
    ensures Graphs.Descendants(dependents, t) == Graphs.Descendants(Dependents(deps), t)
    ensures t !in Graphs.Descendants(dependents, t)
  {
    SameEdgesSameDescendants(dependents, Dependents(deps), t);
  }

  // ---- the dispatch loop, part of the way ----

  lemma NothingDispatched(c: Config, rows: Table, ready: seq<TaskId>, before: set<TaskId>, ms: seq<Msg>)
    ensures Lists([], Members(ready[..0]) - before) && before + Members(ready[..0]) == before
    ensures ms + Messages(c, rows, []) == ms
  {}

  lemma NextDispatch(before: set<TaskId>, batch: seq<TaskId>, ready: seq<TaskId>, i: nat)
    requires i < |ready| && Lists(batch, Members(ready[..i]) - before)
    requires Distinct(ready)
    ensures Members(ready[..i + 1]) == Members(ready[..i]) + {ready[i]} && ready[i] !in Members(ready[..i])
    ensures if ready[i] in before then Lists(batch, Members(ready[..i + 1]) - before)
            else Lists(batch + [ready[i]], Members(ready[..i + 1]) - before)
  {
    assert ready[..i + 1] == ready[..i] + [ready[i]];
    if ready[i] in before {
      assert Members(ready[..i + 1]) - before == Members(ready[..i]) - before;
    } else {
      ListsExtended(batch, Members(ready[..i]) - before, ready[i]);
      assert Members(ready[..i + 1]) - before == Members(ready[..i]) - before + {ready[i]};
    }
  }

  lemma ListsMembers(ts: seq<TaskId>, all: set<TaskId>)
    requires Lists(ts, all)
    ensures Members(ts) == all && Distinct(ts)
    ensures forall t :: t in ts <==> t in all
  {
    assert forall t | t in ts :: t in all;
  }

  lemma ReadyKnown(deps: Edges, status: map<TaskId, DagStatus>, ready: seq<TaskId>)
    requires Lists(ready, ReadySet(deps, status))
    ensures Members(ready) == ReadySet(deps, status) && Distinct(ready)
    ensures forall t | t in ready :: t in deps
  {
    ListsMembers(ready, ReadySet(deps, status));
  }

  lemma BatchKnown(batch: seq<TaskId>, ready: seq<TaskId>, before: set<TaskId>)
    requires Lists(batch, Members(ready) - before)
    ensures forall t | t in batch :: t in ready
  {}

  /** Neither other workflows' rows nor writing an execution state changes what is published. */
  lemma SameMessages(c: Config, foreign: Table, rows: Table, t: TaskId, state: TaskStatus, batch: seq<TaskId>)
    requires forall x | x in batch :: x in rows
    ensures forall x | x in batch :: x in foreign + SetState(rows, t, state)
    ensures Messages(c, foreign + SetState(rows, t, state), batch) == Messages(c, rows, batch)
  {}
}
