/**
 run_workflow from end to end: create the rows, build the graph, publish the
 roots, let a pool of workers poll until nothing is pending or the time is up,
 aggregate.
 */
module Workflow {
  import opened Contract
  import opened Graphs
  import opened Keys
  import opened Rows
  import opened Protocol
  import opened Dag
  import opened Depth
  import opened DepthExact
  import opened Store
  import opened Bus
  import opened Engine
  import opened Workers
  import Invariant
  import RunTheorems
  import Progress
  import Breaker

  function FreshRows(deps: Edges): Table {
    map t | t in deps :: FRESH_ROW
  }

  /** What creating the tasks runs into: an id given twice, or one that some workflow already has. */
  ghost predicate Creatable(nodes: seq<Node>, taken: Table) {
    UniqueIds(nodes) && forall node | node in nodes :: node.id !in taken
  }

  lemma CreatedNext(nodes: seq<Node>, i: nat)
    requires i < |nodes|
    ensures FreshRows(DepsOf(nodes[..i + 1])) == FreshRows(DepsOf(nodes[..i]))[nodes[i].id := FRESH_ROW]
    ensures nodes[i].id in FreshRows(DepsOf(nodes[..i])) <==> Declares(nodes[..i], nodes[i].id)
  {
    assert nodes[..i + 1][..i] == nodes[..i];
    DepsOfKeys(nodes[..i]);
  }

  lemma NotCreatable(nodes: seq<Node>, taken: Table, i: nat)
    requires i < |nodes| && (Declares(nodes[..i], nodes[i].id) || nodes[i].id in taken)
    ensures !Creatable(nodes, taken)
  {}

  lemma AllCreatable(nodes: seq<Node>, taken: Table)
    requires forall i | 0 <= i < |nodes| :: !Declares(nodes[..i], nodes[i].id) && nodes[i].id !in taken
    ensures Creatable(nodes, taken)
  {
    forall i, j | 0 <= i < j < |nodes|
      ensures nodes[i].id != nodes[j].id
    {
      assert nodes[..j][i] == nodes[i];
    }
  }

  /**
   create_tasks: one row for each node, in order, until an id is taken. The rows
   written before that stay.
   */
  method CreateTasks(nodes: seq<Node>, store: AsyncTaskStore) returns (created: bool, ghost n: nat)
    modifies store`rows
    ensures created <==> Creatable(nodes, old(store.rows))
    ensures n <= |nodes| && store.rows == old(store.rows) + FreshRows(DepsOf(nodes[..n]))
    ensures if created then n == |nodes| else n < |nodes| && nodes[n].id in store.rows
    ensures forall t | t in old(store.rows) :: t in store.rows && store.rows[t] == old(store.rows)[t]
  {
    hide DepsOf, FreshRows, Declares, Creatable, UniqueIds;
    ghost var taken := store.rows;
    NothingCreated(nodes, taken);
    for i := 0 to |nodes|
      invariant store.rows == taken + FreshRows(DepsOf(nodes[..i]))
      invariant forall j | 0 <= j < i :: !Declares(nodes[..j], nodes[j].id) && nodes[j].id !in taken
      invariant forall t | t in taken :: t in store.rows && store.rows[t] == taken[t]
    {
      CreatedNext(nodes, i);
      created := store.CreateTask(nodes[i].id);
      if !created {
        NotCreatable(nodes, taken, i);
        return false, i;
      }
    }
    AllCreatable(nodes, taken);
    return true, |nodes|;
  }

  lemma NothingCreated(nodes: seq<Node>, taken: Table)
    ensures taken + FreshRows(DepsOf(nodes[..0])) == taken
  {}

  /** The status aggregate gives a workflow with these tasks: true for completed, false for failed. */
  method Aggregate(ids: set<TaskId>, store: AsyncTaskStore) returns (completed: bool)
    ensures completed <==> forall t | t in ids && t in store.rows :: store.rows[t].status == COMPLETED
  {
    completed := true;
    var todo := ids;
    while todo != {}
      invariant todo <= ids
      invariant completed <==>
                  forall t | t in ids && t in store.rows && t !in todo :: store.rows[t].status == COMPLETED
      decreases todo
    {
      var t :| t in todo;
      completed := completed && (t in store.rows ==> store.rows[t].status == COMPLETED);
      todo := todo - {t};
    }
  }

  method NonePending(status: map<TaskId, DagStatus>) returns (none: bool)
    ensures none <==> forall t | t in status :: status[t] != Pending
  {
    none := true;
    var todo := status.Keys;
    while todo != {}
      invariant todo <= status.Keys
      invariant none == forall t | t in status && t !in todo :: status[t] != Pending
      decreases todo
    {
      var t :| t in todo;
      none := none && status[t] != Pending;
      todo := todo - {t};
    }
  }

  /** With every task pending the ready ones are those without dependencies. */
  lemma RootsAreReady(deps: Edges, status: map<TaskId, DagStatus>)
    requires status.Keys == deps.Keys && forall t | t in status :: status[t] == Pending
    ensures ReadySet(deps, status) == Roots(deps)
  {
    forall t | t in deps
      ensures DepsCompleted(deps, status, t) <==> deps[t] == {}
    {
      if deps[t] != {} {
        var d :| d in deps[t];
        assert !HasStatus(status, d, Completed);
      }
    }
  }

  lemma RootsListed(deps: Edges, status: map<TaskId, DagStatus>, ready: seq<TaskId>, taken: Table)
    requires status.Keys == deps.Keys && forall t | t in status :: status[t] == Pending
    requires Lists(ready, ReadySet(deps, status))
    ensures Distinct(ready) && Members(ready) == Roots(deps)
    ensures forall t | t in ready :: t in taken + FreshRows(deps)
  {
    hide ReadySet, Distinct, Members, Roots, Lists;
    RootsAreReady(deps, status);
    ReadyKnown(deps, status, ready);
  }

  lemma ReachedInv(c: Config, s0: State, steps: seq<Step>, s: State)
    requires Init(c, s0) && Run(c, s0, steps, s)
    ensures Invariant.Inv(c, s)
  {
    hide Run;
    Invariant.InitInv(c, s0);
    hide Init;
    Invariant.RunInv(c, s0, steps, s);
  }

  /** The ids on the queue are the plan's. */
  lemma QueueIds(c: Config, s: State)
    requires Invariant.Inv(c, s)
    ensures forall m | m in s.queue :: m.id in c.deps && m.id in s.runs
  {
    hide Invariant.Exclusive, Invariant.Located, Invariant.KeysOk, Invariant.Resting, Invariant.Frontier;
    forall m | m in s.queue
      ensures m.id in c.deps && m.id in s.runs
    {
      var i :| 0 <= i < |s.queue| && s.queue[i] == m;
      assert Invariant.CopyOk(c, s, s.queue[i], Taken);
    }
  }

  /** The state in which the workers start, the roots being published in this order. */
  function Opening(c: Config, keys: map<string, TaskId>, batch: seq<TaskId>): State
    requires forall t | t in batch :: t in c.deps
  {
    State(FreshRows(c.deps), keys, Messages(c, FreshRows(c.deps), batch), [], map w | w in c.workers :: Idle,
          map t | t in c.deps :: Pending, Roots(c.deps), map t | t in c.deps :: 0)
  }

  /** What the roots' dispatch leaves is an initial state of the protocol. */
  lemma Started(c: Config, keys: map<string, TaskId>, batch: seq<TaskId>)
    requires c.Valid() && ForeignKeys(c, keys) && Lists(batch, Roots(c.deps))
    ensures (forall t | t in batch :: t in c.deps) && Init(c, Opening(c, keys, batch))
  {
    forall t | t in batch
      ensures t in c.deps
    {
      assert t in Roots(c.deps);
    }
  }

  /** The rows just created are the plan's, and the rest is as it was. */
  lemma WholePlan(nodes: seq<Node>, taken: Table)
    requires Creatable(nodes, taken)
    ensures taken + FreshRows(DepsOf(nodes[..|nodes|])) == taken + FreshRows(DepsOf(nodes))
    ensures taken + FreshRows(DepsOf(nodes)) - DepsOf(nodes).Keys == taken
    ensures taken.Keys !! DepsOf(nodes).Keys && UniqueIds(nodes)
  {
    assert nodes[..|nodes|] == nodes;
    DepsOfKeys(nodes);
  }

  lemma BeginsEmpty(c: Config, batch: seq<TaskId>, rows: Table)
    requires forall t | t in batch :: t in rows
    ensures Msgs([]) + Messages(c, rows, batch) == Messages(c, rows, batch)
  {}

  /** The roots' messages do not depend on other workflows' rows. */
  lemma RootMessages(c: Config, taken: Table, batch: seq<TaskId>)
    requires forall t | t in batch :: t in c.deps
    ensures forall t | t in batch :: t in taken + FreshRows(c.deps)
    ensures Messages(c, taken + FreshRows(c.deps), batch) == Messages(c, FreshRows(c.deps), batch)
  {}

  /** The loop that publishes the roots, before any worker starts. */
  method PublishRoots(o: Orchestrator) returns (ghost s: State)
    requires o.Valid() && ForeignKeys(o.c, o.store.keys) && o.store.rows == o.foreign + FreshRows(o.c.deps)
    requires o.dispatched == {} && o.dag.status.Keys == o.c.deps.Keys
    requires forall t | t in o.dag.status :: o.dag.status[t] == Pending
    requires o.bus.Queue(o.queue) == [] && o.deadBefore == Msgs(o.bus.Queue(DEAD_LETTER_QUEUE))
    modifies o`dispatched, o.bus`queues
    ensures o.At(s) && Init(o.c, s) && forall e | e in o.bus.Queue(o.queue) :: Untimed(e)
  {
    hide Closed, EdgesAgree, Lists, Messages, Msgs, ForeignKeys, ReadySet, Members, Init, FreshRows, Orchestrator.At,
         Orchestrator.Valid, Distinct, Untimed, Roots, Opening;
    var c := o.c;
    Usable(o);
    var ready := o.dag.ReadyTasks();
    RootsListed(c.deps, o.dag.status, ready, o.foreign);
    ghost var batch := o.DispatchNew(ready);
    assert {} + Roots(c.deps) == Roots(c.deps) - {} == Roots(c.deps);
    Started(c, o.store.keys, batch);
    BeginsEmpty(c, batch, o.store.rows);
    RootMessages(c, o.foreign, batch);
    s := Opening(c, o.store.keys, batch);
    Opened(c, o.store.keys, batch, o.dag.status);
    o.Lands(s);
  }

  lemma Usable(o: Orchestrator)
    requires o.Valid()
    ensures o.c.Valid() && o.queue != DEAD_LETTER_QUEUE && o.dag.Valid() && o.dag.dependencies == o.c.deps
  {}

  lemma Opened(c: Config, keys: map<string, TaskId>, batch: seq<TaskId>, status: map<TaskId, DagStatus>)
    requires forall t | t in batch :: t in c.deps
    requires status.Keys == c.deps.Keys && forall t | t in status :: status[t] == Pending
    ensures var s := Opening(c, keys, batch);
            && s.rows == FreshRows(c.deps) && s.rows.Keys == c.deps.Keys && s.dag == status
            && s.dispatched == Roots(c.deps)
            && s.queue == Messages(c, FreshRows(c.deps), batch) && s.dead == [] && s.keys == keys
  {}

  /** How far a run gets before its workers start. */
  datatype Launching = IdTaken | TooDeep | Underway(o: Orchestrator)

  /** Everything before the wait: rows, graph, and the roots on the bus. */
  method Launch(nodes: seq<Node>, c: Config, maxDepth: int, queue: QueueName, store: AsyncTaskStore,
                bus: InMemoryBus<Envelope>)
    returns (launching: Launching, ghost s: State)
    requires c.deps == DepsOf(nodes) && c.Valid() && ForeignKeys(c, store.keys)
    requires queue != DEAD_LETTER_QUEUE && bus.Queue(queue) == []
    modifies store`rows, bus`queues
    ensures launching != IdTaken <==> Creatable(nodes, old(store.rows))
    ensures launching != IdTaken ==> Judged(c.deps, maxDepth, launching == TooDeep)
    ensures launching == TooDeep ==> HasLongChain(c.deps, Dependents(c.deps), maxDepth)
    ensures launching.Underway? ==> Shallow(c.deps, maxDepth)
    ensures Forest(Dependents(c.deps)) ==>
              (launching == TooDeep
               <==> Creatable(nodes, old(store.rows)) && HasLongChain(c.deps, Dependents(c.deps), maxDepth))
    ensures forall t | t in old(store.rows) :: t in store.rows && store.rows[t] == old(store.rows)[t]
    ensures match launching
            case Underway(o) =>
              && fresh(o) && fresh(o.dag) && o.c == c && o.store == store && o.bus == bus && o.queue == queue
              && o.foreign == old(store.rows) && o.deadBefore == old(Msgs(bus.Queue(DEAD_LETTER_QUEUE)))
              && o.At(s) && Init(c, s) && forall e | e in bus.Queue(queue) :: Untimed(e)
            case _ => bus.queues == old(bus.queues)
  {
    hide Closed, EdgesAgree, Lists, Messages, Msgs, HasLongChain, ForeignKeys, ReadySet, Filtered, Forest, DepsOf,
         UniqueIds, Members, Init, Creatable, FreshRows, Orchestrator.At, Distinct, TaskDAG.Valid, Untimed, Dependents,
         Shallow, OrderOf, SomeRootTooDeep;
    s := Opening(c, store.keys, []);
    var created;
    ghost var n;
    created, n := CreateTasks(nodes, store);
    if !created {
      return IdTaken, s;
    }
    WholePlan(nodes, old(store.rows));
    var dag, rejected;
    ghost var kids;
    dag, rejected, kids := BuildDag(nodes, maxDepth);
    RecordedClosed(c.deps, dag.dependents);
    Verdict(c.deps, maxDepth, rejected);
    if rejected {
      return TooDeep, s;
    }
    var orchestrator := new Orchestrator(c, queue, store, bus, dag);
    s := PublishRoots(orchestrator);
    launching := Underway(orchestrator);
  }

  /** The pool's workers, all on one orchestrator, one breaker and one backoff table. */
  ghost predicate PoolOf(pool: seq<Workers.Worker>, o: Orchestrator, breaker: Breaker.CircuitBreaker,
                         backoff: nat -> real) {
    forall w | w in pool :: w.orchestrator == o && w.breaker == breaker && w.backoff == backoff
  }

  /** No worker holds a message, and the pool's workers are known to the run. */
  ghost predicate AllIdle(pool: seq<Workers.Worker>, s: State) {
    (forall w | w in s.workers :: s.workers[w].Idle?) && forall w | w in pool :: w.name in s.workers
  }

  /** WorkerPool: one worker for each name. */
  method BuildPool(names: seq<WorkerId>, o: Orchestrator, breaker: Breaker.CircuitBreaker,
                   typeOf: TaskId -> Breaker.TaskType, backoff: nat -> real)
    returns (pool: seq<Workers.Worker>)
    ensures |pool| == |names| && PoolOf(pool, o, breaker, backoff)
    ensures forall i | 0 <= i < |names| :: fresh(pool[i]) && pool[i].name == names[i] && pool[i].typeOf == typeOf
  {
    pool := [];
    for i := 0 to |names|
      invariant |pool| == i && PoolOf(pool, o, breaker, backoff)
      invariant forall j | 0 <= j < i :: fresh(pool[j]) && pool[j].name == names[j] && pool[j].typeOf == typeOf
    {
      var w := new Workers.Worker(names[i], o, breaker, typeOf, backoff);
      pool := pool + [w];
    }
  }

  /** No two polls are closer together than this. */
  ghost predicate Spaced(clock: nat -> real, gap: real) {
    0.0 <= gap && 0.0 <= clock(0) && forall i: nat, j: nat | i < j :: clock(i) + gap <= clock(j)
  }

  /** The clock leaves time for every backoff and every cooldown, and no type's breaker is open at the start. */
  ghost predicate Leisurely(breaker: Breaker.CircuitBreaker, backoff: nat -> real, clock: nat -> real, gap: real)
    reads breaker
  {
    && Spaced(clock, gap) && AllCool(breaker.openedAt, breaker.cooldown, clock(0))
    && breaker.cooldown <= gap && forall a: nat :: backoff(a) <= gap
  }

  /** While a task is pending and nobody holds a message there is one on the queue. */
  lemma SomethingQueued(c: Config, s: State)
    requires Invariant.Inv(c, s) && Acyclic(c.deps) && !Complete(s) && forall w | w in s.workers :: s.workers[w].Idle?
    ensures s.queue != []
  {
    hide Invariant.Inv, Acyclic, Complete;
    var step := Progress.NoDeadlock(c, s);
  }

  lemma DueBy(q: seq<Entry<Envelope>>, openedAt: map<Breaker.TaskType, real>, cooldown: real, was: real, now: real)
    requires was <= now
    ensures AllDue(q, was) ==> AllDue(q, now)
    ensures AllCool(openedAt, cooldown, was) ==> AllCool(openedAt, cooldown, now)
  {}

  lemma UntimedDue(q: seq<Entry<Envelope>>, at: real)
    requires forall e | e in q :: Untimed(e)
    ensures 0.0 <= at ==> AllDue(q, at)
  {}

  lemma SpacedFrom(clock: nat -> real, gap: real)
    ensures Spaced(clock, gap) ==> 0.0 <= gap && 0.0 <= clock(0)
  {}

  lemma {:induction false} NoBounces(steps: seq<Step>)
    requires forall step | step in steps :: !Progress.IsBounce(step)
    ensures Progress.Bounces(steps) == 0
  {
    if steps != [] {
      NoBounces(steps[1..]);
    }
  }

  lemma RunOf(c: Config, w: WorkerId, s: State, steps: seq<Step>, s': State)
    ensures RunBy(c, w, s, steps, s') ==>
              Run(c, s, steps, s') && forall step | step in steps :: !Progress.IsBounce(step)
    ensures RunPut(c, w, s, steps, s') ==> Run(c, s, steps, s')
  {}

  method Finished(o: Orchestrator, ghost s: State) returns (finished: bool)
    requires o.At(s)
    ensures finished <==> Complete(s)
  {
    finished := NonePending(o.dag.status);
  }

  /**
   The wait: workers poll in any order until no task is pending, or the rounds are
   used up. A poll that finds nothing due is idle; every other takes at least one
   step. On an acyclic plan and a clock that leaves time for every backoff and
   cooldown no poll is idle and none puts a message back, in whatever order the
   workers poll.
   */
  method PumpAll(pool: seq<Workers.Worker>, o: Orchestrator, breaker: Breaker.CircuitBreaker, pick: nat -> nat,
                 clock: nat -> real, rounds: nat, ghost backoff: nat -> real, ghost gap: real, ghost s0: State)
    returns (finished: bool, idle: nat, ghost steps: seq<Step>, ghost s: State)
    requires o.At(s0) && Init(o.c, s0) && pool != [] && PoolOf(pool, o, breaker, backoff) && AllIdle(pool, s0)
    modifies pool, breaker, o`dispatched, o.dag`status, o.store`rows, o.store`keys, o.bus
    ensures o.At(s) && Run(o.c, s0, steps, s)
    ensures finished <==> Complete(s)
    ensures finished || |steps| + idle >= rounds
    ensures Acyclic(o.c.deps) && old(Leisurely(breaker, backoff, clock, gap))
            && old(AllDue(o.bus.Queue(o.queue), clock(0))) ==>
              idle == 0 && Progress.Bounces(steps) == 0
  {
    hide Run, Init, Orchestrator.At, Orchestrator.Valid, Enabled, Apply, Msgs, RunBy, RunPut, AllDue, AllCool, Acyclic,
         Progress.IsBounce, Progress.Bounces, Invariant.Inv, Complete, IsDue, FirstDue, RetryEntry, Untimed, Positive,
         Breaker.Answer, Breaker.CircuitBreaker.Contents, InMemoryBus.Queue, Entries, Workers.Worker.Leaves;
    ghost var c := o.c;
    ghost var calm :=
      Acyclic(c.deps) && Leisurely(breaker, backoff, clock, gap) && AllDue(o.bus.Queue(o.queue), clock(0));
    steps, s := [], s0;
    NoSteps(c, pool[0].name, s);
    RunOf(c, pool[0].name, s, [], s);
    finished := Finished(o, s);
    idle := 0;
    var i := 0;
    while i < rounds && !finished
      invariant |steps| + idle >= i
      invariant o.At(s) && Run(c, s0, steps, s) && AllIdle(pool, s)
      invariant finished <==> Complete(s)
      invariant calm ==> idle == 0 && forall step | step in steps :: !Progress.IsBounce(step)
      invariant calm ==> AllDue(o.bus.Queue(o.queue), clock(i)) && AllCool(breaker.openedAt, breaker.cooldown, clock(i))
    {
      var worker := pool[pick(i) % |pool|];
      assert worker in pool;
      ReachedInv(c, s0, steps, s);
      QueueIds(c, s);
      if calm {
        SomethingQueued(c, s);
      }
      ghost var more, s';
      var end;
      ghost var at;
      end, at, more, s' := worker.PumpOnce(clock(i), gap, s);
      if calm {
        assert clock(i) + gap <= clock(i + 1);
        DueBy(o.bus.Queue(o.queue), breaker.openedAt, breaker.cooldown, clock(i) + gap, clock(i + 1));
      }
      if end.None? {
        idle := idle + 1;
      } else {
        RunOf(c, worker.name, s, more, s');
        RunConcat(c, s0, steps, s, more, s');
        steps, s := steps + more, s';
      }
      finished := Finished(o, s);
      i := i + 1;
    }
    if calm {
      NoBounces(steps);
    }
  }

  /** How a run ends: not at all for want of its rows or its depth, or aggregated, perhaps cut off. */
  datatype Ending = NotCreated | NotShallow | Aggregated(finished: bool, completed: bool)

  /** The store and the dead-letter queue at the end of a run, beside what they held before. */
  ghost predicate EndsAs(c: Config, before: Table, deadBefore: seq<Msg>, rows: Table, dead: seq<Msg>,
                         steps: seq<Step>)
  {
    exists s0, s :: Init(c, s0) && Run(c, s0, steps, s) && rows == before + s.rows && dead == deadBefore + s.dead
  }

  lemma Ended(c: Config, before: Table, deadBefore: seq<Msg>, s0: State, steps: seq<Step>, s: State)
    requires Init(c, s0) && Run(c, s0, steps, s)
    ensures EndsAs(c, before, deadBefore, before + s.rows, deadBefore + s.dead, steps)
  {}

  /** What the store says of the plan's tasks is what the run's rows say. */
  lemma OwnStatus(c: Config, before: Table, s: State)
    requires s.rows.Keys == c.deps.Keys
    ensures forall t | t in c.deps :: t in before + s.rows && (before + s.rows)[t] == s.rows[t]
    ensures (forall t | t in c.deps :: (before + s.rows)[t].status == COMPLETED) <==> AggregateCompleted(s.rows)
  {}

  /**
   The whole run. No run starts exactly when an id is given twice or taken, and a
   plan is rejected only for a chain longer than the limit. A run that finishes
   leaves every row of the plan as the oracle alone demands, and its status is
   "completed" exactly when every task succeeds within its attempts; rows and dead
   letters of other workflows are as they were. A run that is cut off had fewer
   polls than its attempts, its put-backs and its idle polls account for, so an
   acyclic plan on a clock that leaves time for every backoff and cooldown finishes
   within twenty polls for each attempt, in whatever order the workers poll.
   */
  method RunWorkflow(nodes: seq<Node>, c: Config, maxDepth: int, queue: QueueName, names: seq<WorkerId>,
                     store: AsyncTaskStore, bus: InMemoryBus<Envelope>, breaker: Breaker.CircuitBreaker,
                     typeOf: TaskId -> Breaker.TaskType, backoff: nat -> real, pick: nat -> nat, clock: nat -> real,
                     rounds: nat, ghost gap: real)
    returns (ending: Ending, idle: nat, ghost steps: seq<Step>)
    requires c.deps == DepsOf(nodes) && c.Valid() && c.workers == Members(names) && ForeignKeys(c, store.keys)
    requires queue != DEAD_LETTER_QUEUE && bus.Queue(queue) == []
    modifies store`rows, store`keys, bus, breaker
    ensures ending != NotCreated <==> Creatable(nodes, old(store.rows))
    ensures ending != NotCreated ==> Judged(c.deps, maxDepth, ending == NotShallow)
    ensures ending == NotShallow ==> HasLongChain(c.deps, Dependents(c.deps), maxDepth)
    ensures ending.Aggregated? ==> Shallow(c.deps, maxDepth)
    ensures Forest(Dependents(c.deps)) ==>
              (ending == NotShallow
               <==> Creatable(nodes, old(store.rows)) && HasLongChain(c.deps, Dependents(c.deps), maxDepth))
    ensures forall t | t in old(store.rows) :: t in store.rows && store.rows[t] == old(store.rows)[t]
    ensures ending.Aggregated? ==>
              EndsAs(c, old(store.rows), old(Msgs(bus.Queue(DEAD_LETTER_QUEUE))), store.rows,
                     Msgs(bus.Queue(DEAD_LETTER_QUEUE)), steps)
    ensures ending.Aggregated? ==>
              (ending.completed <==> forall t | t in c.deps :: t in store.rows && store.rows[t].status == COMPLETED)
    ensures ending.Aggregated? && ending.finished ==>
              && (forall t | t in c.deps :: t in store.rows && store.rows[t] == RunTheorems.FinalRow(c, t))
              && (ending.completed <==> forall t | t in c.deps :: Succeeds(c, t))
    ensures ending.Aggregated? && !ending.finished ==>
              forall order | Lists(order, c.deps.Keys) ::
                rounds <= Progress.TotalBudget(c, order) * 20 + 4 * Progress.Bounces(steps) + idle
    ensures ending.Aggregated? && Acyclic(c.deps) && old(Leisurely(breaker, backoff, clock, gap))
            && (exists order :: Lists(order, c.deps.Keys) && rounds > Progress.TotalBudget(c, order) * 20) ==>
              ending.finished
  {
    hide Run, Init, Closed, Lists, Progress.TotalBudget, Progress.Bounces, EdgesAgree, HasLongChain, ForeignKeys,
         RunTheorems.FinalRow, DepsOf, Creatable, Orchestrator.At, Orchestrator.Valid, Members, AllDue, AllCool,
         Acyclic, Msgs, Untimed, Spaced, EndsAs, AggregateCompleted, Complete, Apart, Dependents, Shallow, Judged,
         Forest;
    var launching;
    ghost var s0, s;
    launching, s0 := Launch(nodes, c, maxDepth, queue, store, bus);
    match launching {
      case IdTaken =>
        return NotCreated, 0, [];
      case TooDeep =>
        return NotShallow, 0, [];
      case Underway(o) =>
        var pool := BuildPool(names, o, breaker, typeOf, backoff);
        PoolIdle(c, s0, names, pool);
        SpacedFrom(clock, gap);
        UntimedDue(bus.Queue(queue), clock(0));
        var finished;
        finished, idle, steps, s := PumpAll(pool, o, breaker, pick, clock, rounds, backoff, gap, s0);
        o.Known(s);
        Ended(c, o.foreign, o.deadBefore, s0, steps, s);
        var completed := Aggregate(c.deps.Keys, store);
        OwnStatus(c, o.foreign, s);
        if finished {
          ReachedComplete(c, s0, steps, s);
        } else {
          forall order | Lists(order, c.deps.Keys)
            ensures rounds <= Progress.TotalBudget(c, order) * 20 + 4 * Progress.Bounces(steps) + idle
          {
            Progress.RunsAreBounded(c, s0, steps, s, order);
          }
        }
        ending := Aggregated(finished, completed);
    }
  }

  lemma PoolIdle(c: Config, s: State, names: seq<WorkerId>, pool: seq<Workers.Worker>)
    requires Init(c, s) && c.workers == Members(names) && |pool| == |names|
    requires forall i | 0 <= i < |names| :: pool[i].name == names[i]
    ensures pool != [] && AllIdle(pool, s)
  {
    assert names != [];
    forall w | w in pool
      ensures w.name in c.workers
    {
      var i :| 0 <= i < |pool| && pool[i] == w;
      assert names[i] in names;
    }
  }

  lemma ReachedComplete(c: Config, s0: State, steps: seq<Step>, s: State)
    requires Init(c, s0) && Run(c, s0, steps, s) && Complete(s)
    ensures c.Valid() && s.rows.Keys == c.deps.Keys
    ensures forall t | t in c.deps :: s.rows[t] == RunTheorems.FinalRow(c, t)
    ensures AggregateCompleted(s.rows) <==> forall t | t in c.deps :: Succeeds(c, t)
  {
    hide Init, Run, RunTheorems.FinalRow, AggregateCompleted;
    RunTheorems.CompleteRunVerdict(c, s);
  }
}
