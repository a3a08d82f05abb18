/**
 One workflow run as a transition system. Any number of workers take messages
 off the bus, claim, execute and settle them; the orchestrator's hooks advance
 the in-memory graph. Every SQL statement, bus call and locked hook is one step,
 and steps of different workers interleave freely.
 */
module Protocol {
  import opened Contract
  import opened Graphs
  import opened Keys
  import opened Rows

  datatype Msg = Msg(id: TaskId, attempt: nat, key: string)

  /** Where a worker stands inside Worker._process. */
  datatype Pc =
    | Taken               // message popped off the bus
    | NotCompleted        // past the is_completed guard
    | KeyClear            // past the idempotency-key guard
    | Admitted            // past the circuit breaker
    | Claimed             // won the compare-and-set on execution_state
    | Started             // tasks row written RUNNING
    | Keyed               // idempotency key stored
    | Ran(o: Outcome)     // handler and verifier returned
    | HalfCompleted       // execution_state written COMPLETED
    | DoneHook            // tasks row written COMPLETED, message acked
    | HalfRetried         // execution_state written RETRYING
    | Retried             // retry recorded, message not yet requeued
    | DeadPublished       // dead-letter copy published
    | HalfFailed          // execution_state written FAILED
    | FailHook            // tasks row written FAILED, message acked

  datatype Worker = Idle | Holding(m: Msg, pc: Pc)

  /** What is fixed for a run; the oracle says how each execution would end. */
  datatype Config = Config(
    workflow: string,
    deps: Edges,
    maxAttempts: map<TaskId, int>,
    policyMax: int,
    oracle: (TaskId, nat) -> Outcome,
    workers: set<WorkerId>)
  {
    ghost predicate Valid() {
      && Closed(deps)
      && maxAttempts.Keys == deps.Keys
      && workers != {}
    }

    function Cap(t: TaskId): int
      requires t in maxAttempts
    {
      EffectiveCap(maxAttempts[t], policyMax)
    }

    function Budget(t: TaskId): (r: nat)
      requires t in maxAttempts
    {
      AttemptBudget(Cap(t))
    }
  }

  datatype State = State(
    rows: Table,
    keys: map<string, TaskId>,
    queue: seq<Msg>,
    dead: seq<Msg>,
    workers: map<WorkerId, Worker>,
    dag: map<TaskId, DagStatus>,
    dispatched: set<TaskId>,
    runs: map<TaskId, nat>)     // handler executions so far

  /** A worker's statements on the task it holds. */
  datatype Action =
    | PassCompleted
    | PassKey
    | PassBreaker
    | WinClaim
    | WriteRunning
    | StoreKey
    | Execute
    | WriteStateCompleted
    | WriteCompletedAndAck
    | WriteStateRetrying
    | WriteRetried
    | PublishDeadLetter
    | WriteStateFailed
    | WriteFailedAndAck

  /** Why a worker puts a message back on the bus, or lets go of it for good. */
  datatype Return = TooEarly | BreakerOpen | Retry
  datatype Drop = AlreadyCompleted | DuplicateKey | LostClaim

  datatype Step =
    | Take(w: WorkerId, i: nat)
    | Act(w: WorkerId, action: Action)
    | Requeue(w: WorkerId, why: Return)
    | Discard(w: WorkerId, reason: Drop)
    | RunDoneHook(w: WorkerId, batch: seq<TaskId>)
    | RunFailHook(w: WorkerId)

  predicate Busy(s: State, w: WorkerId) {
    w in s.workers && s.workers[w].Holding?
  }

  predicate KeyTaken(keys: map<string, TaskId>, m: Msg) {
    m.key in keys && keys[m.key] != m.id
  }

  predicate RetriesLeft(c: Config, m: Msg) {
    m.id in c.maxAttempts && ShouldRetry(m.attempt, c.maxAttempts[m.id], c.policyMax)
  }

  /** The message the orchestrator publishes for a task row. */
  function FirstMessage(c: Config, rows: Table, t: TaskId): Msg
    requires t in rows
  {
    Msg(t, rows[t].attempt, Key(c.workflow, t, 1))
  }

  function Messages(c: Config, rows: Table, batch: seq<TaskId>): seq<Msg>
    requires forall t | t in batch :: t in rows
  {
    seq(|batch|, i requires 0 <= i < |batch| => assert batch[i] in batch; FirstMessage(c, rows, batch[i]))
  }

  /** The tasks the completion hook dispatches: ready now and not dispatched before. */
  function ToDispatch(c: Config, s: State, t: TaskId): set<TaskId> {
    ReadySet(c.deps, s.dag[t := Completed]) - s.dispatched
  }

  /** The tasks the failure hook cascades to. */
  ghost function Cascaded(c: Config, s: State, t: TaskId): set<TaskId> {
    set x | x in Descendants(Dependents(c.deps), t) && HasStatus(s.dag, x, Pending)
  }

  /** When a worker at pc with message m performs an action. */
  predicate CanAct(c: Config, s: State, m: Msg, pc: Pc, action: Action) {
    match action
    case PassCompleted => pc == Taken && !IsCompleted(s.rows, m.id)
    case PassKey => pc == NotCompleted && !KeyTaken(s.keys, m)
    case PassBreaker => pc == KeyClear
    case WinClaim => pc == Admitted && Claimable(s.rows, m.id)
    case WriteRunning => pc == Claimed
    case StoreKey => pc == Started
    case Execute => pc == Keyed
    case WriteStateCompleted => pc == Ran(Ok)
    case WriteCompletedAndAck => pc == HalfCompleted
    case WriteStateRetrying => pc == Ran(Retryable) && RetriesLeft(c, m)
    case WriteRetried => pc == HalfRetried
    case PublishDeadLetter => pc == Ran(Fatal) || (pc == Ran(Retryable) && !RetriesLeft(c, m))
    case WriteStateFailed => pc == DeadPublished
    case WriteFailedAndAck => pc == HalfFailed
  }

  /** Where the action leaves the worker. */
  function PcAfter(c: Config, m: Msg, action: Action): Pc {
    match action
    case PassCompleted => NotCompleted
    case PassKey => KeyClear
    case PassBreaker => Admitted
    case WinClaim => Claimed
    case WriteRunning => Started
    case StoreKey => Keyed
    case Execute => Ran(c.oracle(m.id, m.attempt))
    case WriteStateCompleted => HalfCompleted
    case WriteCompletedAndAck => DoneHook
    case WriteStateRetrying => HalfRetried
    case WriteRetried => Retried
    case PublishDeadLetter => DeadPublished
    case WriteStateFailed => HalfFailed
    case WriteFailedAndAck => FailHook
  }

  /** What the action writes on the row of the task held. */
  function RowAfter(m: Msg, action: Action, row: Row): Row {
    match action
    case WinClaim => row.(state := RUNNING)
    case WriteRunning => row.(status := RUNNING)
    case Execute => row.(attempt := m.attempt, state := RUNNING)
    case WriteStateCompleted => row.(state := COMPLETED)
    case WriteCompletedAndAck => row.(status := COMPLETED)
    case WriteStateRetrying => row.(state := RETRYING)
    case WriteRetried => row.(state := RETRYING, status := RETRYING, attempt := m.attempt + 1)
    case WriteStateFailed => row.(state := FAILED)
    case WriteFailedAndAck => row.(status := FAILED)
    case _ => row
  }

  function Acted(c: Config, s: State, w: WorkerId, action: Action): State
    requires Busy(s, w)
  {
    var m := s.workers[w].m;
    State(
      rows := if m.id in s.rows then s.rows[m.id := RowAfter(m, action, s.rows[m.id])] else s.rows,
      keys := if action == StoreKey && m.key !in s.keys then s.keys[m.key := m.id] else s.keys,
      queue := s.queue,
      dead := if action == PublishDeadLetter then s.dead + [m] else s.dead,
      workers := s.workers[w := Holding(m, PcAfter(c, m, action))],
      dag := s.dag,
      dispatched := s.dispatched,
      runs := if action == Execute && m.id in s.runs then s.runs[m.id := s.runs[m.id] + 1] else s.runs)
  }

  predicate CanRequeue(m: Msg, pc: Pc, why: Return) {
    match why
    case TooEarly => pc == Taken
    case BreakerOpen => pc == KeyClear
    case Retry => pc == Retried
  }

  function Requeued(c: Config, m: Msg, why: Return): Msg {
    if why == Retry then Msg(m.id, m.attempt + 1, Key(c.workflow, m.id, m.attempt + 1)) else m
  }

  predicate CanDiscard(s: State, m: Msg, pc: Pc, reason: Drop) {
    match reason
    case AlreadyCompleted => pc == Taken && IsCompleted(s.rows, m.id)
    case DuplicateKey => pc == NotCompleted && KeyTaken(s.keys, m)
    case LostClaim => pc == Admitted && !Claimable(s.rows, m.id)
  }

  ghost predicate Enabled(c: Config, s: State, step: Step) {
    match step
    case Take(w, i) => w in s.workers && s.workers[w].Idle? && i < |s.queue|
    case Act(w, action) => Busy(s, w) && CanAct(c, s, s.workers[w].m, s.workers[w].pc, action)
    case Requeue(w, why) => Busy(s, w) && CanRequeue(s.workers[w].m, s.workers[w].pc, why)
    case Discard(w, reason) => Busy(s, w) && CanDiscard(s, s.workers[w].m, s.workers[w].pc, reason)
    case RunDoneHook(w, batch) =>
      && Busy(s, w) && s.workers[w].pc == DoneHook
      && Lists(batch, ToDispatch(c, s, s.workers[w].m.id))
      && (forall t | t in batch :: t in s.rows)
    case RunFailHook(w) => Busy(s, w) && s.workers[w].pc == FailHook
  }

  function Taking(s: State, w: WorkerId, i: nat): State
    requires i < |s.queue|
  {
    s.(queue := s.queue[..i] + s.queue[i + 1..], workers := s.workers[w := Holding(s.queue[i], Taken)])
  }

  function Putting(s: State, w: WorkerId, m: Msg): State {
    s.(queue := s.queue + [m], workers := s.workers[w := Idle])
  }

  /** on_done: complete the task in the graph and publish what that makes ready. */
  function DoneHooked(c: Config, s: State, w: WorkerId, t: TaskId, batch: seq<TaskId>): State
    requires forall x | x in batch :: x in s.rows
  {
    s.(dag := s.dag[t := Completed],
       rows := SetState(s.rows, t, COMPLETED),
       dispatched := s.dispatched + ToDispatch(c, s, t),
       queue := s.queue + Messages(c, s.rows, batch),
       workers := s.workers[w := Idle])
  }

  /** on_fail: fail the task in the graph and cascade to its pending descendants. */
  ghost function FailHooked(c: Config, s: State, w: WorkerId, t: TaskId): State {
    s.(dag := map x | x in s.dag.Keys + {t} ::
                if x == t || x in Cascaded(c, s, t) then Failed else s.dag[x],
       rows := MarkFailedAll(SetState(s.rows, t, FAILED), Cascaded(c, s, t)),
       workers := s.workers[w := Idle])
  }

  ghost function Apply(c: Config, s: State, step: Step): State
    requires Enabled(c, s, step)
  {
    match step
    case Take(w, i) => Taking(s, w, i)
    case Act(w, action) => Acted(c, s, w, action)
    case Requeue(w, why) => Putting(s, w, Requeued(c, s.workers[w].m, why))
    case Discard(w, _) => s.(workers := s.workers[w := Idle])
    case RunDoneHook(w, batch) => DoneHooked(c, s, w, s.workers[w].m.id, batch)
    case RunFailHook(w) => FailHooked(c, s, w, s.workers[w].m.id)
  }

  /** The state once every root has been published and no worker has acted yet. */
  ghost predicate Init(c: Config, s: State) {
    && c.Valid()
    && s.rows == (map t | t in c.deps :: FRESH_ROW)
    && ForeignKeys(c, s.keys)
    && s.dead == []
    && s.workers == (map w | w in c.workers :: Idle)
    && s.dag == (map t | t in c.deps :: Pending)
    && s.dispatched == Roots(c.deps)
    && (exists batch :: Lists(batch, s.dispatched) && s.queue == Messages(c, s.rows, batch))
    && s.runs == (map t | t in c.deps :: 0)
  }

  /** Keys already in the table belong to workflows whose keys cannot be this one's. */
  ghost predicate ForeignKeys(c: Config, keys: map<string, TaskId>) {
    forall k | k in keys :: exists w, t, a :: k == Key(w, t, a) && w != c.workflow && !Overlap(c.workflow, w)
  }

  /** s' is what s becomes after the listed steps, each enabled in its turn. */
  ghost predicate Run(c: Config, s: State, steps: seq<Step>, s': State)
    decreases |steps|
  {
    if steps == [] then s' == s
    else Enabled(c, s, steps[0]) && Run(c, Apply(c, s, steps[0]), steps[1..], s')
  }

  ghost predicate Reachable(c: Config, s: State) {
    exists s0, steps :: Init(c, s0) && Run(c, s0, steps, s)
  }

  lemma {:induction false} RunSnoc(c: Config, s0: State, steps: seq<Step>, s: State, step: Step)
    requires Run(c, s0, steps, s) && Enabled(c, s, step)
    ensures Run(c, s0, steps + [step], Apply(c, s, step))
    decreases |steps|
  {
    hide Enabled, Apply;
    if steps == [] {
      assert [step][1..] == [];
    } else {
      RunSnoc(c, Apply(c, s0, steps[0]), steps[1..], s, step);
      assert (steps + [step])[1..] == steps[1..] + [step];
    }
  }

  lemma ReachStep(c: Config, s: State, step: Step)
    requires Reachable(c, s) && Enabled(c, s, step)
    ensures Reachable(c, Apply(c, s, step))
  {
    hide Enabled, Apply, Init, Run;
    var s0, steps :| Init(c, s0) && Run(c, s0, steps, s);
    RunSnoc(c, s0, steps, s, step);
  }

  /** run_workflow's exit test: no task is pending in the graph. */
  predicate Complete(s: State) {
    forall t | t in s.dag :: s.dag[t] != Pending
  }

  /** The status AsyncOrchestrator.aggregate writes on the workflow. */
  predicate AggregateCompleted(rows: Table) {
    forall t | t in rows :: rows[t].status == COMPLETED
  }

  // ---- the verdict, read off the oracle alone ----

  /** How the executions of a task end when they start at the given attempt. */
  function Fate(oracle: (TaskId, nat) -> Outcome, t: TaskId, attempt: nat, cap: int): bool
    decreases cap - attempt
  {
    match oracle(t, attempt)
    case Ok => true
    case Fatal => false
    case Retryable => attempt < cap && Fate(oracle, t, attempt + 1, cap)
  }

  /** The attempt at which those executions end. */
  function LastAttempt(oracle: (TaskId, nat) -> Outcome, t: TaskId, attempt: nat, cap: int): (r: nat)
    ensures attempt <= r
    ensures r > attempt ==> r <= cap
    decreases cap - attempt
  {
    if oracle(t, attempt) == Retryable && attempt < cap then LastAttempt(oracle, t, attempt + 1, cap) else attempt
  }

  predicate Succeeds(c: Config, t: TaskId)
    requires t in c.maxAttempts
  {
    Fate(c.oracle, t, 1, c.Cap(t))
  }

  /** Handler executions a dispatched task goes through. */
  function Executions(c: Config, t: TaskId): (r: nat)
    requires t in c.maxAttempts
    ensures 1 <= r <= c.Budget(t)
  {
    LastAttempt(c.oracle, t, 1, c.Cap(t))
  }

  /** The task and everything it depends on, directly or not, would succeed. */
  ghost predicate Good(c: Config, t: TaskId)
    requires c.Valid()
  {
    forall a | a in c.deps && Reach(c.deps, t, a) :: Succeeds(c, a)
  }
}
