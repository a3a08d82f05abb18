/**
 Worker: receive, guard, claim, execute, settle, and call the orchestrator's
 hooks. Each method is a run of the protocol in which only this worker moves.
 */
module Workers {
  import opened Contract
  import opened Graphs
  import opened Keys
  import opened Rows
  import opened Protocol
  import opened Store
  import opened Bus
  import opened Engine
  import opened Breaker
  import Dag
  import Progress

  /** How a delivery ended. */
  datatype End = Early | Refused | Ignored | Finished | ToRetry | DeadLettered

  /** A run in which only worker w moves, and puts no unclaimed message back. */
  ghost predicate RunBy(c: Config, w: WorkerId, s: State, steps: seq<Step>, s': State) {
    Run(c, s, steps, s') && forall step | step in steps :: step.w == w && !Progress.IsBounce(step)
  }

  /** The last of these steps puts an unclaimed message back, and none before it does. */
  predicate EndsInBounce(steps: seq<Step>) {
    steps != [] && Progress.IsBounce(steps[|steps| - 1])
    && forall step | step in steps[..|steps| - 1] :: !Progress.IsBounce(step)
  }

  /** A run in which only worker w moves, ending with an unclaimed message put back. */
  ghost predicate RunPut(c: Config, w: WorkerId, s: State, steps: seq<Step>, s': State) {
    Run(c, s, steps, s') && (forall step | step in steps :: step.w == w) && EndsInBounce(steps)
  }

  lemma {:induction false} RunConcat(c: Config, s0: State, steps: seq<Step>, s: State, more: seq<Step>, s': State)
    requires Run(c, s0, steps, s) && Run(c, s, more, s')
    ensures Run(c, s0, steps + more, s')
    decreases |more|
  {
    hide Enabled, Apply;
    if more == [] {
      assert steps + more == steps;
    } else {
      RunSnoc(c, s0, steps, s, more[0]);
      RunConcat(c, s0, steps + [more[0]], Apply(c, s, more[0]), more[1..], s');
      assert steps + [more[0]] + more[1..] == steps + more;
    }
  }

  /** One more step of the same worker. */
  lemma Did(c: Config, s0: State, steps: seq<Step>, s: State, step: Step) returns (steps': seq<Step>, s': State)
    requires RunBy(c, step.w, s0, steps, s) && Enabled(c, s, step)
    ensures steps' == steps + [step] && s' == Apply(c, s, step)
    ensures if Progress.IsBounce(step) then RunPut(c, step.w, s0, steps', s') else RunBy(c, step.w, s0, steps', s')
  {
    hide Enabled, Apply, Progress.IsBounce;
    steps', s' := steps + [step], Apply(c, s, step);
    assert steps'[..|steps'| - 1] == steps;
    RunSnoc(c, s0, steps, s, step);
  }

  lemma Then(c: Config, w: WorkerId, s0: State, steps: seq<Step>, s: State, more: seq<Step>, s': State)
    requires RunBy(c, w, s0, steps, s) && RunBy(c, w, s, more, s')
    ensures RunBy(c, w, s0, steps + more, s')
  {
    hide Progress.IsBounce;
    RunConcat(c, s0, steps, s, more, s');
  }

  lemma StillEndsInBounce(steps: seq<Step>, more: seq<Step>)
    requires (forall step | step in steps :: !Progress.IsBounce(step)) && EndsInBounce(more)
    ensures EndsInBounce(steps + more)
  {
    hide Progress.IsBounce;
    var all := steps + more;
    assert all[|all| - 1] == more[|more| - 1];
    assert all[..|all| - 1] == steps + more[..|more| - 1];
  }

  lemma ThenPut(c: Config, w: WorkerId, s0: State, steps: seq<Step>, s: State, more: seq<Step>, s': State)
    requires RunBy(c, w, s0, steps, s) && RunPut(c, w, s, more, s')
    ensures RunPut(c, w, s0, steps + more, s')
  {
    StillEndsInBounce(steps, more);
    hide Progress.IsBounce, EndsInBounce, Run;
    RunConcat(c, s0, steps, s, more, s');
  }

  lemma NoSteps(c: Config, w: WorkerId, s: State)
    ensures RunBy(c, w, s, [], s)
  {}

  lemma OneStep(c: Config, s: State, step: Step)
    requires Enabled(c, s, step)
    ensures if Progress.IsBounce(step) then RunPut(c, step.w, s, [step], Apply(c, s, step))
            else RunBy(c, step.w, s, [step], Apply(c, s, step))
  {
    hide Enabled, Apply, RunBy, RunPut;
    NoSteps(c, step.w, s);
    var steps, s' := Did(c, s, [], s, step);
    assert steps == [step];
  }

  ghost predicate Holds(s: State, w: WorkerId, m: Msg, pc: Pc) {
    Busy(s, w) && s.workers[w].m == m && s.workers[w].pc == pc
  }

  // ---- where each of the worker's methods leads ----

  function LetGo(s: State, w: WorkerId): State {
    s.(workers := s.workers[w := Idle])
  }

  function PutBackBy(s: State, w: WorkerId, m: Msg): State {
    s.(queue := s.queue + [m], workers := s.workers[w := Idle])
  }

  function AdmittedBy(s: State, w: WorkerId, m: Msg): State {
    s.(workers := s.workers[w := Holding(m, Admitted)])
  }

  function ClaimedBy(s: State, w: WorkerId, m: Msg): State {
    s.(rows := Rows.MarkStarted(s.rows, m.id),
       keys := if m.key in s.keys then s.keys else s.keys[m.key := m.id],
       workers := s.workers[w := Holding(m, Keyed)])
  }

  function ExecutedBy(c: Config, s: State, w: WorkerId, m: Msg): State
    requires m.id in s.runs
  {
    s.(rows := SetState(SetAttempt(s.rows, m.id, m.attempt), m.id, RUNNING),
       runs := s.runs[m.id := s.runs[m.id] + 1],
       workers := s.workers[w := Holding(m, Ran(c.oracle(m.id, m.attempt)))])
  }

  function CompletedBy(s: State, w: WorkerId, m: Msg): State {
    s.(rows := Rows.MarkCompleted(s.rows, m.id), workers := s.workers[w := Holding(m, DoneHook)])
  }

  /** A copy with the next attempt, and that attempt's key, is on the queue. */
  function RetriedBy(c: Config, s: State, w: WorkerId, m: Msg): State {
    s.(rows := Rows.MarkRetried(SetState(s.rows, m.id, RETRYING), m.id, m.attempt + 1),
       queue := s.queue + [Msg(m.id, m.attempt + 1, Key(c.workflow, m.id, m.attempt + 1))],
       workers := s.workers[w := Idle])
  }

  function FailedBy(s: State, w: WorkerId, m: Msg): State {
    s.(rows := Rows.MarkFailed(s.rows, m.id), dead := s.dead + [m], workers := s.workers[w := Holding(m, FailHook)])
  }

  // ---- the statements of each method, as protocol steps ----

  /** A settling action changes the row, the worker's position and, once, the dead-letter queue. */
  lemma ActEffect(c: Config, s: State, w: WorkerId, m: Msg, pc: Pc, action: Action)
    requires Holds(s, w, m, pc) && CanAct(c, s, m, pc, action) && m.id in s.rows
    requires action != StoreKey && action != Protocol.Action.Execute
    ensures Enabled(c, s, Act(w, action))
    ensures Apply(c, s, Act(w, action)) ==
              s.(rows := s.rows[m.id := RowAfter(m, action, s.rows[m.id])],
                 dead := if action == PublishDeadLetter then s.dead + [m] else s.dead,
                 workers := s.workers[w := Holding(m, PcAfter(c, m, action))])
  {}

  lemma LostClaimSteps(c: Config, s: State, w: WorkerId, m: Msg) returns (steps: seq<Step>)
    requires Holds(s, w, m, Admitted) && !Claimable(s.rows, m.id)
    ensures RunBy(c, w, s, steps, LetGo(s, w))
  {
    OneStep(c, s, Discard(w, LostClaim));
    steps := [Discard(w, LostClaim)];
  }

  lemma StoreKeyEffect(c: Config, s: State, w: WorkerId, m: Msg)
    requires Holds(s, w, m, Started) && m.id in s.rows
    ensures Enabled(c, s, Act(w, StoreKey))
    ensures Apply(c, s, Act(w, StoreKey))
              == s.(keys := if m.key in s.keys then s.keys else s.keys[m.key := m.id],
                    workers := s.workers[w := Holding(m, Keyed)])
  {}

  lemma StartedRows(rows: Table, m: Msg)
    requires Claimable(rows, m.id)
    ensures var half := rows[m.id := RowAfter(m, WinClaim, rows[m.id])];
            half[m.id := RowAfter(m, WriteRunning, half[m.id])] == Rows.MarkStarted(rows, m.id)
  {}

  lemma StartSteps(c: Config, s: State, w: WorkerId, m: Msg) returns (steps: seq<Step>)
    requires Holds(s, w, m, Admitted) && Claimable(s.rows, m.id)
    ensures RunBy(c, w, s, steps,
                  s.(rows := Rows.MarkStarted(s.rows, m.id), workers := s.workers[w := Holding(m, Started)]))
  {
    StartedRows(s.rows, m);
    var first, second := Act(w, WinClaim), Act(w, WriteRunning);
    ActEffect(c, s, w, m, Admitted, WinClaim);
    hide RunBy, RunPut, Enabled, Apply, RowAfter, Claimable, Rows.MarkStarted;
    OneStep(c, s, first);
    var s1 := Apply(c, s, first);
    ActEffect(c, s1, w, m, Claimed, WriteRunning);
    hide CanAct;
    var s';
    steps, s' := Did(c, s, [first], s1, second);
    assert s'.workers == s.workers[w := Holding(m, Started)];
  }

  lemma WonClaimSteps(c: Config, s: State, w: WorkerId, m: Msg) returns (steps: seq<Step>)
    requires Holds(s, w, m, Admitted) && Claimable(s.rows, m.id)
    ensures RunBy(c, w, s, steps, ClaimedBy(s, w, m))
  {
    StartedKeys(s.rows, m.id);
    steps := StartSteps(c, s, w, m);
    hide RunBy, RunPut, Enabled, Apply, Claimable, Rows.MarkStarted;
    var s' := s.(rows := Rows.MarkStarted(s.rows, m.id), workers := s.workers[w := Holding(m, Started)]);
    StoreKeyEffect(c, s', w, m);
    steps, s' := Did(c, s, steps, s', Act(w, StoreKey));
    assert s'.workers == s.workers[w := Holding(m, Keyed)];
  }

  lemma ExecuteSteps(c: Config, s: State, w: WorkerId, m: Msg) returns (steps: seq<Step>)
    requires Holds(s, w, m, Keyed) && m.id in s.rows && m.id in s.runs
    ensures RunBy(c, w, s, steps, ExecutedBy(c, s, w, m))
  {
    hide RunBy, RunPut;
    var step := Act(w, Protocol.Action.Execute);
    OneStep(c, s, step);
    steps := [step];
    assert Apply(c, s, step) == ExecutedBy(c, s, w, m);
  }

  lemma CompletedRows(rows: Table, m: Msg)
    requires m.id in rows
    ensures var half := rows[m.id := RowAfter(m, WriteStateCompleted, rows[m.id])];
            half[m.id := RowAfter(m, WriteCompletedAndAck, half[m.id])] == Rows.MarkCompleted(rows, m.id)
  {}

  lemma CompleteSteps(c: Config, s: State, w: WorkerId, m: Msg) returns (steps: seq<Step>)
    requires Holds(s, w, m, Ran(Ok)) && m.id in s.rows
    ensures RunBy(c, w, s, steps, CompletedBy(s, w, m))
  {
    hide RunBy, RunPut, Enabled, Apply, RowAfter, Rows.MarkCompleted;
    CompletedRows(s.rows, m);
    var first, second := Act(w, WriteStateCompleted), Act(w, WriteCompletedAndAck);
    ActEffect(c, s, w, m, Ran(Ok), WriteStateCompleted);
    OneStep(c, s, first);
    ActEffect(c, Apply(c, s, first), w, m, HalfCompleted, WriteCompletedAndAck);
    var s';
    steps, s' := Did(c, s, [first], Apply(c, s, first), second);
    assert s'.workers == s.workers[w := Holding(m, DoneHook)];
  }

  lemma RequeueEffect(c: Config, s: State, w: WorkerId, m: Msg)
    requires Holds(s, w, m, Retried)
    ensures Enabled(c, s, Requeue(w, Return.Retry)) && !Progress.IsBounce(Requeue(w, Return.Retry))
    ensures Apply(c, s, Requeue(w, Return.Retry)) ==
              s.(queue := s.queue + [Msg(m.id, m.attempt + 1, Key(c.workflow, m.id, m.attempt + 1))],
                 workers := s.workers[w := Idle])
  {}

  lemma RetriedRows(rows: Table, m: Msg)
    requires m.id in rows
    ensures var half := rows[m.id := RowAfter(m, WriteStateRetrying, rows[m.id])];
            half[m.id := RowAfter(m, WriteRetried, half[m.id])]
              == Rows.MarkRetried(SetState(rows, m.id, RETRYING), m.id, m.attempt + 1)
  {}

  lemma RetrySteps(c: Config, s: State, w: WorkerId, m: Msg) returns (steps: seq<Step>)
    requires Holds(s, w, m, Ran(Retryable)) && m.id in s.rows && RetriesLeft(c, m)
    ensures RunBy(c, w, s, steps, RetriedBy(c, s, w, m))
  {
    hide RunBy, RunPut, Enabled, Apply, Key, Rows.MarkRetried, SetState, RowAfter, IsCompleted, KeyTaken, Claimable,
         RetriesLeft;
    RetriedRows(s.rows, m);
    var first, second, last := Act(w, WriteStateRetrying), Act(w, WriteRetried), Requeue(w, Return.Retry);
    ActEffect(c, s, w, m, Ran(Retryable), WriteStateRetrying);
    OneStep(c, s, first);
    var s1 := Apply(c, s, first);
    ActEffect(c, s1, w, m, HalfRetried, WriteRetried);
    var s2 := Apply(c, s1, second);
    RequeueEffect(c, s2, w, m);
    hide CanAct;
    var s';
    steps, s' := Did(c, s, [first], s1, second);
    steps, s' := Did(c, s, steps, s2, last);
    assert s'.workers == s.workers[w := Idle];
  }

  lemma FailedRows(rows: Table, m: Msg)
    requires m.id in rows
    ensures rows[m.id := RowAfter(m, PublishDeadLetter, rows[m.id])] == rows
    ensures var half := rows[m.id := RowAfter(m, WriteStateFailed, rows[m.id])];
            half[m.id := RowAfter(m, WriteFailedAndAck, half[m.id])] == Rows.MarkFailed(rows, m.id)
  {}

  lemma FailSteps(c: Config, s: State, w: WorkerId, m: Msg) returns (steps: seq<Step>)
    requires Holds(s, w, m, DeadPublished) && m.id in s.rows
    ensures RunBy(c, w, s, steps,
                  s.(rows := Rows.MarkFailed(s.rows, m.id), workers := s.workers[w := Holding(m, FailHook)]))
  {
    hide RunBy, RunPut, Enabled, Apply, Rows.MarkFailed, RowAfter;
    FailedRows(s.rows, m);
    var first, second := Act(w, WriteStateFailed), Act(w, WriteFailedAndAck);
    ActEffect(c, s, w, m, DeadPublished, WriteStateFailed);
    OneStep(c, s, first);
    ActEffect(c, Apply(c, s, first), w, m, HalfFailed, WriteFailedAndAck);
    var s';
    steps, s' := Did(c, s, [first], Apply(c, s, first), second);
    assert s'.workers == s.workers[w := Holding(m, FailHook)];
  }

  lemma DeadLetterSteps(c: Config, s: State, w: WorkerId, m: Msg, o: Outcome) returns (steps: seq<Step>)
    requires Holds(s, w, m, Ran(o)) && m.id in s.rows && (o == Fatal || (o == Retryable && !RetriesLeft(c, m)))
    ensures RunBy(c, w, s, steps, FailedBy(s, w, m))
  {
    FailedRows(s.rows, m);
    hide RunBy, RunPut, Enabled, Apply, RowAfter, RetriesLeft, Rows.MarkFailed;
    var first := Act(w, PublishDeadLetter);
    ActEffect(c, s, w, m, Ran(o), PublishDeadLetter);
    OneStep(c, s, first);
    var s1 := Apply(c, s, first);
    var more := FailSteps(c, s1, w, m);
    assert s1.workers[w := Holding(m, FailHook)] == s.workers[w := Holding(m, FailHook)];
    Then(c, w, s, [first], s1, more, FailedBy(s, w, m));
    steps := [first] + more;
  }

  lemma SameRow(rows: Table, t: TaskId)
    ensures t in rows ==> rows[t := rows[t]] == rows
  {}

  /** The guards passed one by one, as far as the breaker. */
  lemma GuardSteps(c: Config, s: State, w: WorkerId, m: Msg) returns (steps: seq<Step>)
    requires Holds(s, w, m, Taken) && !IsCompleted(s.rows, m.id) && !KeyTaken(s.keys, m)
    ensures RunBy(c, w, s, steps, s.(workers := s.workers[w := Holding(m, KeyClear)]))
  {
    hide RunBy, RunPut, IsCompleted, KeyTaken;
    SameRow(s.rows, m.id);
    var s' := Apply(c, s, Act(w, PassCompleted));
    OneStep(c, s, Act(w, PassCompleted));
    steps, s' := Did(c, s, [Act(w, PassCompleted)], s', Act(w, PassKey));
    assert s'.workers == s.workers[w := Holding(m, KeyClear)];
  }

  lemma AdmitSteps(c: Config, s: State, w: WorkerId, m: Msg) returns (steps: seq<Step>)
    requires Holds(s, w, m, Taken) && !IsCompleted(s.rows, m.id) && !KeyTaken(s.keys, m)
    ensures RunBy(c, w, s, steps, AdmittedBy(s, w, m))
  {
    hide RunBy, RunPut, IsCompleted, KeyTaken;
    SameRow(s.rows, m.id);
    steps := GuardSteps(c, s, w, m);
    var s' := s.(workers := s.workers[w := Holding(m, KeyClear)]);
    steps, s' := Did(c, s, steps, s', Act(w, PassBreaker));
    assert s'.workers == s.workers[w := Holding(m, Admitted)];
  }

  lemma ReturnSteps(c: Config, s: State, w: WorkerId, m: Msg, why: Return) returns (steps: seq<Step>)
    requires why != Return.Retry && Holds(s, w, m, Taken)
    requires why == BreakerOpen ==> !IsCompleted(s.rows, m.id) && !KeyTaken(s.keys, m)
    ensures RunPut(c, w, s, steps, PutBackBy(s, w, m))
  {
    hide RunBy, RunPut, IsCompleted, KeyTaken;
    if why == TooEarly {
      OneStep(c, s, Requeue(w, why));
      steps := [Requeue(w, why)];
    } else {
      steps := GuardSteps(c, s, w, m);
      var s' := s.(workers := s.workers[w := Holding(m, KeyClear)]);
      steps, s' := Did(c, s, steps, s', Requeue(w, why));
      assert s'.workers == s.workers[w := Idle];
    }
  }

  lemma IgnoreSteps(c: Config, s: State, w: WorkerId, m: Msg, reason: Drop) returns (steps: seq<Step>)
    requires Holds(s, w, m, Taken) && reason != LostClaim
    requires reason == AlreadyCompleted ==> IsCompleted(s.rows, m.id)
    requires reason == DuplicateKey ==> !IsCompleted(s.rows, m.id) && KeyTaken(s.keys, m)
    ensures RunBy(c, w, s, steps, LetGo(s, w))
  {
    hide RunBy, RunPut, IsCompleted, KeyTaken;
    SameRow(s.rows, m.id);
    if reason == AlreadyCompleted {
      OneStep(c, s, Discard(w, reason));
      steps := [Discard(w, reason)];
    } else {
      var s' := Apply(c, s, Act(w, PassCompleted));
      OneStep(c, s, Act(w, PassCompleted));
      steps, s' := Did(c, s, [Act(w, PassCompleted)], s', Discard(w, reason));
      assert s'.workers == s.workers[w := Idle];
    }
  }

  lemma HookDone(c: Config, s: State, w: WorkerId, batch: seq<TaskId>)
    requires Enabled(c, s, RunDoneHook(w, batch))
    ensures var s' := Apply(c, s, RunDoneHook(w, batch)); s'.workers == s.workers[w := Idle] && s'.runs == s.runs
  {}

  lemma HookFailed(c: Config, s: State, w: WorkerId)
    requires Enabled(c, s, RunFailHook(w))
    ensures var s' := Apply(c, s, RunFailHook(w)); s'.workers == s.workers[w := Idle] && s'.runs == s.runs
  {}

  predicate Executed(end: End) {
    end == Finished || end == ToRetry || end == DeadLettered
  }

  predicate PutsBack(end: End) {
    end == Early || end == Refused
  }

  /** How a delivery ends once its handler has run. */
  function EndFor(c: Config, m: Msg): End {
    match c.oracle(m.id, m.attempt)
    case Ok => Finished
    case Retryable => if RetriesLeft(c, m) then ToRetry else DeadLettered
    case Fatal => DeadLettered
  }

  /** The entry and the message it carries are due by then. */
  predicate EntryBy(e: Entry<Envelope>, at: real) {
    (e.retryAt.Some? ==> e.retryAt.value <= at) && (e.payload.retryAt.Some? ==> e.payload.retryAt.value <= at)
  }

  predicate EntriesBy(q: seq<Entry<Envelope>>, at: real) {
    forall e | e in q :: EntryBy(e, at)
  }

  /** What is on the queue now was there before, or is due by then. */
  predicate NewBy(was: seq<Entry<Envelope>>, now: seq<Entry<Envelope>>, at: real) {
    forall e | e in now :: e in was || EntryBy(e, at)
  }

  lemma UntimedIsNewBy(was: seq<Entry<Envelope>>, now: seq<Entry<Envelope>>, at: real)
    requires forall e | e in now :: e in was || Untimed(e)
    ensures NewBy(was, now, at)
  {}

  lemma NewByRest(was: seq<Entry<Envelope>>, i: nat, now: seq<Entry<Envelope>>, at: real)
    requires i < |was|
    ensures NewBy(was[..i] + was[i + 1..], now, at) ==> NewBy(was, now, at)
  {}

  /** No type was opened, but at this moment, that was not open before. */
  predicate OpenedOnlyNow(was: map<TaskType, real>, openedAt: map<TaskType, real>, now: real) {
    forall ty | ty in openedAt :: openedAt[ty] == now || (ty in was && was[ty] == openedAt[ty])
  }

  /** Everything on the queue is due. */
  predicate AllDue(q: seq<Entry<Envelope>>, at: real) {
    0.0 <= at && EntriesBy(q, at)
  }

  /** Every cooldown has passed. */
  predicate AllCool(openedAt: map<TaskType, real>, cooldown: real, at: real) {
    forall ty | ty in openedAt :: openedAt[ty] + cooldown <= at
  }

  /** The copy a retry puts on the bus. */
  function RetryEntry(c: Config, m: Msg, delay: real, now: real): Entry<Envelope> {
    Entry(Envelope(Msg(m.id, m.attempt + 1, Key(c.workflow, m.id, m.attempt + 1)), Some(now + delay)),
          Some(now + Positive(delay)))
  }

  /**
   A retried message can be delivered once its backoff has passed, a nanosecond short,
   and is then not put back as too early exactly when all of it has.
   */
  lemma RetriedIsHeldBack(c: Config, m: Msg, delay: real, at: real, now: real)
    requires delay >= 0.0
    ensures var e := RetryEntry(c, m, delay, at);
            && e.payload.msg.id == m.id && e.payload.msg.attempt == m.attempt + 1 && e.payload.retryAt.Some?
            && (IsDue(e, now) <==> now - at >= delay - 0.000000001)
            && (IsDue(e, now) && !(now < e.payload.retryAt.value) <==> now - at >= delay)
  {
    hide Key;
  }

  class Worker {
    const name: WorkerId
    const orchestrator: Orchestrator
    const breaker: CircuitBreaker
    const typeOf: TaskId -> TaskType
    const backoff: nat -> real
    var busy: bool
    var processed: nat
    var failed: nat

    constructor (name: WorkerId, orchestrator: Orchestrator, breaker: CircuitBreaker, typeOf: TaskId -> TaskType,
                 backoff: nat -> real)
      ensures this.name == name && this.orchestrator == orchestrator && this.breaker == breaker
      ensures this.typeOf == typeOf && this.backoff == backoff
      ensures !busy && processed == 0 && failed == 0
    {
      this.name, this.orchestrator, this.breaker, this.typeOf, this.backoff :=
        name, orchestrator, breaker, typeOf, backoff;
      busy, processed, failed := false, 0, 0;
    }

    /** No delay and no cooldown is longer. */
    ghost predicate GapOk(gap: real) {
      0.0 <= gap && breaker.cooldown <= gap && forall a: nat :: backoff(a) <= gap
    }

    ghost function Queued(): seq<Entry<Envelope>>
      reads orchestrator.bus
    {
      orchestrator.bus.Queue(orchestrator.queue)
    }

    /** Puts the message back on its queue, to be due after the delay. */
    method PutBack(raw: Envelope, delay: real, now: real, ghost why: Return, ghost s: State)
      returns (ghost steps: seq<Step>)
      requires orchestrator.At(s) && Holds(s, name, raw.msg, Taken) && why != Return.Retry
      requires why == BreakerOpen ==> !IsCompleted(s.rows, raw.msg.id) && !KeyTaken(s.keys, raw.msg)
      modifies orchestrator.bus`queues
      ensures orchestrator.At(PutBackBy(s, name, raw.msg))
      ensures RunPut(orchestrator.c, name, s, steps, PutBackBy(s, name, raw.msg))
      ensures Queued() == old(Queued()) + [Entry(raw, Some(now + Positive(delay)))]
    {
      hide RunBy, RunPut, Msgs, Dag.EdgesAgree, Dag.TaskDAG.Valid, Closed;
      var bus := orchestrator.bus;
      MsgsAppend(bus.Queue(orchestrator.queue), Entry(raw, Some(now + Positive(delay))));
      bus.Requeue(orchestrator.queue, raw, delay, now);
      steps := ReturnSteps(orchestrator.c, s, name, raw.msg, why);
    }

    /** What a worker holds, or has let go of, does not show in the store, the bus or the graph. */
    lemma Unseen(s: State, m: Msg)
      requires orchestrator.At(s)
      ensures orchestrator.At(LetGo(s, name)) && orchestrator.At(AdmittedBy(s, name, m))
    {}

    /** The idempotency guards: the task is completed, or the message's key is another task's. */
    method Duplicate(m: Msg, ghost s: State) returns (duplicate: bool, ghost steps: seq<Step>)
      requires orchestrator.At(s) && Holds(s, name, m, Taken) && m.id in orchestrator.c.deps
      ensures duplicate <==> IsCompleted(s.rows, m.id) || KeyTaken(s.keys, m)
      ensures duplicate ==> RunBy(orchestrator.c, name, s, steps, LetGo(s, name))
    {
      hide RunBy, RunPut, Orchestrator.At, IsCompleted, Orchestrator.Valid, Msgs, Apart, Closed, LetGo;
      var store := orchestrator.store;
      orchestrator.Known(s);
      ReadOwn(orchestrator.foreign, s.rows, m.id);
      steps := [];
      var completed := store.IsCompleted(m.id);
      if completed {
        steps := IgnoreSteps(orchestrator.c, s, name, m, AlreadyCompleted);
        return true, steps;
      }
      var owner := store.CheckIdempotencyKey(m.key);
      duplicate := owner.Some? && owner.value != m.id;
      if duplicate {
        steps := IgnoreSteps(orchestrator.c, s, name, m, DuplicateKey);
      }
    }

    /** What comes before the claim: the guards, each of which may let go of the message or put it back. */
    method Admit(raw: Envelope, now: real, ghost s: State)
      returns (end: Option<End>, ghost steps: seq<Step>, ghost s': State)
      requires orchestrator.At(s) && Holds(s, name, raw.msg, Taken) && raw.msg.id in orchestrator.c.deps
      modifies breaker, orchestrator.bus`queues
      ensures orchestrator.At(s')
      ensures if end.Some? && PutsBack(end.value) then RunPut(orchestrator.c, name, s, steps, s')
              else RunBy(orchestrator.c, name, s, steps, s')
      ensures s' == match end
                    case None => AdmittedBy(s, name, raw.msg)
                    case Some(Ignored) => LetGo(s, name)
                    case _ => PutBackBy(s, name, raw.msg)
      ensures end.Some? ==> end.value in {Early, Refused, Ignored}
      ensures end == Some(Early) <==> raw.retryAt.Some? && now < raw.retryAt.value
      ensures end != Some(Early) ==>
                (end == Some(Ignored) <==> IsCompleted(s.rows, raw.msg.id) || KeyTaken(s.keys, raw.msg))
      ensures end != Some(Early) && end != Some(Ignored) ==>
                (end == Some(Refused) <==> !Answer(old(breaker.Contents()), breaker.cooldown, typeOf(raw.msg.id), now))
      ensures end == None || end == Some(Refused) ==>
                breaker.Contents() == AfterAllow(old(breaker.Contents()), breaker.cooldown, typeOf(raw.msg.id), now)
      ensures end == Some(Early) || end == Some(Ignored) ==> breaker.Contents() == old(breaker.Contents())
      ensures breaker.openedAt == old(breaker.openedAt)
      ensures end.None? || end == Some(Ignored) ==> Queued() == old(Queued())
      ensures end == Some(Early) ==> Queued() == old(Queued()) + [Entry(raw, Some(raw.retryAt.value))]
      ensures end == Some(Refused) ==> Queued() == old(Queued()) + [Entry(raw, Some(now + Positive(backoff(1))))]
    {
      hide RunBy, RunPut, Enabled, Apply, Orchestrator.At, IsCompleted, AfterAllow, Answer, Queued, Orchestrator.Valid,
           Msgs, Entries, Apart, Closed, LetGo, AdmittedBy, PutBackBy, KeyTaken, Holds, CircuitBreaker.Contents,
           Breaker.After, InMemoryBus.Queue;
      var m := raw.msg;
      Unseen(s, m);
      AllowIs(breaker.Contents(), breaker.threshold, breaker.cooldown, typeOf(m.id), now);
      if raw.retryAt.Some? && now < raw.retryAt.value {
        steps := PutBack(raw, raw.retryAt.value - now, now, TooEarly, s);
        return Some(Early), steps, PutBackBy(s, name, m);
      }
      var duplicate;
      duplicate, steps := Duplicate(m, s);
      if duplicate {
        return Some(Ignored), steps, LetGo(s, name);
      }
      var admitted := breaker.Allow(typeOf(m.id), now);
      if !admitted {
        steps := PutBack(raw, backoff(1), now, BreakerOpen, s);
        return Some(Refused), steps, PutBackBy(s, name, m);
      }
      steps := AdmitSteps(orchestrator.c, s, name, m);
      return None, steps, AdmittedBy(s, name, m);
    }

    /** Claims the task and stores the message's idempotency key; false when another worker owns it. */
    method Claim(m: Msg, ghost s: State) returns (won: bool, ghost steps: seq<Step>, ghost s': State)
      requires orchestrator.At(s) && Holds(s, name, m, Admitted) && m.id in orchestrator.c.deps
      modifies orchestrator.store`rows, orchestrator.store`keys
      ensures orchestrator.At(s') && RunBy(orchestrator.c, name, s, steps, s')
      ensures won == Claimable(s.rows, m.id)
      ensures s' == if won then ClaimedBy(s, name, m) else LetGo(s, name)
    {
      hide RunBy, RunPut, Msgs, Dag.EdgesAgree, Dag.TaskDAG.Valid, Closed, Rows.MarkStarted, Apart, Claimable;
      var store := orchestrator.store;
      orchestrator.Known(s);
      ReadOwn(orchestrator.foreign, s.rows, m.id);
      StartOwn(orchestrator.foreign, s.rows, m.id);
      StartedKeys(s.rows, m.id);
      won := store.MarkStarted(m.id);
      if !won {
        steps := LostClaimSteps(orchestrator.c, s, name, m);
        return won, steps, LetGo(s, name);
      }
      steps := WonClaimSteps(orchestrator.c, s, name, m);
      s' := ClaimedBy(s, name, m);
      var stored := store.StoreIdempotencyKey(m.key, m.id);
    }

    /** Runs the handler and the verifier; what they come to is the oracle's. */
    method Execute(m: Msg, ghost s: State) returns (o: Outcome, ghost steps: seq<Step>)
      requires orchestrator.At(s) && Holds(s, name, m, Keyed) && m.id in orchestrator.c.deps && m.id in s.runs
      modifies orchestrator.store`rows
      ensures o == orchestrator.c.oracle(m.id, m.attempt)
      ensures orchestrator.At(ExecutedBy(orchestrator.c, s, name, m))
      ensures RunBy(orchestrator.c, name, s, steps, ExecutedBy(orchestrator.c, s, name, m))
    {
      hide RunBy, RunPut, Msgs, Dag.EdgesAgree, Dag.TaskDAG.Valid, Closed, SetState, SetAttempt, Apart, Orchestrator.At,
           Orchestrator.Valid, Entries;
      orchestrator.Known(s);
      ExecuteOwn(orchestrator.foreign, s.rows, m.id, m.attempt);
      orchestrator.store.SetAttempt(m.id, m.attempt);
      orchestrator.store.WriteState(m.id, RUNNING);
      o := orchestrator.c.oracle(m.id, m.attempt);
      orchestrator.Lands(ExecutedBy(orchestrator.c, s, name, m));
      steps := ExecuteSteps(orchestrator.c, s, name, m);
    }

    /** The two writes of a success, before the hook. */
    method RecordCompletion(m: Msg, ghost s: State) returns (ghost steps: seq<Step>)
      requires orchestrator.At(s) && Holds(s, name, m, Ran(Ok)) && m.id in orchestrator.c.deps
      modifies orchestrator.store`rows
      ensures orchestrator.At(CompletedBy(s, name, m))
      ensures RunBy(orchestrator.c, name, s, steps, CompletedBy(s, name, m))
    {
      hide RunBy, RunPut, Msgs, Dag.EdgesAgree, Dag.TaskDAG.Valid, Closed, SetState, SetStatus, Apart;
      orchestrator.Known(s);
      FinishOwn(orchestrator.foreign, s.rows, m.id, COMPLETED);
      orchestrator.store.MarkCompleted(m.id);
      steps := CompleteSteps(orchestrator.c, s, name, m);
    }

    /** _complete: record the success, acknowledge, and let the orchestrator advance the graph. */
    method Complete(m: Msg, ghost s: State) returns (ghost steps: seq<Step>, ghost batch: seq<TaskId>, ghost s': State)
      requires orchestrator.At(s) && Holds(s, name, m, Ran(Ok)) && m.id in orchestrator.c.deps
      modifies this`processed, breaker, orchestrator`dispatched, orchestrator.dag`status, orchestrator.store`rows,
               orchestrator.bus`queues
      ensures orchestrator.At(s') && RunBy(orchestrator.c, name, s, steps, s')
      ensures Enabled(orchestrator.c, CompletedBy(s, name, m), RunDoneHook(name, batch))
      ensures s' == Apply(orchestrator.c, CompletedBy(s, name, m), RunDoneHook(name, batch))
      ensures s'.workers == s.workers[name := Idle] && s'.runs == s.runs
      ensures processed == old(processed) + 1
      ensures breaker.Contents() == AfterSuccess(old(breaker.Contents()), typeOf(m.id))
      ensures forall e | e in Queued() :: e in old(Queued()) || Untimed(e)
    {
      hide RunBy, RunPut, Enabled, Apply, Orchestrator.At, AfterSuccess, Untimed;
      steps := RecordCompletion(m, s);
      breaker.RecordSuccess(typeOf(m.id));
      processed := processed + 1;
      batch := orchestrator.OnDone(m.id, CompletedBy(s, name, m), name);
      HookDone(orchestrator.c, CompletedBy(s, name, m), name, batch);
      steps, s' := Did(orchestrator.c, s, steps, CompletedBy(s, name, m), RunDoneHook(name, batch));
    }

    /** The retry branch: record it, put a copy with the next attempt and its key on the bus, acknowledge. */
    method Retry(m: Msg, now: real, ghost s: State) returns (ghost steps: seq<Step>)
      requires orchestrator.At(s) && Holds(s, name, m, Ran(Retryable)) && m.id in orchestrator.c.deps
      requires RetriesLeft(orchestrator.c, m)
      modifies orchestrator.store`rows, orchestrator.bus`queues
      ensures orchestrator.At(RetriedBy(orchestrator.c, s, name, m))
      ensures RunBy(orchestrator.c, name, s, steps, RetriedBy(orchestrator.c, s, name, m))
      ensures Queued() == old(Queued()) + [RetryEntry(orchestrator.c, m, backoff(m.attempt), now)]
    {
      hide RunBy, RunPut, Msgs, Dag.EdgesAgree, Dag.TaskDAG.Valid, Closed, SetState, SetStatus, Apart, Key, RetriesLeft,
           Rows.MarkRetried, Orchestrator.At, Orchestrator.Valid;
      var c, bus := orchestrator.c, orchestrator.bus;
      var next := m.attempt + 1;
      var delay := backoff(m.attempt);
      orchestrator.Known(s);
      RetryOwn(orchestrator.foreign, s.rows, m.id, next);
      orchestrator.store.WriteState(m.id, RETRYING);
      orchestrator.store.MarkRetried(m.id, next);
      MsgsAppend(bus.Queue(orchestrator.queue), RetryEntry(c, m, delay, now));
      var copy := Envelope(Msg(m.id, next, Key(c.workflow, m.id, next)), Some(now + delay));
      bus.Requeue(orchestrator.queue, copy, delay, now);
      orchestrator.Lands(RetriedBy(c, s, name, m));
      steps := RetrySteps(c, s, name, m);
    }

    /** _deadletter_and_ack: dead-letter copy, failure recorded, and counted once more. */
    method DeadLetterAndAck(m: Msg, ghost o: Outcome, ghost s: State) returns (ghost steps: seq<Step>)
      requires orchestrator.At(s) && Holds(s, name, m, Ran(o)) && m.id in orchestrator.c.deps
      requires o == Fatal || (o == Retryable && !RetriesLeft(orchestrator.c, m))
      modifies this`failed, orchestrator.store`rows, orchestrator.bus`queues
      ensures orchestrator.At(FailedBy(s, name, m))
      ensures RunBy(orchestrator.c, name, s, steps, FailedBy(s, name, m))
      ensures failed == old(failed) + 1
      ensures Queued() == old(Queued())
    {
      hide RunBy, RunPut, Msgs, Dag.EdgesAgree, Dag.TaskDAG.Valid, Closed, SetState, SetStatus, Apart, RetriesLeft,
           Orchestrator.At, Orchestrator.Valid;
      var bus := orchestrator.bus;
      orchestrator.Known(s);
      FinishOwn(orchestrator.foreign, s.rows, m.id, FAILED);
      MsgsAppend(bus.Queue(DEAD_LETTER_QUEUE), Entry(Envelope(m, None), None));
      bus.PublishDeadLetter(Envelope(m, None));
      orchestrator.store.MarkFailed(m.id);
      failed := failed + 1;
      assert orchestrator.deadBefore + s.dead + [m] == orchestrator.deadBefore + (s.dead + [m]);
      orchestrator.Lands(FailedBy(s, name, m));
      steps := DeadLetterSteps(orchestrator.c, s, name, m, o);
    }

    /** Out of attempts or beyond repair: dead-letter, then let the orchestrator cascade. */
    method GiveUp(m: Msg, ghost o: Outcome, ghost s: State) returns (ghost steps: seq<Step>, ghost s': State)
      requires orchestrator.At(s) && Holds(s, name, m, Ran(o)) && m.id in orchestrator.c.deps
      requires o == Fatal || (o == Retryable && !RetriesLeft(orchestrator.c, m))
      modifies this`failed, orchestrator.dag`status, orchestrator.store`rows, orchestrator.bus`queues
      ensures orchestrator.At(s') && RunBy(orchestrator.c, name, s, steps, s')
      ensures Enabled(orchestrator.c, FailedBy(s, name, m), RunFailHook(name))
      ensures s' == Apply(orchestrator.c, FailedBy(s, name, m), RunFailHook(name))
      ensures s'.workers == s.workers[name := Idle] && s'.runs == s.runs
      ensures failed == old(failed) + 1
      ensures Queued() == old(Queued())
    {
      hide RunBy, RunPut, Enabled, Apply, Orchestrator.At, RetriesLeft, FailedBy, Queued, Orchestrator.Valid;
      FailedPositions(orchestrator.c, s, name, m);
      steps := DeadLetterAndAck(m, o, s);
      orchestrator.OnFail(m.id, FailedBy(s, name, m), name);
      HookFailed(orchestrator.c, FailedBy(s, name, m), name);
      steps, s' := Did(orchestrator.c, s, steps, FailedBy(s, name, m), RunFailHook(name));
    }

    lemma Capped(m: Msg, s: State)
      requires orchestrator.At(s) && m.id in orchestrator.c.deps
      ensures var c := orchestrator.c;
              m.id in c.maxAttempts && (ShouldRetry(m.attempt, c.maxAttempts[m.id], c.policyMax) <==> RetriesLeft(c, m))
      ensures var own, policy := orchestrator.c.maxAttempts[m.id], orchestrator.c.policyMax;
              RetriesLeft(orchestrator.c, m) <==> m.attempt < if own == 0 then policy else own
    {}

    /** _on_failure: requeue with backoff while attempts are left, else dead-letter and cascade. */
    method OnFailure(m: Msg, retryable: bool, now: real, ghost s: State)
      returns (end: End, ghost steps: seq<Step>, ghost s': State)
      requires orchestrator.At(s)
      requires Holds(s, name, m, Ran(if retryable then Retryable else Fatal)) && m.id in orchestrator.c.deps
      modifies this`failed, breaker, orchestrator.dag`status, orchestrator.store`rows, orchestrator.bus`queues
      ensures orchestrator.At(s') && RunBy(orchestrator.c, name, s, steps, s')
      ensures m.id in orchestrator.c.maxAttempts
      ensures var own, policy := orchestrator.c.maxAttempts[m.id], orchestrator.c.policyMax;
              end == if retryable && m.attempt < (if own == 0 then policy else own) then ToRetry else DeadLettered
      ensures end == if retryable && RetriesLeft(orchestrator.c, m) then ToRetry else DeadLettered
      ensures end == ToRetry ==> s' == RetriedBy(orchestrator.c, s, name, m)
      ensures end == DeadLettered ==>
                Enabled(orchestrator.c, FailedBy(s, name, m), RunFailHook(name))
                && s' == Apply(orchestrator.c, FailedBy(s, name, m), RunFailHook(name))
      ensures s'.workers == s.workers[name := Idle] && s'.runs == s.runs
      ensures failed == old(failed) + if end == ToRetry then 1 else 2
      ensures breaker.Contents() == AfterFailure(old(breaker.Contents()), breaker.threshold, typeOf(m.id), now)
      ensures Queued() == old(Queued()) +
                if end == ToRetry then [RetryEntry(orchestrator.c, m, backoff(m.attempt), now)] else []
    {
      hide RunBy, RunPut, Enabled, Apply, Orchestrator.At, AfterFailure, Key, RetriesLeft, RetriedBy, FailedBy, Queued,
           ShouldRetry, RetryEntry, Orchestrator.Valid;
      failed := failed + 1;
      breaker.RecordFailure(typeOf(m.id), now);
      var c := orchestrator.c;
      Capped(m, s);
      FailedPositions(c, s, name, m);
      if retryable && ShouldRetry(m.attempt, c.maxAttempts[m.id], c.policyMax) {
        steps := Retry(m, now, s);
        return ToRetry, steps, RetriedBy(c, s, name, m);
      }
      steps, s' := GiveUp(m, if retryable then Retryable else Fatal, s);
      end := DeadLettered;
    }

    /** The claimed part: execute, then settle by how it went. */
    method Settle(m: Msg, now: real, ghost gap: real, ghost s: State)
      returns (end: End, ghost steps: seq<Step>, ghost s': State)
      requires orchestrator.At(s) && Holds(s, name, m, Keyed) && m.id in orchestrator.c.deps && m.id in s.runs
      modifies this`processed, this`failed, breaker, orchestrator`dispatched, orchestrator.dag`status,
               orchestrator.store`rows, orchestrator.bus`queues
      ensures orchestrator.At(s') && RunBy(orchestrator.c, name, s, steps, s')
      ensures s'.workers == s.workers[name := Idle] && s'.runs == s.runs[m.id := s.runs[m.id] + 1]
      ensures end == EndFor(orchestrator.c, m) && Executed(end)
      ensures processed == old(processed) + if end == Finished then 1 else 0
      ensures failed == old(failed) + if end == ToRetry then 1 else if end == DeadLettered then 2 else 0
      ensures breaker.Contents() == Breaker.After(old(breaker.Contents()), breaker.threshold, breaker.cooldown,
                                                  if end == Finished then Breaker.Event.Succeeded(typeOf(m.id))
                                                  else Breaker.Event.Failed(typeOf(m.id), now))
      ensures OpenedOnlyNow(old(breaker.openedAt), breaker.openedAt, now)
      ensures GapOk(gap) ==> NewBy(old(Queued()), Queued(), now + gap)
      ensures end == Finished ==> forall e | e in Queued() :: e in old(Queued()) || Untimed(e)
      ensures end == ToRetry ==>
                Queued() == old(Queued()) + [RetryEntry(orchestrator.c, m, backoff(m.attempt), now)]
      ensures end == DeadLettered ==> Queued() == old(Queued())
    {
      hide RunBy, RunPut, Enabled, Apply, Orchestrator.At, RetriesLeft, AfterSuccess, AfterFailure, Untimed, ExecutedBy,
           RetriedBy, FailedBy, CompletedBy, Queued, NewBy, GapOk, RetryEntry;
      RanPositions(orchestrator.c, s, name, m);
      SettledOpens(breaker.Contents(), breaker.threshold, breaker.cooldown, typeOf(m.id), now);
      ghost var more, batch, t := [], [], ExecutedBy(orchestrator.c, s, name, m);
      var o;
      o, steps := Execute(m, s);
      if o == Ok {
        more, batch, s' := Complete(m, t);
        UntimedIsNewBy(old(Queued()), Queued(), now + gap);
        end := Finished;
      } else {
        end, more, s' := OnFailure(m, o == Retryable, now, t);
        RetryIsNewBy(old(Queued()), m, now, gap);
      }
      Then(orchestrator.c, name, s, steps, t, more, s');
      steps := steps + more;
    }

    lemma RetryIsNewBy(was: seq<Entry<Envelope>>, m: Msg, now: real, gap: real)
      ensures GapOk(gap) ==> NewBy(was, was + [RetryEntry(orchestrator.c, m, backoff(m.attempt), now)], now + gap)
      ensures NewBy(was, was + [], now + gap)
    {
      hide Key;
    }

    /**
     _process: one delivery from receipt to settlement. The counters record how it
     ended; everything else is what the protocol's steps make of it.
     */
    method Process(raw: Envelope, now: real, ghost gap: real, ghost s: State)
      returns (end: End, ghost steps: seq<Step>, ghost s': State)
      requires orchestrator.At(s)
      requires Holds(s, name, raw.msg, Taken) && raw.msg.id in orchestrator.c.deps && raw.msg.id in s.runs
      modifies this, breaker, orchestrator`dispatched, orchestrator.dag`status, orchestrator.store`rows,
               orchestrator.store`keys, orchestrator.bus`queues
      ensures orchestrator.At(s')
      ensures if PutsBack(end) then RunPut(orchestrator.c, name, s, steps, s')
              else RunBy(orchestrator.c, name, s, steps, s')
      ensures s'.workers == s.workers[name := Idle]
      ensures s'.runs == if Executed(end) then s.runs[raw.msg.id := s.runs[raw.msg.id] + 1] else s.runs
      ensures Executed(end) ==> end == EndFor(orchestrator.c, raw.msg) && !busy
      ensures !Executed(end) ==> busy == old(busy)
      ensures processed == old(processed) + if end == Finished then 1 else 0
      ensures failed == old(failed) + if end == ToRetry then 1 else if end == DeadLettered then 2 else 0
      ensures end == Early <==> raw.retryAt.Some? && now < raw.retryAt.value
      ensures IsCompleted(s.rows, raw.msg.id) || KeyTaken(s.keys, raw.msg) ==> end == Early || end == Ignored
      ensures !IsCompleted(s.rows, raw.msg.id) && !KeyTaken(s.keys, raw.msg) && end != Early ==>
                var admitted := Answer(old(breaker.Contents()), breaker.cooldown, typeOf(raw.msg.id), now);
                (end == Refused <==> !admitted) && (Executed(end) <==> admitted && Claimable(s.rows, raw.msg.id))
      ensures end == Early ==> Queued() == old(Queued()) + [Entry(raw, Some(raw.retryAt.value))]
      ensures end == Refused ==> Queued() == old(Queued()) + [Entry(raw, Some(now + Positive(backoff(1))))]
      ensures end == Ignored || end == DeadLettered ==> Queued() == old(Queued())
      ensures end == ToRetry ==>
                Queued() == old(Queued()) + [RetryEntry(orchestrator.c, raw.msg, backoff(raw.msg.attempt), now)]
      ensures end == Finished ==> forall e | e in Queued() :: e in old(Queued()) || Untimed(e)
      ensures OpenedOnlyNow(old(breaker.openedAt), breaker.openedAt, now)
      ensures GapOk(gap) && !PutsBack(end) ==> NewBy(old(Queued()), Queued(), now + gap)
    {
      hide RunBy, RunPut, Enabled, Apply, Orchestrator.At, Claimable, RetriesLeft, AfterAllow, Answer, IsCompleted,
           KeyTaken, EndFor, Breaker.After, NewBy, GapOk, Queued, AdmittedBy, LetGo, PutBackBy, ClaimedBy,
           OpenedOnlyNow, Holds, CircuitBreaker.Contents, InMemoryBus.Queue, Entries, Orchestrator.Valid, Untimed,
           RetryEntry;
      var early;
      early, steps, s' := Admit(raw, now, s);
      NewBySame(Queued(), now + gap);
      OpenedSame(breaker.openedAt, now);
      Positions(s, name, raw.msg);
      if early.Some? {
        return early.value, steps, s';
      }
      ghost var t, more := s', [];
      var won;
      won, more, s' := Claim(raw.msg, t);
      Then(orchestrator.c, name, s, steps, t, more, s');
      steps, t := steps + more, s';
      if !won {
        return Ignored, steps, s';
      }
      busy := true;
      end, more, s' := Settle(raw.msg, now, gap, t);
      Then(orchestrator.c, name, s, steps, t, more, s');
      steps := steps + more;
      busy := false;
    }

    /** Takes the first due message off the queue, if there is one. */
    method Receive(now: real, ghost s: State) returns (raw: Option<Envelope>, ghost at: nat)
      requires orchestrator.At(s)
      modifies orchestrator.bus
      ensures raw.None? ==>
                orchestrator.At(s) && Queued() == old(Queued()) && forall e | e in old(Queued()) :: !IsDue(e, now)
      ensures raw.Some? ==>
                && FirstDue(old(Queued()), now, at) && at < |s.queue|
                && raw.value == old(Queued())[at].payload && raw.value.msg == s.queue[at]
                && Queued() == old(Queued())[..at] + old(Queued())[at + 1..] && orchestrator.At(TakenBy(s, name, at))
    {
      hide Orchestrator.At, Orchestrator.Valid, Msgs, FirstDue, Closed, Apart, IsDue;
      orchestrator.Known(s);
      ghost var was := Queued();
      var d;
      d, at := orchestrator.bus.Get(orchestrator.queue, now);
      if d.None? {
        orchestrator.Lands(s);
        return None, at;
      }
      QueueTaken(was, now, at);
      orchestrator.Lands(TakenBy(s, name, at));
      raw := Some(d.value.message);
    }

    /** What a delivery that ended so leaves on the queue, the rest of which is given. */
    ghost predicate Leaves(end: End, raw: Envelope, rest: seq<Entry<Envelope>>, now: real)
      reads orchestrator.bus
    {
      match end
      case Early => raw.retryAt.Some? && now < raw.retryAt.value && Queued() == rest + [Entry(raw, raw.retryAt)]
      case Refused => Queued() == rest + [Entry(raw, Some(now + Positive(backoff(1))))]
      case ToRetry => Queued() == rest + [RetryEntry(orchestrator.c, raw.msg, backoff(raw.msg.attempt), now)]
      case Finished => forall e | e in Queued() :: e in rest || Untimed(e)
      case _ => Queued() == rest
    }

    /**
     pump_once: take the first due message, if there is one, and process it. Where
     everything is due and every cooldown has passed nothing is put back, and so it
     is again once the longest delay has passed.
     */
    method PumpOnce(now: real, ghost gap: real, ghost s: State)
      returns (end: Option<End>, ghost at: nat, ghost steps: seq<Step>, ghost s': State)
      requires orchestrator.At(s) && name in s.workers && s.workers[name].Idle?
      requires forall m | m in s.queue :: m.id in orchestrator.c.deps && m.id in s.runs
      modifies this, breaker, orchestrator`dispatched, orchestrator.dag`status, orchestrator.store`rows,
               orchestrator.store`keys, orchestrator.bus
      ensures orchestrator.At(s') && s'.workers == s.workers[name := Idle]
      ensures match end
              case None => s' == s && steps == [] && forall e | e in old(Queued()) :: !IsDue(e, now)
              case Some(e) =>
                steps != [] && if PutsBack(e) then RunPut(orchestrator.c, name, s, steps, s')
                               else RunBy(orchestrator.c, name, s, steps, s')
      ensures end.Some? ==>
                && FirstDue(old(Queued()), now, at)
                && Leaves(end.value, old(Queued())[at].payload, old(Queued())[..at] + old(Queued())[at + 1..], now)
                && (end.value == Refused ==>
                      !Answer(old(breaker.Contents()), breaker.cooldown, typeOf(old(Queued())[at].payload.msg.id), now))
      ensures old(AllDue(Queued(), now)) && s.queue != [] ==> end.Some? && end != Some(Early)
      ensures old(AllCool(breaker.openedAt, breaker.cooldown, now)) ==> end != Some(Refused)
      ensures GapOk(gap) && old(AllDue(Queued(), now)) && old(AllCool(breaker.openedAt, breaker.cooldown, now)) ==>
                AllDue(Queued(), now + gap) && AllCool(breaker.openedAt, breaker.cooldown, now + gap)
    {
      hide RunBy, RunPut, Enabled, Apply, Orchestrator.At, Orchestrator.Valid, Msgs, FirstDue, GapOk, NewBy, EntryBy,
           EntriesBy, OpenedOnlyNow, Answer, AllDue, AllCool, IsDue, Holds, RetryEntry, Untimed, IsCompleted, KeyTaken,
           Claimable, Queued, CircuitBreaker.Contents, InMemoryBus.Queue, Entries, TakenBy;
      ghost var was, opens := Queued(), breaker.openedAt;
      QueueLength(s);
      DueNow(was, now);
      CoolNow(breaker.Contents(), breaker.cooldown, now);
      Shows(breaker);
      var raw;
      raw, at := Receive(now, s);
      if raw.None? {
        NewBySame(was, now + gap);
        OpenedSame(opens, now);
        Later(was, was, opens, opens, now, gap);
        assert s.workers == s.workers[name := Idle];
        return None, at, [], s;
      }
      QueueTaken(was, now, at);
      ghost var t, more := TakenBy(s, name, at), [];
      TakeEffect(orchestrator.c, s, name, at);
      OneStep(orchestrator.c, s, Step.Take(name, at));
      var e;
      e, more, s' := Process(raw.value, now, gap, t);
      NewByRest(was, at, Queued(), now + gap);
      Later(was, Queued(), opens, breaker.openedAt, now, gap);
      steps := [Step.Take(name, at)] + more;
      if PutsBack(e) {
        ThenPut(orchestrator.c, name, s, [Step.Take(name, at)], t, more, s');
      } else {
        Then(orchestrator.c, name, s, [Step.Take(name, at)], t, more, s');
      }
      end := Some(e);
    }

    lemma QueueLength(s: State)
      requires orchestrator.At(s)
      ensures |Queued()| == |s.queue|
    {}

    /** Once the longest delay has passed, what was due is due, what is new is due, and every cooldown is over. */
    lemma Later(was: seq<Entry<Envelope>>, q: seq<Entry<Envelope>>, opens: map<TaskType, real>,
                opens': map<TaskType, real>, now: real, gap: real)
      requires OpenedOnlyNow(opens, opens', now)
      ensures GapOk(gap) && AllDue(was, now) && NewBy(was, q, now + gap) ==> AllDue(q, now + gap)
      ensures GapOk(gap) && AllCool(opens, breaker.cooldown, now) ==> AllCool(opens', breaker.cooldown, now + gap)
    {}
  }

  function TakenBy(s: State, w: WorkerId, i: nat): State
    requires i < |s.queue|
  {
    s.(queue := s.queue[..i] + s.queue[i + 1..], workers := s.workers[w := Holding(s.queue[i], Taken)])
  }

  lemma TakeEffect(c: Config, s: State, w: WorkerId, i: nat)
    requires w in s.workers && s.workers[w].Idle? && i < |s.queue|
    ensures Enabled(c, s, Take(w, i)) && !Progress.IsBounce(Take(w, i))
    ensures Apply(c, s, Take(w, i)) == TakenBy(s, w, i) && Holds(TakenBy(s, w, i), w, s.queue[i], Taken)
    ensures TakenBy(s, w, i).workers[w := Idle] == s.workers[w := Idle] && TakenBy(s, w, i).runs == s.runs
  {}

  lemma QueueTaken(q: seq<Entry<Envelope>>, now: real, at: nat)
    requires FirstDue(q, now, at)
    ensures at < |q| == |Msgs(q)| && Msgs(q)[at] == q[at].payload.msg && q[at] in q
    ensures Msgs(q[..at] + q[at + 1..]) == Msgs(q)[..at] + Msgs(q)[at + 1..]
    ensures forall e | e in q[..at] + q[at + 1..] :: e in q
  {
    MsgsRemove(q, at);
  }

  lemma DueNow(q: seq<Entry<Envelope>>, now: real)
    ensures |Msgs(q)| == |q| && (q != [] ==> q[0] in q)
    ensures AllDue(q, now) ==>
              forall e | e in q :: IsDue(e, now) && (e.payload.retryAt.Some? ==> e.payload.retryAt.value <= now)
  {}

  lemma Shows(breaker: CircuitBreaker)
    ensures breaker.Contents().openedAt == breaker.openedAt
  {}

  lemma CoolNow(f: Fields, cooldown: real, now: real)
    ensures AllCool(f.openedAt, cooldown, now) ==> forall ty :: Answer(f, cooldown, ty, now)
  {}

  /** Where a worker stands as the guards let its message through, or do not. */
  lemma Positions(s: State, w: WorkerId, m: Msg)
    requires Holds(s, w, m, Taken)
    ensures var admitted := AdmittedBy(s, w, m);
            && Holds(admitted, w, m, Admitted) && Holds(ClaimedBy(admitted, w, m), w, m, Keyed)
            && LetGo(admitted, w).workers == ClaimedBy(admitted, w, m).workers[w := Idle] == s.workers[w := Idle]
            && LetGo(admitted, w).runs == ClaimedBy(admitted, w, m).runs == s.runs
            && admitted.rows == s.rows
    ensures LetGo(s, w).workers == PutBackBy(s, w, m).workers == s.workers[w := Idle]
    ensures LetGo(s, w).runs == PutBackBy(s, w, m).runs == s.runs
  {}

  lemma RanPositions(c: Config, s: State, w: WorkerId, m: Msg)
    requires Holds(s, w, m, Keyed) && m.id in s.runs
    ensures var ran := ExecutedBy(c, s, w, m);
            && Holds(ran, w, m, Ran(c.oracle(m.id, m.attempt)))
            && ran.workers[w := Idle] == s.workers[w := Idle] && ran.runs == s.runs[m.id := s.runs[m.id] + 1]
  {}

  lemma FailedPositions(c: Config, s: State, w: WorkerId, m: Msg)
    requires w in s.workers
    ensures var failed, retried := FailedBy(s, w, m), RetriedBy(c, s, w, m);
            && Holds(failed, w, m, FailHook)
            && failed.workers[w := Idle] == retried.workers == s.workers[w := Idle]
            && failed.runs == retried.runs == s.runs
  {}

  lemma StartedKeys(rows: Table, t: TaskId)
    ensures Rows.MarkStarted(rows, t).Keys == rows.Keys
    ensures !Claimable(rows, t) ==> Rows.MarkStarted(rows, t) == rows
  {}

  lemma OpenedSame(opens: map<TaskType, real>, now: real)
    ensures OpenedOnlyNow(opens, opens, now)
  {}

  lemma NewBySame(q: seq<Entry<Envelope>>, at: real)
    ensures NewBy(q, q, at)
  {}

  lemma AllowIs(f: Fields, threshold: int, cooldown: real, ty: TaskType, now: real)
    ensures Breaker.After(f, threshold, cooldown, Breaker.Event.Allowed(ty, now)) == AfterAllow(f, cooldown, ty, now)
  {}

  lemma SettledOpens(f: Fields, threshold: int, cooldown: real, ty: TaskType, now: real)
    ensures OpenedOnlyNow(f.openedAt, Breaker.After(f, threshold, cooldown, Breaker.Event.Succeeded(ty)).openedAt, now)
    ensures OpenedOnlyNow(f.openedAt,
                          Breaker.After(f, threshold, cooldown, Breaker.Event.Failed(ty, now)).openedAt, now)
  {}
}
