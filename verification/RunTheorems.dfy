/**
 What every run of a workflow guarantees: a verdict that no schedule can change,
 no lost or duplicated message, and only published status transitions.
 */
module RunTheorems {
  import opened Contract
  import opened Graphs
  import opened Keys
  import opened Rows
  import opened Protocol
  import opened Invariant

  // ---- schedule independence ----

  /** The row a task must end with, read off the oracle and the graph alone. */
  ghost function FinalRow(c: Config, t: TaskId): Row
    requires c.Valid() && t in c.deps
  {
    if Good(c, t) then Row(COMPLETED, COMPLETED, Executions(c, t))
    else if forall d | d in c.deps[t] :: Good(c, d) then Row(FAILED, FAILED, Executions(c, t))
    else Row(FAILED, FAILED, 1)
  }

  /** A complete run has settled every task as the oracle demands. */
  lemma CompleteRunVerdict(c: Config, s: State)
    requires Reachable(c, s) && Complete(s)
    ensures c.Valid() && s.rows.Keys == c.deps.Keys && s.dag.Keys == c.deps.Keys
    ensures forall t | t in c.deps :: s.rows[t] == FinalRow(c, t)
    ensures forall t | t in c.deps :: s.dag[t] == if Good(c, t) then Completed else Failed
    ensures forall t | t in c.deps :: t in s.dispatched <==> forall d | d in c.deps[t] :: Good(c, d)
    ensures AggregateCompleted(s.rows) <==> forall t | t in c.deps :: Succeeds(c, t)
  {
    hide Reachable, Resting, Frontier, Good, FinalRow, Exclusive, Located, Copies, KeysOk;
    ReachableInv(c, s);
    forall t | t in c.deps
      ensures s.dag[t] == (if Good(c, t) then Completed else Failed)
      ensures t in s.dispatched <==> forall d | d in c.deps[t] :: Good(c, d)
      ensures s.rows[t] == FinalRow(c, t)
      ensures s.rows[t].status == COMPLETED <==> Good(c, t)
    {
      TaskVerdict(c, s, t);
    }
    AllGood(c);
  }

  lemma TaskVerdict(c: Config, s: State, t: TaskId)
    requires c.Valid() && Shape(c, s) && Complete(s) && t in c.deps
    requires forall x | x in c.deps :: Resting(c, s, x) && Frontier(c, s, x)
    ensures s.dag[t] == if Good(c, t) then Completed else Failed
    ensures t in s.dispatched <==> forall d | d in c.deps[t] :: Good(c, d)
    ensures s.rows[t] == FinalRow(c, t)
    ensures s.rows[t].status == COMPLETED <==> Good(c, t)
  {
    hide Good, CountId, Fate, LastAttempt;
    assert Resting(c, s, t) && Frontier(c, s, t);
    forall d | d in c.deps[t]
      ensures HasStatus(s.dag, d, Completed) <==> Good(c, d)
    {
      assert Resting(c, s, d);
    }
  }

  lemma AllGood(c: Config)
    requires c.Valid()
    ensures (forall t | t in c.deps :: Good(c, t)) <==> forall t | t in c.deps :: Succeeds(c, t)
  {
    forall t | t in c.deps
      ensures Good(c, t) ==> Succeeds(c, t)
    {
      ReachSelf(c.deps, t);
    }
  }

  /** Two runs of one plan agree however many workers they use and however they interleave. */
  lemma ScheduleIndependence(c1: Config, s1: State, c2: Config, s2: State)
    requires c2 == c1.(workers := c2.workers, workflow := c2.workflow)
    requires Reachable(c1, s1) && Complete(s1)
    requires Reachable(c2, s2) && Complete(s2)
    ensures s1.rows == s2.rows && s1.dag == s2.dag && s1.dispatched == s2.dispatched
    ensures AggregateCompleted(s1.rows) == AggregateCompleted(s2.rows)
  {
    hide Reachable, Good, FinalRow, AggregateCompleted, Complete;
    CompleteRunVerdict(c1, s1);
    CompleteRunVerdict(c2, s2);
    forall t | t in c1.deps
      ensures Good(c1, t) == Good(c2, t) && FinalRow(c1, t) == FinalRow(c2, t)
    {
      SameVerdict(c1, c2, t);
    }
    assert s1.rows == s2.rows;
    assert s1.dag == s2.dag;
    ReachableShape(c1, s1);
    ReachableShape(c2, s2);
    hide *;
    SameDispatched(c1, s1, c2, s2);
  }

  lemma SameDispatched(c1: Config, s1: State, c2: Config, s2: State)
    requires c1.Valid() && c2 == c1.(workers := c2.workers, workflow := c2.workflow)
    requires Reachable(c1, s1) && Complete(s1) && Reachable(c2, s2) && Complete(s2)
    ensures s1.dispatched == s2.dispatched
  {
    hide Reachable, Good, FinalRow, AggregateCompleted, Complete;
    CompleteRunVerdict(c1, s1);
    CompleteRunVerdict(c2, s2);
    ReachableShape(c1, s1);
    ReachableShape(c2, s2);
    forall t | t in c1.deps
      ensures Good(c1, t) == Good(c2, t)
    {
      SameVerdict(c1, c2, t);
    }
    assert forall t | t in c1.deps :: t in s1.dispatched <==> t in s2.dispatched;
  }

  lemma SameVerdict(c1: Config, c2: Config, t: TaskId)
    requires c1.Valid() && c2.Valid() && t in c1.deps
    requires c2 == c1.(workers := c2.workers, workflow := c2.workflow)
    ensures Good(c1, t) == Good(c2, t)
    ensures FinalRow(c1, t) == FinalRow(c2, t)
  {
    hide Reach, Fate, LastAttempt;
    assert forall x | x in c1.deps :: Succeeds(c1, x) == Succeeds(c2, x) && Executions(c1, x) == Executions(c2, x);
    assert forall x | x in c1.deps :: Good(c1, x) == Good(c2, x);
  }

  lemma ReachableShape(c: Config, s: State)
    requires Reachable(c, s)
    ensures c.Valid() && Shape(c, s)
  {
    hide Reachable;
    ReachableInv(c, s);
  }

  // ---- message conservation ----

  lemma {:induction false} CountDistinct(ms: seq<Msg>, t: TaskId)
    requires forall i, j | 0 <= i < j < |ms| :: ms[i].id != ms[j].id
    ensures CountId(ms, t) == if exists i :: 0 <= i < |ms| && ms[i].id == t then 1 else 0
  {
    if ms != [] {
      var n := |ms| - 1;
      CountDistinct(ms[..n], t);
      if ms[n].id != t && exists i :: 0 <= i < |ms| && ms[i].id == t {
        var i :| 0 <= i < |ms| && ms[i].id == t;
        assert ms[..n][i].id == t;
      }
    }
  }

  /** Past the acknowledgement only the hook is left to run. */
  predicate Acked(pc: Pc) {
    pc == DoneHook || pc == FailHook
  }

  function Holders(s: State, t: TaskId): set<WorkerId> {
    set w | w in s.workers && HeldBy(s, w, t) && !Acked(s.workers[w].pc)
  }

  /** Copies of a task's message on the bus or in a worker's hands. */
  function LiveCopies(s: State, t: TaskId): nat {
    CountId(s.queue, t) + |Holders(s, t)|
  }

  predicate Settled(s: State, t: TaskId) {
    t in s.rows && (s.rows[t].status == COMPLETED || s.rows[t].status == FAILED)
  }

  /** A worker is between publishing the dead-letter copy and recording the failure. */
  predicate DeadLettering(s: State, w: WorkerId, t: TaskId) {
    HeldBy(s, w, t) && (s.workers[w].pc == DeadPublished || s.workers[w].pc == HalfFailed)
  }

  /** Where the one copy of a dispatched task is, and what its row says meanwhile. */
  lemma HeldCopy(c: Config, s: State, w: WorkerId, t: TaskId)
    requires Inv(c, s) && t in c.deps && w in s.workers && HeldBy(s, w, t)
    ensures !InQueue(s, t) && t in s.dispatched && s.dag[t] == Pending
    ensures Holders(s, t) == if Acked(s.workers[w].pc) then {} else {w}
    ensures Settled(s, t) <==> Acked(s.workers[w].pc)
    ensures CountId(s.dead, t) == if DeadLettering(s, w, t) || s.rows[t].status == FAILED then 1 else 0
    ensures forall v | v in s.workers && v != w :: !HeldBy(s, v, t)
  {
    hide KeysOk, Located, Resting, Frontier, MsgOk, CountId;
    assert CopyOk(c, s, s.workers[w].m, s.workers[w].pc);
    assert forall v | v in s.workers && v != w :: !HeldBy(s, v, t);
  }

  lemma QueuedCopy(c: Config, s: State, t: TaskId)
    requires Inv(c, s) && t in c.deps && InQueue(s, t)
    ensures !InHand(s, t) && t in s.dispatched && s.dag[t] == Pending
    ensures !Settled(s, t) && CountId(s.dead, t) == 0
  {
    hide KeysOk, Located, Resting, Frontier, MsgOk, CountId;
    var i :| 0 <= i < |s.queue| && s.queue[i].id == t;
    assert CopyOk(c, s, s.queue[i], Taken);
  }

  /**
   Nothing is lost and nothing is duplicated: an unfinished dispatched task has
   exactly one live copy, any other task has none, and the dead-letter queue has
   one copy of each task that failed by its own execution and no other.
   */
  lemma MessageConservation(c: Config, s: State, t: TaskId)
    requires Reachable(c, s) && t in c.deps
    ensures LiveCopies(s, t) == if t in s.dispatched && !Settled(s, t) then 1 else 0
    ensures CountId(s.dead, t) ==
            if t in s.dispatched && ((t in s.rows && s.rows[t].status == FAILED)
                                     || exists w | w in s.workers :: DeadLettering(s, w, t))
            then 1 else 0
  {
    hide Reachable, Inv, LiveCopies, DeadLettering, Settled;
    ReachableInv(c, s);
    if InHand(s, t) {
      var w :| w in s.workers && HeldBy(s, w, t);
      HeldConservation(c, s, w, t);
    } else {
      FreeConservation(c, s, t);
    }
  }

  lemma QueueCount(c: Config, s: State, t: TaskId)
    requires Inv(c, s)
    ensures CountId(s.queue, t) == if InQueue(s, t) then 1 else 0
  {
    hide Copies, Located, KeysOk, Resting, Frontier;
    CountDistinct(s.queue, t);
  }

  lemma HeldConservation(c: Config, s: State, w: WorkerId, t: TaskId)
    requires Inv(c, s) && t in c.deps && w in s.workers && HeldBy(s, w, t)
    ensures LiveCopies(s, t) == if t in s.dispatched && !Settled(s, t) then 1 else 0
    ensures CountId(s.dead, t) ==
            if t in s.dispatched && ((t in s.rows && s.rows[t].status == FAILED)
                                     || exists v | v in s.workers :: DeadLettering(s, v, t))
            then 1 else 0
  {
    hide Inv, CountId, Settled;
    ShapeOf(c, s);
    QueueCount(c, s, t);
    HeldCopy(c, s, w, t);
    assert |Holders(s, t)| == if Acked(s.workers[w].pc) then 0 else 1;
    assert (exists v | v in s.workers :: DeadLettering(s, v, t)) <==> DeadLettering(s, w, t);
  }

  lemma FreeConservation(c: Config, s: State, t: TaskId)
    requires Inv(c, s) && t in c.deps && !InHand(s, t)
    ensures LiveCopies(s, t) == if t in s.dispatched && !Settled(s, t) then 1 else 0
    ensures CountId(s.dead, t) ==
            if t in s.dispatched && ((t in s.rows && s.rows[t].status == FAILED)
                                     || exists w | w in s.workers :: DeadLettering(s, w, t))
            then 1 else 0
  {
    assert forall w | w in s.workers :: !HeldBy(s, w, t);
    assert Holders(s, t) == {};
    hide Inv, CountId, InQueue, InHand;
    ShapeOf(c, s);
    QueueCount(c, s, t);
    if InQueue(s, t) {
      QueuedCopy(c, s, t);
    } else {
      RestingCopy(c, s, t);
    }
  }

  lemma ShapeOf(c: Config, s: State)
    requires Inv(c, s)
    ensures c.Valid() && Shape(c, s)
  {}

  lemma RestingCopy(c: Config, s: State, t: TaskId)
    requires Inv(c, s) && t in c.deps && !InQueue(s, t) && !InHand(s, t)
    ensures t in s.dispatched ==> Settled(s, t)
    ensures CountId(s.dead, t) == if t in s.dispatched && s.rows[t].status == FAILED then 1 else 0
  {
    hide Exclusive, Copies, KeysOk, InQueue, InHand, Good, CountId;
    assert Resting(c, s, t);
  }

  // ---- guards and executions ----

  /** The branches that drop a message without requeueing it are never taken. */
  lemma NoMessageDropped(c: Config, s: State, step: Step)
    requires Reachable(c, s) && Enabled(c, s, step)
    ensures !step.Discard?
  {
    hide Reachable, Inv, Enabled;
    ReachableInv(c, s);
    GuardsNeverDrop(c, s, step);
  }

  /** No task runs its handler more often than the oracle and its cap allow. */
  lemma ExecutionBound(c: Config, s: State, t: TaskId)
    requires Reachable(c, s) && t in c.deps
    ensures t in s.runs && t in c.maxAttempts
    ensures s.runs[t] <= Executions(c, t) <= c.Budget(t)
  {
    hide Reachable;
    ReachableInv(c, s);
    hide Good, CopyOk, Frontier, Exclusive, Located, KeysOk, CountId;
    if InHand(s, t) {
      var w :| w in s.workers && HeldBy(s, w, t);
      CopyExecutions(c, s, s.workers[w].m, s.workers[w].pc);
    } else if InQueue(s, t) {
      var i :| 0 <= i < |s.queue| && s.queue[i].id == t;
      CopyExecutions(c, s, s.queue[i], Taken);
    } else {
      assert Resting(c, s, t);
    }
  }

  lemma CopyExecutions(c: Config, s: State, m: Msg, pc: Pc)
    requires CopyOk(c, s, m, pc)
    ensures s.runs[m.id] <= Executions(c, m.id)
  {
    hide Key, Fate, CountId;
  }

  // ---- the caps themselves ----

  /** The attempts that decide a task's fate, one by one. */
  lemma {:induction false} FateByAttempts(oracle: (TaskId, nat) -> Outcome, t: TaskId, first: nat, cap: int)
    ensures Fate(oracle, t, first, cap) <==>
              exists a: nat :: first <= a && (a == first || a <= cap) && oracle(t, a) == Ok
                               && forall b: nat | first <= b < a :: oracle(t, b) == Retryable
    decreases cap - first
  {
    if oracle(t, first) == Retryable && first < cap {
      FateByAttempts(oracle, t, first + 1, cap);
    }
    if oracle(t, first) == Ok {
      assert forall b: nat | first <= b < first :: oracle(t, b) == Retryable;
    }
  }

  /**
   A task succeeds exactly when some attempt ends well and all before it ask to be
   repeated, that attempt being the first or one that the task's own cap admits; a
   cap of zero stands for the policy's.
   */
  lemma SucceedsWithinItsCap(c: Config, t: TaskId)
    requires t in c.maxAttempts
    ensures var n := if c.maxAttempts[t] == 0 then c.policyMax else c.maxAttempts[t];
            Succeeds(c, t) <==>
              exists a: nat :: (a == 1 || 1 < a <= n) && c.oracle(t, a) == Ok
                               && forall b: nat | 1 <= b < a :: c.oracle(t, b) == Retryable
  {
    FateByAttempts(c.oracle, t, 1, c.Cap(t));
  }

  lemma {:induction false} LastAttemptFound(oracle: (TaskId, nat) -> Outcome, t: TaskId, first: nat, cap: int)
    ensures var r := LastAttempt(oracle, t, first, cap);
            && (r == first || r <= cap) && (oracle(t, r) == Retryable ==> r >= cap)
            && forall b: nat | first <= b < r :: oracle(t, b) == Retryable
    decreases cap - first
  {
    if oracle(t, first) == Retryable && first < cap {
      LastAttemptFound(oracle, t, first + 1, cap);
    }
  }

  /** No task is executed more often than its own cap, and at most once if that is below one. */
  lemma ExecutionsWithinItsCap(c: Config, s: State, t: TaskId)
    requires Reachable(c, s) && t in c.deps
    ensures t in s.runs && t in c.maxAttempts
    ensures var n := if c.maxAttempts[t] == 0 then c.policyMax else c.maxAttempts[t];
            s.runs[t] <= if n < 1 then 1 else n
  {
    hide Reachable;
    ExecutionBound(c, s, t);
  }

  /**
   In a complete run a dispatched task was executed up to its first attempt that did
   not ask to be repeated, or up to its own cap if none came sooner.
   */
  lemma ExecutionsOfACompleteRun(c: Config, s: State, t: TaskId)
    requires Reachable(c, s) && Complete(s) && t in s.dispatched
    ensures t in s.runs && t in c.maxAttempts
    ensures var n, r := if c.maxAttempts[t] == 0 then c.policyMax else c.maxAttempts[t], s.runs[t];
            && 1 <= r && (r == 1 || r <= n) && (c.oracle(t, r) == Retryable ==> r >= n)
            && forall b: nat | 1 <= b < r :: c.oracle(t, b) == Retryable
    ensures var n := if c.maxAttempts[t] == 0 then c.policyMax else c.maxAttempts[t];
            (forall a: nat | 1 <= a :: c.oracle(t, a) == Retryable) ==> s.runs[t] == if n < 1 then 1 else n
  {
    hide Reachable, Exclusive, Located, Copies, KeysOk, Frontier, Good, CountId;
    ReachableInv(c, s);
    assert Resting(c, s, t);
    LastAttemptFound(c.oracle, t, 1, c.Cap(t));
  }

  // ---- the published state machine ----

  /** The changes of a status column that a run makes. */
  predicate Usual(frm: TaskStatus, to: TaskStatus) {
    || frm == to
    || (frm == QUEUED && to == RUNNING)       // claimed
    || (frm == RUNNING && to == COMPLETED)
    || (frm == RUNNING && to == RETRYING)
    || (frm == RETRYING && to == RUNNING)     // claimed again
    || (frm == RUNNING && to == FAILED)       // out of attempts, or beyond repair
    || (frm == QUEUED && to == FAILED)        // cascaded to
  }

  /** Every write to a task's status column is one of these, and a published transition. */
  lemma StatusRefinement(c: Config, s: State, step: Step, t: TaskId)
    requires Reachable(c, s) && Enabled(c, s, step) && t in s.rows
    ensures t in Apply(c, s, step).rows
    ensures Legal(s.rows[t].status, Apply(c, s, step).rows[t].status)
    ensures Usual(s.rows[t].status, Apply(c, s, step).rows[t].status)
    ensures Settled(s, t) ==> Apply(c, s, step).rows[t].status == s.rows[t].status
  {
    hide Reachable, Inv;
    ReachableInv(c, s);
    match step
    case RunFailHook(_) => CascadeLegal(c, s, step, t);
    case RunDoneHook(_, _) => DoneHookLegal(c, s, step, t);
    case Act(_, _) => ActLegal(c, s, step, t);
    case _ =>
  }

  lemma RowAfterLegal(c: Config, s: State, m: Msg, pc: Pc, action: Action, row: Row, dead: nat, runs: nat)
    requires CanAct(c, s, m, pc, action) && PcOk(c, m, pc, row, dead, runs)
    ensures Legal(row.status, RowAfter(m, action, row).status)
    ensures Usual(row.status, RowAfter(m, action, row).status)
    ensures row.status == COMPLETED || row.status == FAILED ==> RowAfter(m, action, row).status == row.status
  {}

  lemma ActLegal(c: Config, s: State, step: Step, t: TaskId)
    requires Inv(c, s) && Enabled(c, s, step) && step.Act? && t in s.rows
    ensures t in Apply(c, s, step).rows
    ensures Legal(s.rows[t].status, Apply(c, s, step).rows[t].status)
    ensures Usual(s.rows[t].status, Apply(c, s, step).rows[t].status)
    ensures Settled(s, t) ==> Apply(c, s, step).rows[t].status == s.rows[t].status
  {
    hide Exclusive, Located, Copies, KeysOk, Resting, Frontier, MsgOk, CountId, Key, PcOk, CanAct, RowAfter;
    var m := s.workers[step.w].m;
    HeldMessage(c, s, step.w);
    RowAfterLegal(c, s, m, s.workers[step.w].pc, step.action, s.rows[m.id], CountId(s.dead, m.id), s.runs[m.id]);
  }

  lemma DoneHookLegal(c: Config, s: State, step: Step, t: TaskId)
    requires Inv(c, s) && Enabled(c, s, step) && step.RunDoneHook? && t in s.rows
    ensures Apply(c, s, step).rows == s.rows
  {
    hide Inv, Enabled, Apply;
    DoneHookGrown(c, s, step);
  }

  lemma CascadeLegal(c: Config, s: State, step: Step, t: TaskId)
    requires Inv(c, s) && Enabled(c, s, step) && step.RunFailHook? && t in s.rows
    ensures t in Apply(c, s, step).rows
    ensures Legal(s.rows[t].status, Apply(c, s, step).rows[t].status)
    ensures Usual(s.rows[t].status, Apply(c, s, step).rows[t].status)
    ensures Settled(s, t) ==> Apply(c, s, step).rows[t].status == s.rows[t].status
  {
    hide Exclusive, Located, KeysOk, Frontier, Resting, Good, CopyOk, Cascaded, Fallen;
    var m := s.workers[step.w].m;
    assert CopyOk(c, s, m, FailHook);
    FailHookFallen(c, s, step);
    hide Apply, Enabled, Copies;
    FallenLegal(c, s, Apply(c, s, step), step.w, m, t);
  }

  lemma FallenLegal(c: Config, s: State, s': State, w: WorkerId, m: Msg, t: TaskId)
    requires c.Valid() && Shape(c, s) && CopyOk(c, s, m, FailHook) && t in c.deps
    requires forall y | y in c.deps :: Resting(c, s, y) && Frontier(c, s, y)
    requires Fallen(s, s', w, m.id, Cascaded(c, s, m.id))
    ensures t in s'.rows && Legal(s.rows[t].status, s'.rows[t].status) && Usual(s.rows[t].status, s'.rows[t].status)
    ensures Settled(s, t) ==> s'.rows[t].status == s.rows[t].status
  {
    hide Good, MsgOk, CountId, Resting, Frontier, Fallen, Cascaded;
    assert s.rows[m.id].status == FAILED && s.dag[m.id] == Pending;
    hide CopyOk;
    FallenRow(s, s', w, m.id, Cascaded(c, s, m.id), t);
    if t in Cascaded(c, s, m.id) {
      CascadedPending(c, s, m.id);
      BelowCascade(c, s, m.id, t);
      UndispatchedRow(c, s, t);
    }
  }

  lemma BelowCascade(c: Config, s: State, t: TaskId, x: TaskId)
    requires c.Valid() && Shape(c, s) && t in c.deps && s.dag[t] == Pending
    requires forall y | y in c.deps :: Resting(c, s, y) && Frontier(c, s, y)
    requires x in Cascaded(c, s, t)
    ensures x !in s.dispatched && s.dag[x] == Pending
  {
    hide Good, Resting, Frontier, Descendants;
    BelowUndispatched(c, s, t, x);
  }

  lemma UndispatchedRow(c: Config, s: State, t: TaskId)
    requires c.Valid() && Shape(c, s) && t in c.deps && Resting(c, s, t)
    requires s.dag[t] == Pending && t !in s.dispatched
    ensures s.rows[t] == FRESH_ROW
  {}

  lemma FallenRow(s: State, s': State, w: WorkerId, t: TaskId, down: set<TaskId>, x: TaskId)
    requires Fallen(s, s', w, t, down) && x in s.rows
    ensures x in s'.rows
    ensures s'.rows[x] == if x == t || x in down then Row(FAILED, FAILED, s.rows[x].attempt) else s.rows[x]
  {}
}
