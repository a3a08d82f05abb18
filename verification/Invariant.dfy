/**
 The inductive invariant of the run protocol, and the proof that every step of
 every worker keeps it.
 */
module Invariant {
  import opened Contract
  import opened Graphs
  import opened Keys
  import opened Rows
  import opened Protocol

  /** Copies of a task's message in a list of messages. */
  function CountId(ms: seq<Msg>, t: TaskId): nat {
    if ms == [] then 0
    else CountId(ms[..|ms| - 1], t) + (if ms[|ms| - 1].id == t then 1 else 0)
  }

  lemma CountIdAppend(ms: seq<Msg>, m: Msg, t: TaskId)
    ensures CountId(ms + [m], t) == CountId(ms, t) + (if m.id == t then 1 else 0)
  {
    assert (ms + [m])[..|ms|] == ms;
  }

  // ---- what holds of one message and its row ----

  /** The row of a task whose message nobody has claimed. */
  function WaitingRow(attempt: nat): Row {
    if attempt == 1 then FRESH_ROW else Row(RETRYING, RETRYING, attempt)
  }

  predicate FailsAt(c: Config, m: Msg) {
    c.oracle(m.id, m.attempt) == Fatal || (c.oracle(m.id, m.attempt) == Retryable && !RetriesLeft(c, m))
  }

  predicate RetriesAt(c: Config, m: Msg) {
    c.oracle(m.id, m.attempt) == Retryable && RetriesLeft(c, m)
  }

  predicate MsgOk(c: Config, m: Msg)
    requires m.id in c.maxAttempts
  {
    && 1 <= m.attempt <= c.Budget(m.id)
    && m.key == Key(c.workflow, m.id, m.attempt)
    && Succeeds(c, m.id) == Fate(c.oracle, m.id, m.attempt, c.Cap(m.id))
    && Executions(c, m.id) == LastAttempt(c.oracle, m.id, m.attempt, c.Cap(m.id))
  }

  /** The row, the dead-letter copies and the executions of a task whose holder is at pc. */
  predicate PcOk(c: Config, m: Msg, pc: Pc, row: Row, dead: nat, runs: nat) {
    var a := m.attempt;
    match pc
    case Taken => row == WaitingRow(a) && dead == 0 && runs + 1 == a
    case NotCompleted => row == WaitingRow(a) && dead == 0 && runs + 1 == a
    case KeyClear => row == WaitingRow(a) && dead == 0 && runs + 1 == a
    case Admitted => row == WaitingRow(a) && dead == 0 && runs + 1 == a
    case Claimed => row == WaitingRow(a).(state := RUNNING) && dead == 0 && runs + 1 == a
    case Started => row == Row(RUNNING, RUNNING, a) && dead == 0 && runs + 1 == a
    case Keyed => row == Row(RUNNING, RUNNING, a) && dead == 0 && runs + 1 == a
    case Ran(o) => row == Row(RUNNING, RUNNING, a) && dead == 0 && runs == a && o == c.oracle(m.id, a)
    case HalfCompleted => row == Row(RUNNING, COMPLETED, a) && dead == 0 && runs == a && c.oracle(m.id, a) == Ok
    case DoneHook => row == Row(COMPLETED, COMPLETED, a) && dead == 0 && runs == a && c.oracle(m.id, a) == Ok
    case HalfRetried => row == Row(RUNNING, RETRYING, a) && dead == 0 && runs == a && RetriesAt(c, m)
    case Retried => row == Row(RETRYING, RETRYING, a + 1) && dead == 0 && runs == a && RetriesAt(c, m)
    case DeadPublished => row == Row(RUNNING, RUNNING, a) && dead == 1 && runs == a && FailsAt(c, m)
    case HalfFailed => row == Row(RUNNING, FAILED, a) && dead == 1 && runs == a && FailsAt(c, m)
    case FailHook => row == Row(FAILED, FAILED, a) && dead == 1 && runs == a && FailsAt(c, m)
  }

  predicate CopyOk(c: Config, s: State, m: Msg, pc: Pc) {
    && m.id in c.maxAttempts && m.id in s.rows && m.id in s.runs
    && m.id in s.dispatched && HasStatus(s.dag, m.id, Pending)
    && MsgOk(c, m)
    && PcOk(c, m, pc, s.rows[m.id], CountId(s.dead, m.id), s.runs[m.id])
  }

  predicate InQueue(s: State, t: TaskId) {
    exists i :: 0 <= i < |s.queue| && s.queue[i].id == t
  }

  predicate HeldBy(s: State, w: WorkerId, t: TaskId) {
    w in s.workers && s.workers[w].Holding? && s.workers[w].m.id == t
  }

  predicate InHand(s: State, t: TaskId) {
    exists w | w in s.workers :: HeldBy(s, w, t)
  }

  // ---- the invariant ----

  ghost predicate Shape(c: Config, s: State) {
    && s.rows.Keys == c.deps.Keys && s.dag.Keys == c.deps.Keys && s.runs.Keys == c.deps.Keys
    && s.workers.Keys == c.workers
    && s.dispatched <= c.deps.Keys
  }

  /** No two live copies of one task. */
  ghost predicate Exclusive(s: State) {
    && (forall i, j | 0 <= i < j < |s.queue| :: s.queue[i].id != s.queue[j].id)
    && (forall i, w | 0 <= i < |s.queue| && w in s.workers :: !HeldBy(s, w, s.queue[i].id))
    && (forall w, v | w in s.workers && v in s.workers && w != v && s.workers[w].Holding? ::
          !HeldBy(s, v, s.workers[w].m.id))
  }

  ghost predicate Copies(c: Config, s: State) {
    && (forall i | 0 <= i < |s.queue| :: CopyOk(c, s, s.queue[i], Taken))
    && (forall w | w in s.workers && s.workers[w].Holding? ::
          CopyOk(c, s, s.workers[w].m, s.workers[w].pc))
  }

  /** A dispatched task the graph still has pending has a copy somewhere. */
  ghost predicate Located(s: State) {
    forall t | t in s.dispatched && HasStatus(s.dag, t, Pending) :: InQueue(s, t) || InHand(s, t)
  }

  ghost predicate KeysOk(c: Config, keys: map<string, TaskId>) {
    forall t, a | Key(c.workflow, t, a) in keys :: keys[Key(c.workflow, t, a)] == t
  }

  /** The rows and counters of tasks that have no live copy. */
  ghost predicate Resting(c: Config, s: State, t: TaskId)
    requires c.Valid() && Shape(c, s) && t in c.deps
  {
    match s.dag[t]
    case Pending =>
      t !in s.dispatched ==> s.rows[t] == FRESH_ROW && CountId(s.dead, t) == 0 && s.runs[t] == 0
    case Completed =>
      && t in s.dispatched && Good(c, t)
      && s.rows[t] == Row(COMPLETED, COMPLETED, Executions(c, t))
      && CountId(s.dead, t) == 0 && s.runs[t] == Executions(c, t)
    case Failed =>
      && !Good(c, t)
      && if t in s.dispatched then
           s.rows[t] == Row(FAILED, FAILED, Executions(c, t))
           && CountId(s.dead, t) == 1 && s.runs[t] == Executions(c, t)
         else
           s.rows[t] == Row(FAILED, FAILED, 1) && CountId(s.dead, t) == 0 && s.runs[t] == 0
  }

  ghost predicate Frontier(c: Config, s: State, t: TaskId)
    requires c.Valid() && Shape(c, s) && t in c.deps
  {
    && (t in s.dispatched <==> DepsCompleted(c.deps, s.dag, t))
    && (forall d | d in c.deps[t] && s.dag[d] == Failed :: s.dag[t] == Failed)
    && (s.dag[t] == Failed && t !in s.dispatched ==> exists d | d in c.deps[t] :: s.dag[d] == Failed)
  }

  ghost predicate Inv(c: Config, s: State) {
    && c.Valid()
    && Shape(c, s)
    && Exclusive(s)
    && Copies(c, s)
    && Located(s)
    && KeysOk(c, s.keys)
    && (forall t | t in c.deps :: Resting(c, s, t))
    && (forall t | t in c.deps :: Frontier(c, s, t))
  }

  // ---- verdict lemmas ----

  lemma GoodUnfold(c: Config, t: TaskId)
    requires c.Valid() && t in c.deps
    ensures Good(c, t) <==> Succeeds(c, t) && forall d | d in c.deps[t] :: Good(c, d)
  {
    ReachSelf(c.deps, t);
    if Good(c, t) {
      forall d, a | d in c.deps[t] && a in c.deps && Reach(c.deps, d, a)
        ensures Succeeds(c, a)
      {
        ReachEdge(c.deps, t, d);
        ReachTransitive(c.deps, t, d, a);
      }
    }
    if Succeeds(c, t) && forall d | d in c.deps[t] :: Good(c, d) {
      forall a | a in c.deps && Reach(c.deps, t, a)
        ensures Succeeds(c, a)
      {
        if a != t {
          var d := FirstEdge(c.deps, t, a);
          assert Good(c, d);
        }
      }
    }
  }

  // ---- initial states ----

  lemma InitKeys(c: Config, keys: map<string, TaskId>)
    requires ForeignKeys(c, keys)
    ensures KeysOk(c, keys)
  {
    forall t, a
      ensures Key(c.workflow, t, a) !in keys
    {
      if Key(c.workflow, t, a) in keys {
        var w, t', a' :| Key(c.workflow, t, a) == Key(w, t', a') && w != c.workflow && !Overlap(c.workflow, w);
        SharedKeyOverlaps(c.workflow, t, a, w, t', a');
        assert false;
      }
    }
  }

  lemma InitQueue(c: Config, s: State)
    requires Init(c, s)
    ensures Exclusive(s) && Located(s)
    ensures forall i | 0 <= i < |s.queue| ::
              s.queue[i].id in s.dispatched && s.queue[i] == FirstMessage(c, s.rows, s.queue[i].id)
  {
    var batch :| Lists(batch, s.dispatched) && s.queue == Messages(c, s.rows, batch);
    assert forall i | 0 <= i < |s.queue| :: s.queue[i] == FirstMessage(c, s.rows, batch[i]);
    forall t | t in s.dispatched
      ensures InQueue(s, t)
    {
      var i :| 0 <= i < |batch| && batch[i] == t;
      assert s.queue[i].id == t;
    }
  }

  lemma FirstMessageOk(c: Config, s: State, t: TaskId)
    requires Shape(c, s) && t in c.deps && c.maxAttempts.Keys == c.deps.Keys
    requires s.rows[t] == FRESH_ROW && CountId(s.dead, t) == 0 && s.runs[t] == 0
    requires t in s.dispatched && s.dag[t] == Pending
    ensures CopyOk(c, s, FirstMessage(c, s.rows, t), Taken)
  {}

  lemma InitFrontier(c: Config, s: State, t: TaskId)
    requires Init(c, s) && t in c.deps
    ensures Resting(c, s, t) && Frontier(c, s, t)
  {
    hide Good, ForeignKeys;
    if c.deps[t] != {} {
      var d :| d in c.deps[t];
      assert !HasStatus(s.dag, d, Completed);
    }
  }

  lemma InitInv(c: Config, s: State)
    requires Init(c, s)
    ensures Inv(c, s)
  {
    hide Exclusive, Located, KeysOk, Resting, Frontier, ForeignKeys, CopyOk, FirstMessage;
    InitKeys(c, s.keys);
    InitQueue(c, s);
    forall i | 0 <= i < |s.queue|
      ensures CopyOk(c, s, s.queue[i], Taken)
    {
      FirstMessageOk(c, s, s.queue[i].id);
    }
    forall t | t in c.deps
      ensures Resting(c, s, t) && Frontier(c, s, t)
    {
      InitFrontier(c, s, t);
    }
  }

  // ---- actions of one worker on its own task ----

  /** A copy of one task does not see what happens to another's row and counters. */
  lemma OtherCopyOk(c: Config, s: State, s': State, t: TaskId, m: Msg, pc: Pc)
    requires OthersSame(s, s', t) && m.id != t && CopyOk(c, s, m, pc)
    ensures CopyOk(c, s', m, pc)
  {}

  ghost predicate OthersSame(s: State, s': State, t: TaskId) {
    && s'.queue == s.queue && s'.dag == s.dag && s'.dispatched == s.dispatched
    && s'.rows.Keys == s.rows.Keys && s'.runs.Keys == s.runs.Keys
    && (forall x | x in s.rows && x != t :: s'.rows[x] == s.rows[x])
    && (forall x | x in s.runs && x != t :: s'.runs[x] == s.runs[x])
    && (forall x | x != t :: CountId(s'.dead, x) == CountId(s.dead, x))
  }

  lemma ActedOthers(c: Config, s: State, w: WorkerId, action: Action)
    requires Busy(s, w)
    ensures OthersSame(s, Acted(c, s, w, action), s.workers[w].m.id)
  {
    hide RowAfter, PcAfter, CountId;
    var m := s.workers[w].m;
    forall x | x != m.id
      ensures CountId(s.dead + [m], x) == CountId(s.dead, x)
    {
      CountIdAppend(s.dead, m, x);
    }
  }

  lemma ActedExclusive(c: Config, s: State, w: WorkerId, action: Action)
    requires Busy(s, w) && Exclusive(s) && Located(s)
    ensures Exclusive(Acted(c, s, w, action)) && Located(Acted(c, s, w, action))
  {
    hide RowAfter, PcAfter;
    var s' := Acted(c, s, w, action);
    assert forall v, x | v in s.workers :: HeldBy(s', v, x) == HeldBy(s, v, x);
    forall t | t in s'.dispatched && HasStatus(s'.dag, t, Pending)
      ensures InQueue(s', t) || InHand(s', t)
    {
      if InQueue(s, t) {
        assert InQueue(s', t);
      } else {
        var v :| v in s.workers && HeldBy(s, v, t);
        assert HeldBy(s', v, t);
      }
    }
  }

  /** Each action turns the row its place requires into the row the next place requires. */
  lemma ActedRow(c: Config, s: State, m: Msg, pc: Pc, action: Action, row: Row, dead: nat, runs: nat)
    requires CanAct(c, s, m, pc, action) && PcOk(c, m, pc, row, dead, runs)
    ensures PcOk(c, m, PcAfter(c, m, action), RowAfter(m, action, row),
                 dead + (if action == PublishDeadLetter then 1 else 0),
                 runs + (if action == Execute then 1 else 0))
  {}

  lemma ActedCopy(c: Config, s: State, w: WorkerId, action: Action)
    requires Busy(s, w) && CanAct(c, s, s.workers[w].m, s.workers[w].pc, action)
    requires CopyOk(c, s, s.workers[w].m, s.workers[w].pc)
    ensures CopyOk(c, Acted(c, s, w, action), s.workers[w].m, PcAfter(c, s.workers[w].m, action))
  {
    hide MsgOk, PcOk, CountId, RowAfter, PcAfter, CanAct;
    var m := s.workers[w].m;
    ActedRow(c, s, m, s.workers[w].pc, action, s.rows[m.id], CountId(s.dead, m.id), s.runs[m.id]);
    CountIdAppend(s.dead, m, m.id);
  }

  lemma ActedCopies(c: Config, s: State, w: WorkerId, action: Action)
    requires Busy(s, w) && CanAct(c, s, s.workers[w].m, s.workers[w].pc, action)
    requires Exclusive(s) && Copies(c, s)
    ensures Copies(c, Acted(c, s, w, action))
  {
    hide CopyOk, CanAct, OthersSame, RowAfter, PcAfter;
    var s' := Acted(c, s, w, action);
    var t := s.workers[w].m.id;
    ActedOthers(c, s, w, action);
    ActedCopy(c, s, w, action);
    forall i | 0 <= i < |s'.queue|
      ensures CopyOk(c, s', s'.queue[i], Taken)
    {
      assert !HeldBy(s, w, s.queue[i].id);
      OtherCopyOk(c, s, s', t, s.queue[i], Taken);
    }
    forall v | v in s'.workers && s'.workers[v].Holding?
      ensures CopyOk(c, s', s'.workers[v].m, s'.workers[v].pc)
    {
      if v != w {
        assert !HeldBy(s, w, s.workers[v].m.id);
        OtherCopyOk(c, s, s', t, s.workers[v].m, s.workers[v].pc);
      }
    }
  }

  /** The task a worker holds is dispatched and pending in the graph, so nothing is asked of its row at rest. */
  lemma ActedRest(c: Config, s: State, s': State, t: TaskId, x: TaskId)
    requires c.Valid() && Shape(c, s) && Shape(c, s') && x in c.deps && OthersSame(s, s', t)
    requires t in s.dispatched && HasStatus(s.dag, t, Pending)
    requires Resting(c, s, x) && Frontier(c, s, x)
    ensures Resting(c, s', x) && Frontier(c, s', x)
  {}

  lemma StoreKeyOk(c: Config, keys: map<string, TaskId>, m: Msg)
    requires KeysOk(c, keys) && m.key == Key(c.workflow, m.id, m.attempt)
    ensures KeysOk(c, keys[m.key := m.id])
  {
    forall t, a | Key(c.workflow, t, a) in keys[m.key := m.id]
      ensures keys[m.key := m.id][Key(c.workflow, t, a)] == t
    {
      if Key(c.workflow, t, a) == m.key {
        KeyInjectiveInWorkflow(c.workflow, t, a, m.id, m.attempt);
      }
    }
  }

  lemma HeldMessage(c: Config, s: State, w: WorkerId)
    requires Copies(c, s) && Busy(s, w)
    ensures CopyOk(c, s, s.workers[w].m, s.workers[w].pc)
    ensures s.workers[w].m.key == Key(c.workflow, s.workers[w].m.id, s.workers[w].m.attempt)
    ensures s.workers[w].m.id in s.dispatched && HasStatus(s.dag, s.workers[w].m.id, Pending)
  {
    hide PcOk, Key, Fate, LastAttempt;
  }

  lemma ActStep(c: Config, s: State, step: Step)
    requires Inv(c, s) && Enabled(c, s, step) && step.Act?
    ensures Inv(c, Apply(c, s, step))
  {
    hide Exclusive, Located, Copies, Resting, Frontier, KeysOk, CopyOk, CanAct, OthersSame, RowAfter, PcAfter, Key;
    var s' := Acted(c, s, step.w, step.action);
    HeldMessage(c, s, step.w);
    ActedExclusive(c, s, step.w, step.action);
    ActedCopies(c, s, step.w, step.action);
    ActedOthers(c, s, step.w, step.action);
    StoreKeyOk(c, s.keys, s.workers[step.w].m);
    forall t | t in c.deps
      ensures Resting(c, s', t) && Frontier(c, s', t)
    {
      ActedRest(c, s, s', s.workers[step.w].m.id, t);
    }
  }

  // ---- taking a message off the bus ----

  lemma TakeExclusive(s: State, s': State, w: WorkerId, i: nat)
    requires Exclusive(s) && Located(s)
    requires w in s.workers && s.workers[w].Idle? && i < |s.queue|
    requires s' == Taking(s, w, i)
    ensures Exclusive(s') && Located(s')
  {
    assert forall j | 0 <= j < |s'.queue| :: s'.queue[j] == s.queue[if j < i then j else j + 1];
    forall t | t in s'.dispatched && HasStatus(s'.dag, t, Pending)
      ensures InQueue(s', t) || InHand(s', t)
    {
      if s.queue[i].id == t {
        assert HeldBy(s', w, t);
      } else if InQueue(s, t) {
        var j :| 0 <= j < |s.queue| && s.queue[j].id == t;
        assert s'.queue[if j < i then j else j - 1].id == t;
      } else {
        var v :| v in s.workers && HeldBy(s, v, t);
        assert HeldBy(s', v, t);
      }
    }
  }

  /** A copy is judged by the tables and the graph alone. */
  lemma CopyFrame(c: Config, s: State, s': State, m: Msg, pc: Pc)
    requires CopyOk(c, s, m, pc)
    requires s'.rows == s.rows && s'.runs == s.runs && s'.dead == s.dead
    requires s'.dag == s.dag && s'.dispatched == s.dispatched
    ensures CopyOk(c, s', m, pc)
  {}

  lemma RestFrame(c: Config, s: State, s': State)
    requires c.Valid() && Shape(c, s) && Shape(c, s')
    requires s'.rows == s.rows && s'.runs == s.runs && s'.dead == s.dead
    requires s'.dag == s.dag && s'.dispatched == s.dispatched
    requires forall t | t in c.deps :: Resting(c, s, t) && Frontier(c, s, t)
    ensures forall t | t in c.deps :: Resting(c, s', t) && Frontier(c, s', t)
  {}

  lemma TakeStep(c: Config, s: State, w: WorkerId, i: nat)
    requires Inv(c, s) && Enabled(c, s, Take(w, i))
    ensures Inv(c, Apply(c, s, Take(w, i)))
  {
    hide Resting, Frontier, CopyOk, Exclusive, Located, KeysOk;
    var s' := Apply(c, s, Take(w, i));
    TakeExclusive(s, s', w, i);
    forall j | 0 <= j < |s'.queue|
      ensures CopyOk(c, s', s'.queue[j], Taken)
    {
      assert s'.queue[j] == s.queue[if j < i then j else j + 1];
      CopyFrame(c, s, s', s'.queue[j], Taken);
    }
    forall v | v in s'.workers && s'.workers[v].Holding?
      ensures CopyOk(c, s', s'.workers[v].m, s'.workers[v].pc)
    {
      if v == w {
        CopyFrame(c, s, s', s.queue[i], Taken);
      } else {
        CopyFrame(c, s, s', s.workers[v].m, s.workers[v].pc);
      }
    }
    RestFrame(c, s, s');
  }

  // ---- putting a message back on the bus ----

  lemma ReturnExclusive(s: State, s': State, w: WorkerId, m: Msg)
    requires Exclusive(s) && Located(s)
    requires w in s.workers && HeldBy(s, w, m.id)
    requires s' == Putting(s, w, m)
    ensures Exclusive(s') && Located(s')
  {
    assert forall j | 0 <= j < |s'.queue| :: s'.queue[j] == if j < |s.queue| then s.queue[j] else m;
    assert forall v, x | v in s'.workers && HeldBy(s', v, x) :: v != w && HeldBy(s, v, x);
    forall j | 0 <= j < |s.queue|
      ensures s.queue[j].id != m.id
    {
      assert !HeldBy(s, w, s.queue[j].id);
    }
    forall t | t in s'.dispatched && HasStatus(s'.dag, t, Pending)
      ensures InQueue(s', t) || InHand(s', t)
    {
      if t == m.id {
        assert s'.queue[|s.queue|].id == t;
      } else if InQueue(s, t) {
        var j :| 0 <= j < |s.queue| && s.queue[j].id == t;
        assert s'.queue[j].id == t;
      } else {
        var v :| v in s.workers && HeldBy(s, v, t);
        assert HeldBy(s', v, t);
      }
    }
  }

  lemma ReturnCopies(c: Config, s: State, s': State, w: WorkerId, m: Msg)
    requires Copies(c, s) && w in s.workers && CopyOk(c, s, m, Taken)
    requires s' == Putting(s, w, m)
    ensures Copies(c, s')
  {
    forall j | 0 <= j < |s'.queue|
      ensures CopyOk(c, s', s'.queue[j], Taken)
    {
      assert s'.queue[j] == if j < |s.queue| then s.queue[j] else m;
      CopyFrame(c, s, s', s'.queue[j], Taken);
    }
    forall v | v in s'.workers && s'.workers[v].Holding?
      ensures CopyOk(c, s', s'.workers[v].m, s'.workers[v].pc)
    {
      CopyFrame(c, s, s', s.workers[v].m, s.workers[v].pc);
    }
  }

  /** A worker puts a copy of its task back on the bus and lets go of it. */
  lemma ReturnStep(c: Config, s: State, w: WorkerId, m: Msg)
    requires Inv(c, s)
    requires w in s.workers && HeldBy(s, w, m.id)
    requires CopyOk(c, s, m, Taken)
    ensures Inv(c, Putting(s, w, m))
  {
    hide Resting, Frontier, CopyOk, Exclusive, Located, Copies, KeysOk;
    var s' := Putting(s, w, m);
    ReturnExclusive(s, s', w, m);
    ReturnCopies(c, s, s', w, m);
    RestFrame(c, s, s');
  }

  // ---- guards and requeues ----

  lemma NoDiscard(c: Config, s: State, m: Msg, pc: Pc, reason: Drop)
    requires KeysOk(c, s.keys) && CopyOk(c, s, m, pc)
    ensures !CanDiscard(s, m, pc, reason)
  {
    hide Key, Fate, LastAttempt, CountId;
    assert m.key == Key(c.workflow, m.id, m.attempt);
  }

  /** With one publication per task, the three guards that drop a message never fire. */
  lemma GuardsNeverDrop(c: Config, s: State, step: Step)
    requires Inv(c, s) && Enabled(c, s, step)
    ensures !step.Discard?
  {
    hide Exclusive, Located, Copies, Resting, Frontier, KeysOk, CopyOk, CanDiscard;
    if step.Discard? {
      HeldMessage(c, s, step.w);
      NoDiscard(c, s, s.workers[step.w].m, s.workers[step.w].pc, step.reason);
      assert false;
    }
  }

  lemma RequeuedCopy(c: Config, s: State, m: Msg, pc: Pc, why: Return)
    requires CanRequeue(m, pc, why) && CopyOk(c, s, m, pc)
    ensures Requeued(c, m, why).id == m.id && CopyOk(c, s, Requeued(c, m, why), Taken)
  {
    hide Key, Fate, LastAttempt, CountId;
    if why == Retry {
      FateRetry(c.oracle, m.id, m.attempt, c.Cap(m.id));
    }
  }

  lemma RequeueStep(c: Config, s: State, step: Step)
    requires Inv(c, s) && Enabled(c, s, step) && step.Requeue?
    ensures Inv(c, Apply(c, s, step))
  {
    hide Exclusive, Located, Copies, Resting, Frontier, KeysOk, Key, CopyOk, Requeued, CanRequeue;
    var m := s.workers[step.w].m;
    HeldMessage(c, s, step.w);
    RequeuedCopy(c, s, m, s.workers[step.w].pc, step.why);
    ReturnStep(c, s, step.w, Requeued(c, m, step.why));
  }

  lemma FateRetry(oracle: (TaskId, nat) -> Outcome, t: TaskId, a: nat, cap: int)
    requires oracle(t, a) == Retryable && a < cap
    ensures Fate(oracle, t, a, cap) == Fate(oracle, t, a + 1, cap)
    ensures LastAttempt(oracle, t, a, cap) == LastAttempt(oracle, t, a + 1, cap)
  {}

  // ---- the completion hook ----

  lemma MessageIds(c: Config, rows: Table, batch: seq<TaskId>)
    requires forall t | t in batch :: t in rows
    ensures |Messages(c, rows, batch)| == |batch|
    ensures forall i | 0 <= i < |batch| ::
              batch[i] in rows && Messages(c, rows, batch)[i] == FirstMessage(c, rows, batch[i])
    ensures forall i | 0 <= i < |batch| :: Messages(c, rows, batch)[i].id == batch[i]
  {}

  /** A finished execution has decided whether the task itself succeeds. */
  lemma HookVerdict(c: Config, s: State, m: Msg, pc: Pc)
    requires CopyOk(c, s, m, pc)
    ensures pc == DoneHook ==> Succeeds(c, m.id)
    ensures pc == FailHook ==> !Succeeds(c, m.id)
  {
    hide Key, CountId, LastAttempt;
  }

  lemma DispatchedDeps(c: Config, s: State, t: TaskId)
    requires c.Valid() && Shape(c, s) && t in c.deps && t in s.dispatched && Frontier(c, s, t)
    requires forall d | d in c.deps :: Resting(c, s, d)
    ensures forall d | d in c.deps[t] :: Good(c, d)
  {
    hide Good, CountId;
    forall d | d in c.deps[t]
      ensures Good(c, d)
    {
      assert HasStatus(s.dag, d, Completed);
      assert Resting(c, s, d);
    }
  }

  lemma HolderVerdict(c: Config, s: State, w: WorkerId)
    requires Inv(c, s) && w in s.workers && s.workers[w].Holding?
    ensures s.workers[w].m.id in c.deps
    ensures s.workers[w].pc == DoneHook ==> Good(c, s.workers[w].m.id)
    ensures s.workers[w].pc == FailHook ==> !Succeeds(c, s.workers[w].m.id)
  {
    hide Exclusive, Located, Copies, KeysOk, Good, CopyOk, Resting, Frontier, Succeeds;
    var m := s.workers[w].m;
    HeldMessage(c, s, w);
    HookVerdict(c, s, m, s.workers[w].pc);
    DispatchedDeps(c, s, m.id);
    GoodUnfold(c, m.id);
  }

  /** Only dispatched tasks have copies. */
  predicate CopiesDispatched(s: State) {
    && (forall i | 0 <= i < |s.queue| :: s.queue[i].id in s.dispatched)
    && (forall v | v in s.workers && s.workers[v].Holding? :: s.workers[v].m.id in s.dispatched)
  }

  lemma CopiesAreDispatched(c: Config, s: State)
    requires Copies(c, s)
    ensures CopiesDispatched(s)
  {
    hide MsgOk, PcOk;
    assert forall i | 0 <= i < |s.queue| :: CopyOk(c, s, s.queue[i], Taken);
    assert forall v | v in s.workers && s.workers[v].Holding? :: CopyOk(c, s, s.workers[v].m, s.workers[v].pc);
  }

  /** What a completion hook does to the queue, the workers and the graph. */
  ghost predicate Grown(s: State, s': State, w: WorkerId, t: TaskId, batch: seq<TaskId>, added: set<TaskId>) {
    && w in s.workers && HeldBy(s, w, t) && s'.workers == s.workers[w := Idle]
    && Lists(batch, added) && added !! s.dispatched && s'.dispatched == s.dispatched + added
    && |s'.queue| == |s.queue| + |batch|
    && (forall j | 0 <= j < |s.queue| :: s'.queue[j] == s.queue[j])
    && (forall j | 0 <= j < |batch| :: s'.queue[|s.queue| + j].id == batch[j])
    && s'.dag == s.dag[t := Completed]
  }

  lemma GrownExclusive(s: State, s': State, w: WorkerId, t: TaskId, batch: seq<TaskId>, added: set<TaskId>)
    requires Exclusive(s) && CopiesDispatched(s) && Grown(s, s', w, t, batch, added)
    ensures Exclusive(s')
  {
    assert forall v, x | v in s'.workers && HeldBy(s', v, x) :: v != w && HeldBy(s, v, x) && x in s.dispatched;
    forall i, j | 0 <= i < j < |s'.queue|
      ensures s'.queue[i].id != s'.queue[j].id
    {
      if j >= |s.queue| {
        assert s'.queue[|s.queue| + (j - |s.queue|)].id == batch[j - |s.queue|];
        if i >= |s.queue| {
          assert s'.queue[|s.queue| + (i - |s.queue|)].id == batch[i - |s.queue|];
        }
      }
    }
    forall i, v | 0 <= i < |s'.queue| && v in s'.workers
      ensures !HeldBy(s', v, s'.queue[i].id)
    {
      if i >= |s.queue| {
        assert s'.queue[|s.queue| + (i - |s.queue|)].id == batch[i - |s.queue|];
      }
    }
  }

  lemma GrownLocated(s: State, s': State, w: WorkerId, t: TaskId, batch: seq<TaskId>, added: set<TaskId>)
    requires Located(s) && Grown(s, s', w, t, batch, added)
    ensures Located(s')
  {
    forall x | x in s'.dispatched && HasStatus(s'.dag, x, Pending)
      ensures InQueue(s', x) || InHand(s', x)
    {
      if x in added {
        var j :| 0 <= j < |batch| && batch[j] == x;
        assert s'.queue[|s.queue| + j].id == x;
      } else if InQueue(s, x) {
        var j :| 0 <= j < |s.queue| && s.queue[j].id == x;
        assert s'.queue[j].id == x;
      } else {
        var v :| v in s.workers && HeldBy(s, v, x);
        assert HeldBy(s', v, x);
      }
    }
  }

  lemma HookRow(c: Config, s: State, m: Msg, pc: Pc)
    requires CopyOk(c, s, m, pc)
    ensures m.id in s.rows && m.id in s.dag
    ensures pc == DoneHook ==> s.rows[m.id] == Row(COMPLETED, COMPLETED, m.attempt)
    ensures pc == FailHook ==> s.rows[m.id] == Row(FAILED, FAILED, m.attempt)
  {
    hide MsgOk, CountId;
  }

  lemma DoneHookedGrown(c: Config, s: State, w: WorkerId, t: TaskId, batch: seq<TaskId>)
    requires Shape(c, s) && w in s.workers && HeldBy(s, w, t) && t in s.rows && s.rows[t].state == COMPLETED
    requires forall x | x in batch :: x in s.rows
    requires Lists(batch, ToDispatch(c, s, t))
    ensures Shape(c, DoneHooked(c, s, w, t, batch)) && SameTables(s, DoneHooked(c, s, w, t, batch))
    ensures Grown(s, DoneHooked(c, s, w, t, batch), w, t, batch, ToDispatch(c, s, t))
  {
    hide FirstMessage, DepsCompleted;
    assert SetState(s.rows, t, COMPLETED) == s.rows;
    MessageIds(c, s.rows, batch);
  }

  lemma DoneHookGrown(c: Config, s: State, step: Step)
    requires Inv(c, s) && Enabled(c, s, step) && step.RunDoneHook?
    ensures Shape(c, Apply(c, s, step))
    ensures Grown(s, Apply(c, s, step), step.w, s.workers[step.w].m.id, step.batch,
                  ToDispatch(c, s, s.workers[step.w].m.id))
    ensures SameTables(s, Apply(c, s, step)) && Apply(c, s, step).keys == s.keys
    ensures |Apply(c, s, step).queue| == |s.queue| + |step.batch|
    ensures forall j | |s.queue| <= j < |Apply(c, s, step).queue| ::
              step.batch[j - |s.queue|] in s.rows
              && Apply(c, s, step).queue[j] == FirstMessage(c, s.rows, step.batch[j - |s.queue|])
  {
    hide Exclusive, Located, Copies, KeysOk, Key, Resting, Frontier, CopyOk, Grown, ToDispatch, Shape, Lists,
         FirstMessage;
    HeldMessage(c, s, step.w);
    HookRow(c, s, s.workers[step.w].m, DoneHook);
    DoneHookedGrown(c, s, step.w, s.workers[step.w].m.id, step.batch);
    MessageIds(c, s.rows, step.batch);
  }

  ghost predicate SameTables(s: State, s': State) {
    s'.rows == s.rows && s'.runs == s.runs && s'.dead == s.dead
  }

  lemma DoneHookFresh(c: Config, s: State, s': State, w: WorkerId, t: TaskId, batch: seq<TaskId>,
                      added: set<TaskId>, x: TaskId)
    requires c.Valid() && Shape(c, s) && Shape(c, s') && SameTables(s, s')
    requires Grown(s, s', w, t, batch, added) && added == ToDispatch(c, s, t)
    requires x in added && x in c.deps && Resting(c, s, x)
    ensures CopyOk(c, s', FirstMessage(c, s.rows, x), Taken)
  {
    hide DepsCompleted, Good, Key, Fate, CopyOk;
    assert x != t && s'.dag[x] == Pending && x in s'.dispatched;
    FirstMessageOk(c, s', x);
  }

  lemma DoneHookCopies(c: Config, s: State, s': State, w: WorkerId, t: TaskId, batch: seq<TaskId>, added: set<TaskId>)
    requires c.Valid() && Shape(c, s) && Shape(c, s') && SameTables(s, s') && Copies(c, s) && Exclusive(s)
    requires Grown(s, s', w, t, batch, added)
    requires forall j | |s.queue| <= j < |s'.queue| :: CopyOk(c, s', s'.queue[j], Taken)
    ensures Copies(c, s')
  {
    hide MsgOk, PcOk;
    forall j | 0 <= j < |s'.queue|
      ensures CopyOk(c, s', s'.queue[j], Taken)
    {
      if j < |s.queue| {
        assert !HeldBy(s, w, s.queue[j].id);
        assert CopyOk(c, s, s.queue[j], Taken);
      }
    }
    forall v | v in s'.workers && s'.workers[v].Holding?
      ensures CopyOk(c, s', s'.workers[v].m, s'.workers[v].pc)
    {
      assert !HeldBy(s, w, s.workers[v].m.id);
      assert CopyOk(c, s, s.workers[v].m, s.workers[v].pc);
    }
  }

  lemma DoneHookRest(c: Config, s: State, s': State, w: WorkerId, m: Msg, batch: seq<TaskId>, added: set<TaskId>,
                     x: TaskId)
    requires c.Valid() && Shape(c, s) && Shape(c, s') && SameTables(s, s')
    requires Grown(s, s', w, m.id, batch, added) && added == ToDispatch(c, s, m.id)
    requires CopyOk(c, s, m, DoneHook) && Good(c, m.id)
    requires m.id in c.deps && Frontier(c, s, m.id)
    requires x in c.deps && Resting(c, s, x) && Frontier(c, s, x)
    ensures Resting(c, s', x) && Frontier(c, s', x)
  {
    hide Good, Key, Fate;
    assert DepsCompleted(c.deps, s.dag, x) ==> DepsCompleted(c.deps, s'.dag, x);
    if x !in s.dispatched && DepsCompleted(c.deps, s'.dag, x) {
      assert s.dag[x] != Failed;
      assert x in added;
    }
  }

  lemma DoneHookStep(c: Config, s: State, step: Step)
    requires Inv(c, s) && Enabled(c, s, step) && step.RunDoneHook?
    ensures Inv(c, Apply(c, s, step))
  {
    hide Exclusive, Located, KeysOk, Resting, Frontier, CopyOk, Grown, Shape;
    var s' := Apply(c, s, step);
    var m := s.workers[step.w].m;
    var added := ToDispatch(c, s, m.id);
    CopiesAreDispatched(c, s);
    DoneHookGrown(c, s, step);
    HolderVerdict(c, s, step.w);
    assert CopyOk(c, s, m, DoneHook);
    assert forall i | 0 <= i < |step.batch| :: step.batch[i] in added && step.batch[i] in c.deps;
    hide Enabled, Apply, Copies, ToDispatch;
    GrownExclusive(s, s', step.w, m.id, step.batch, added);
    GrownLocated(s, s', step.w, m.id, step.batch, added);
    forall j | |s.queue| <= j < |s'.queue|
      ensures CopyOk(c, s', s'.queue[j], Taken)
    {
      DoneHookFresh(c, s, s', step.w, m.id, step.batch, added, step.batch[j - |s.queue|]);
    }
    DoneHookCopies(c, s, s', step.w, m.id, step.batch, added);
    forall x | x in c.deps
      ensures Resting(c, s', x) && Frontier(c, s', x)
    {
      DoneHookRest(c, s, s', step.w, m, step.batch, added, x);
    }
  }

  // ---- the failure hook ----

  /** Below a task that is not completed nothing was dispatched, let alone completed. */
  lemma BelowUndispatched(c: Config, s: State, t: TaskId, x: TaskId)
    requires c.Valid() && Shape(c, s) && t in c.deps && s.dag[t] != Completed
    requires forall y | y in c.deps :: Resting(c, s, y) && Frontier(c, s, y)
    requires x in Descendants(Dependents(c.deps), t)
    ensures x in c.deps && x !in s.dispatched && s.dag[x] != Completed
    ensures exists b | b in c.deps[x] :: b == t || b in Descendants(Dependents(c.deps), t)
    ensures Reach(c.deps, x, t)
  {
    hide Good, Key;
    var e := Dependents(c.deps);
    var b := LastEdge(e, t, x);
    assert x in c.deps && b in c.deps[x];
    ReachReversed(c.deps, t, b);
    ReachReversed(c.deps, t, x);
    if b != t {
      assert b in Descendants(e, t);
    }
    if x in s.dispatched {
      var done := set y | y in c.deps && s.dag[y] == Completed;
      assert HasStatus(s.dag, b, Completed);
      assert forall y, d | y in done && Edge(c.deps, y, d) :: d in done by {
        assert forall y | y in done :: Resting(c, s, y) && Frontier(c, s, y);
        assert forall y, d | y in done && Edge(c.deps, y, d) :: HasStatus(s.dag, d, Completed);
      }
      ClosedUnderEdges(c.deps, done, b, t);
      assert false;
    }
  }

  /** What a failure hook does to the rows and the graph. */
  ghost predicate Fallen(s: State, s': State, w: WorkerId, t: TaskId, down: set<TaskId>) {
    && w in s.workers && HeldBy(s, w, t) && s'.workers == s.workers[w := Idle]
    && s'.queue == s.queue && s'.dispatched == s.dispatched && s'.keys == s.keys
    && s'.runs == s.runs && s'.dead == s.dead
    && s'.dag.Keys == s.dag.Keys && s'.rows.Keys == s.rows.Keys
    && (forall x | x in s.dag :: s'.dag[x] == if x == t || x in down then Failed else s.dag[x])
    && (forall x | x in s.rows ::
          s'.rows[x] == if x == t || x in down then Row(FAILED, FAILED, s.rows[x].attempt) else s.rows[x])
  }

  lemma FailHookedFallen(c: Config, s: State, w: WorkerId, t: TaskId)
    requires Shape(c, s) && w in s.workers && HeldBy(s, w, t)
    requires t in s.rows && t in s.dag && s.rows[t].status == FAILED && s.rows[t].state == FAILED
    ensures Shape(c, FailHooked(c, s, w, t))
    ensures Fallen(s, FailHooked(c, s, w, t), w, t, Cascaded(c, s, t))
  {
    hide Cascaded;
  }

  lemma FailHookFallen(c: Config, s: State, step: Step)
    requires Inv(c, s) && Enabled(c, s, step) && step.RunFailHook?
    ensures Shape(c, Apply(c, s, step))
    ensures Fallen(s, Apply(c, s, step), step.w, s.workers[step.w].m.id, Cascaded(c, s, s.workers[step.w].m.id))
  {
    hide Exclusive, Located, Copies, KeysOk, Key, Resting, Frontier, CopyOk, Cascaded, Fallen, Shape, FailHooked;
    HeldMessage(c, s, step.w);
    HookRow(c, s, s.workers[step.w].m, FailHook);
    FailHookedFallen(c, s, step.w, s.workers[step.w].m.id);
  }

  lemma FallenExclusive(s: State, s': State, w: WorkerId, t: TaskId, down: set<TaskId>)
    requires Exclusive(s) && Located(s) && Fallen(s, s', w, t, down)
    ensures Exclusive(s') && Located(s')
  {
    assert forall v, x | v in s'.workers && HeldBy(s', v, x) :: v != w && HeldBy(s, v, x);
    forall x | x in s'.dispatched && HasStatus(s'.dag, x, Pending)
      ensures InQueue(s', x) || InHand(s', x)
    {
      assert x in s.dag && x != t;
      if InQueue(s, x) {
        assert InQueue(s', x);
      } else {
        var v :| v in s.workers && HeldBy(s, v, x);
        assert HeldBy(s', v, x);
      }
    }
  }

  lemma FallenCopies(c: Config, s: State, s': State, w: WorkerId, t: TaskId, down: set<TaskId>)
    requires Copies(c, s) && Exclusive(s) && Fallen(s, s', w, t, down) && down !! s.dispatched
    ensures Copies(c, s')
  {
    hide MsgOk, PcOk;
    forall j | 0 <= j < |s'.queue|
      ensures CopyOk(c, s', s'.queue[j], Taken)
    {
      assert !HeldBy(s, w, s.queue[j].id);
      assert CopyOk(c, s, s.queue[j], Taken);
    }
    forall v | v in s'.workers && s'.workers[v].Holding?
      ensures CopyOk(c, s', s'.workers[v].m, s'.workers[v].pc)
    {
      assert !HeldBy(s, w, s.workers[v].m.id);
      assert CopyOk(c, s, s.workers[v].m, s.workers[v].pc);
    }
  }

  lemma NotGoodBelow(c: Config, t: TaskId, x: TaskId)
    requires c.Valid() && t in c.deps && !Succeeds(c, t) && Reach(c.deps, x, t)
    ensures !Good(c, x)
  {}

  lemma FallenDownward(c: Config, s: State, s': State, w: WorkerId, t: TaskId, d: TaskId, x: TaskId)
    requires c.Valid() && Shape(c, s) && Shape(c, s') && t in c.deps && s.dag[t] == Pending
    requires Fallen(s, s', w, t, Cascaded(c, s, t))
    requires forall y | y in c.deps :: Resting(c, s, y) && Frontier(c, s, y)
    requires x in c.deps && d in c.deps[x] && s'.dag[d] == Failed
    ensures s'.dag[x] == Failed
  {
    hide Good, Resting, Reach;
    assert Frontier(c, s, x);
    hide Frontier, Descendants;
    if s.dag[d] != Failed && x != t {
      assert Edge(Dependents(c.deps), d, x);
      DescendantsStep(Dependents(c.deps), t, d, x);
      BelowUndispatched(c, s, t, x);
    }
  }

  lemma FallenUpward(c: Config, s: State, s': State, w: WorkerId, t: TaskId, x: TaskId)
    requires c.Valid() && Shape(c, s) && Shape(c, s') && t in c.deps && s.dag[t] == Pending
    requires Fallen(s, s', w, t, Cascaded(c, s, t)) && t in s.dispatched
    requires forall y | y in c.deps :: Resting(c, s, y) && Frontier(c, s, y)
    requires x in c.deps && s'.dag[x] == Failed && x !in s.dispatched
    ensures exists d | d in c.deps[x] :: s'.dag[d] == Failed
  {
    hide Good, Resting, Reach;
    var e := Dependents(c.deps);
    assert Frontier(c, s, x);
    hide Frontier;
    if s.dag[x] == Failed {
      var d :| d in c.deps[x] && s.dag[d] == Failed;
      assert s'.dag[d] == Failed;
    } else {
      assert x in Descendants(e, t);
      hide Dependents, Descendants;
      BelowUndispatched(c, s, t, x);
      var b :| b in c.deps[x] && (b == t || b in Descendants(e, t));
      if b != t {
        BelowUndispatched(c, s, t, b);
      }
      assert s'.dag[b] == Failed;
    }
  }

  lemma FallenDeps(c: Config, s: State, s': State, w: WorkerId, t: TaskId, x: TaskId)
    requires Closed(c.deps) && Shape(c, s) && x in c.deps && HasStatus(s.dag, t, Pending)
    requires Fallen(s, s', w, t, Cascaded(c, s, t))
    ensures DepsCompleted(c.deps, s'.dag, x) <==> DepsCompleted(c.deps, s.dag, x)
  {
    CascadedPending(c, s, t);
    hide Cascaded;
    assert forall y | y in s.dag :: HasStatus(s'.dag, y, Completed) <==> HasStatus(s.dag, y, Completed);
  }

  /** Failed predecessors and successors agree after the cascade. */
  lemma FallenFrontier(c: Config, s: State, s': State, w: WorkerId, t: TaskId, down: set<TaskId>, x: TaskId)
    requires c.Valid() && Shape(c, s) && Shape(c, s') && Fallen(s, s', w, t, down)
    requires down == Cascaded(c, s, t) && t in c.deps && s.dag[t] == Pending && t in s.dispatched
    requires forall y | y in c.deps :: Resting(c, s, y) && Frontier(c, s, y)
    requires x in c.deps
    ensures Frontier(c, s', x)
  {
    hide Good, Resting, Cascaded, DepsCompleted;
    assert Frontier(c, s, x);
    FallenDeps(c, s, s', w, t, x);
    forall d | d in c.deps[x] && s'.dag[d] == Failed
      ensures s'.dag[x] == Failed
    {
      FallenDownward(c, s, s', w, t, d, x);
    }
    if s'.dag[x] == Failed && x !in s.dispatched {
      FallenUpward(c, s, s', w, t, x);
    }
  }

  lemma CascadedPending(c: Config, s: State, t: TaskId)
    ensures forall x | x in Cascaded(c, s, t) :: HasStatus(s.dag, x, Pending)
  {}

  lemma FallenRest(c: Config, s: State, s': State, w: WorkerId, m: Msg, down: set<TaskId>, x: TaskId)
    requires c.Valid() && Shape(c, s) && Shape(c, s') && Fallen(s, s', w, m.id, down)
    requires x in c.deps && Resting(c, s, x)
    requires CopyOk(c, s, m, FailHook)
    requires x in down ==> s.dag[x] == Pending && x !in s.dispatched
    requires x == m.id || x in down ==> !Good(c, x)
    ensures Resting(c, s', x)
  {
    hide Good, Key, Fate;
  }

  lemma FailHookStep(c: Config, s: State, step: Step)
    requires Inv(c, s) && Enabled(c, s, step) && step.RunFailHook?
    ensures Inv(c, Apply(c, s, step))
  {
    hide Exclusive, Located, KeysOk, Resting, Frontier, CopyOk, Fallen, Shape, Good, Reach, Descendants;
    var s' := Apply(c, s, step);
    var m := s.workers[step.w].m;
    var down := Cascaded(c, s, m.id);
    FailHookFallen(c, s, step);
    HolderVerdict(c, s, step.w);
    assert CopyOk(c, s, m, FailHook);
    FailingHolder(c, s, m);
    ReachSelf(c.deps, m.id);
    NotGoodBelow(c, m.id, m.id);
    forall x | x in down
      ensures x in c.deps && s.dag[x] == Pending && x !in s.dispatched && !Good(c, x)
    {
      BelowUndispatched(c, s, m.id, x);
      NotGoodBelow(c, m.id, x);
    }
    FallenKeys(s, s', step.w, m.id, down);
    hide Enabled, Apply, Cascaded;
    FallenExclusive(s, s', step.w, m.id, down);
    FallenCopies(c, s, s', step.w, m.id, down);
    forall x | x in c.deps
      ensures Resting(c, s', x) && Frontier(c, s', x)
    {
      FallenFrontier(c, s, s', step.w, m.id, down, x);
      FallenRest(c, s, s', step.w, m, down, x);
    }
  }

  lemma FailingHolder(c: Config, s: State, m: Msg)
    requires CopyOk(c, s, m, FailHook)
    ensures s.dag[m.id] == Pending && m.id in s.dispatched
  {}

  lemma FallenKeys(s: State, s': State, w: WorkerId, t: TaskId, down: set<TaskId>)
    requires Fallen(s, s', w, t, down)
    ensures s'.keys == s.keys
  {}

  // ---- every step ----

  lemma StepInv(c: Config, s: State, step: Step)
    requires Inv(c, s) && Enabled(c, s, step)
    ensures Inv(c, Apply(c, s, step))
  {
    hide Inv, Apply, Enabled;
    match step
    case Take(w, i) => TakeStep(c, s, w, i);
    case Act(_, _) => ActStep(c, s, step);
    case Requeue(_, _) => RequeueStep(c, s, step);
    case Discard(_, _) => GuardsNeverDrop(c, s, step);
    case RunDoneHook(_, _) => DoneHookStep(c, s, step);
    case RunFailHook(_) => FailHookStep(c, s, step);
  }

  lemma {:induction false} RunInv(c: Config, s: State, steps: seq<Step>, s': State)
    requires Inv(c, s) && Run(c, s, steps, s')
    ensures Inv(c, s')
    decreases |steps|
  {
    hide Inv, Apply, Enabled;
    if steps != [] {
      StepInv(c, s, steps[0]);
      RunInv(c, Apply(c, s, steps[0]), steps[1..], s');
    }
  }

  lemma ReachableInv(c: Config, s: State)
    requires Reachable(c, s)
    ensures Inv(c, s)
  {
    hide Inv, Init, Run;
    var s0, steps :| Init(c, s0) && Run(c, s0, steps, s);
    InitInv(c, s0);
    RunInv(c, s0, steps, s);
  }
}
