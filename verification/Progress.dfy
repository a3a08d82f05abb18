/**
 No run of an acyclic plan can get stuck, and none can go on for ever: a worker
 that is not bounced off the retry clock or an open breaker always brings the
 run nearer its end.
 */
module Progress {
  import opened Contract
  import opened Graphs
  import opened Keys
  import opened Rows
  import opened Protocol
  import opened Invariant

  /** A step that only puts an unclaimed message back: too early, or breaker open. */
  predicate IsBounce(step: Step) {
    step.Requeue? && step.why != Retry
  }

  function Bounces(steps: seq<Step>): nat {
    if steps == [] then 0 else (if IsBounce(steps[0]) then 1 else 0) + Bounces(steps[1..])
  }

  // ---- no deadlock ----

  /** Follow pending dependencies down to a pending task whose own are all completed. */
  lemma {:induction false} PendingFront(c: Config, s: State, rank: map<TaskId, nat>, t: TaskId) returns (f: TaskId)
    requires Inv(c, s) && Ranked(c.deps, rank) && t in c.deps && s.dag[t] == Pending
    ensures f in c.deps && s.dag[f] == Pending && f in s.dispatched
    ensures Reach(c.deps, t, f)
    decreases rank[t]
  {
    hide Exclusive, Located, Copies, KeysOk, Resting;
    assert Frontier(c, s, t);
    if t in s.dispatched {
      f := t;
      ReachSelf(c.deps, t);
    } else {
      var d :| d in c.deps[t] && !HasStatus(s.dag, d, Completed);
      assert s.dag[d] == Pending;
      f := PendingFront(c, s, rank, d);
      ReachEdge(c.deps, t, d);
      ReachTransitive(c.deps, t, d, f);
    }
  }

  lemma {:induction false} Listing(ts: set<TaskId>) returns (batch: seq<TaskId>)
    ensures Lists(batch, ts)
    decreases ts
  {
    if ts == {} {
      batch := [];
    } else {
      var t :| t in ts;
      var rest := Listing(ts - {t});
      batch := [t] + rest;
      forall x | x in ts
        ensures x in batch
      {
        if x != t {
          assert x in rest;
        }
      }
    }
  }

  /** What a worker that holds a task does next when nothing bounces it. */
  function NextAction(c: Config, m: Msg, pc: Pc): Action
    requires !pc.DoneHook? && !pc.FailHook? && !pc.Retried?
  {
    match pc
    case Taken => PassCompleted
    case NotCompleted => PassKey
    case KeyClear => PassBreaker
    case Admitted => WinClaim
    case Claimed => WriteRunning
    case Started => StoreKey
    case Keyed => Execute
    case Ran(o) =>
      if o == Ok then WriteStateCompleted
      else if o == Retryable && RetriesLeft(c, m) then WriteStateRetrying
      else PublishDeadLetter
    case HalfCompleted => WriteCompletedAndAck
    case HalfRetried => WriteRetried
    case DeadPublished => WriteStateFailed
    case HalfFailed => WriteFailedAndAck
  }

  lemma NextActionCanAct(c: Config, s: State, m: Msg, pc: Pc)
    requires !pc.DoneHook? && !pc.FailHook? && !pc.Retried?
    requires KeysOk(c, s.keys) && CopyOk(c, s, m, pc)
    ensures CanAct(c, s, m, pc, NextAction(c, m, pc))
  {
    hide Key, CountId, Fate, LastAttempt;
    assert m.key == Key(c.workflow, m.id, m.attempt);
  }

  lemma HolderCanMove(c: Config, s: State, w: WorkerId) returns (step: Step)
    requires Inv(c, s) && Busy(s, w)
    ensures Enabled(c, s, step) && !IsBounce(step) && step.w == w
  {
    hide Exclusive, Located, Copies, KeysOk, Resting, Frontier, CopyOk, CanAct, NextAction;
    var m := s.workers[w].m;
    var pc := s.workers[w].pc;
    HeldMessage(c, s, w);
    if pc == DoneHook {
      var batch := Listing(ToDispatch(c, s, m.id));
      step := RunDoneHook(w, batch);
    } else if pc == FailHook {
      step := RunFailHook(w);
    } else if pc == Retried {
      step := Requeue(w, Retry);
    } else {
      NextActionCanAct(c, s, m, pc);
      step := Act(w, NextAction(c, m, pc));
    }
  }

  lemma SomeStepFrom(c: Config, s: State, t: TaskId) returns (step: Step)
    requires Inv(c, s) && (InQueue(s, t) || InHand(s, t))
    ensures Enabled(c, s, step) && !IsBounce(step)
  {
    if w :| Busy(s, w) {
      hide Inv;
      step := HolderCanMove(c, s, w);
    } else {
      hide Exclusive, Located, Copies, KeysOk, Resting, Frontier;
      assert forall w | w in s.workers :: HeldBy(s, w, t) ==> Busy(s, w);
      assert InQueue(s, t);
      var i :| 0 <= i < |s.queue| && s.queue[i].id == t;
      var w :| w in c.workers;
      assert !Busy(s, w);
      step := Take(w, i);
    }
  }

  /** While a task is pending, some worker can take a step that is not a bounce. */
  lemma NoDeadlock(c: Config, s: State) returns (step: Step)
    requires Inv(c, s) && Acyclic(c.deps) && !Complete(s)
    ensures Enabled(c, s, step) && !IsBounce(step)
  {
    hide Exclusive, Copies, KeysOk, Resting, Frontier;
    var rank :| Ranked(c.deps, rank);
    var t :| t in s.dag && s.dag[t] == Pending;
    var f := PendingFront(c, s, rank, t);
    step := SomeStepFrom(c, s, f);
  }

  lemma ReachableNoDeadlock(c: Config, s: State)
    requires Reachable(c, s) && Acyclic(c.deps) && !Complete(s)
    ensures exists step :: Enabled(c, s, step) && !IsBounce(step)
  {
    hide Reachable, Inv, Enabled;
    ReachableInv(c, s);
    var step := NoDeadlock(c, s);
  }

  // ---- termination ----

  const ROUND := 20

  /** Steps still ahead of a message within its current attempt. */
  function PcRank(pc: Pc): (r: nat)
    ensures 5 <= r <= 15
  {
    match pc
    case Taken => 15
    case NotCompleted => 14
    case KeyClear => 13
    case Admitted => 12
    case Claimed => 11
    case Started => 10
    case Keyed => 9
    case Ran(o) => 8
    case HalfCompleted => 7
    case DoneHook => 6
    case HalfRetried => 7
    case Retried => 6
    case DeadPublished => 7
    case HalfFailed => 6
    case FailHook => 5
  }

  function CopyWeight(c: Config, m: Msg, rank: nat): nat {
    if m.id in c.maxAttempts && m.attempt <= c.Budget(m.id) then (c.Budget(m.id) - m.attempt) * ROUND + rank
    else rank
  }

  const QUEUED_RANK := 16

  /** What is left to do for one task. */
  ghost function Weight(c: Config, s: State, t: TaskId): nat {
    if !HasStatus(s.dag, t, Pending) || t !in c.maxAttempts then 0
    else if t !in s.dispatched then c.Budget(t) * ROUND
    else if InHand(s, t) then
      var w :| w in s.workers && HeldBy(s, w, t);
      CopyWeight(c, s.workers[w].m, PcRank(s.workers[w].pc))
    else if InQueue(s, t) then
      var i :| 0 <= i < |s.queue| && s.queue[i].id == t;
      CopyWeight(c, s.queue[i], QUEUED_RANK)
    else 0
  }

  ghost function Measure(c: Config, s: State, order: seq<TaskId>): nat {
    if order == [] then 0 else Weight(c, s, order[0]) + Measure(c, s, order[1..])
  }

  lemma HeldWeight(c: Config, s: State, w: WorkerId)
    requires Inv(c, s) && w in s.workers && s.workers[w].Holding?
    ensures s.workers[w].m.id in c.maxAttempts
    ensures Weight(c, s, s.workers[w].m.id) == CopyWeight(c, s.workers[w].m, PcRank(s.workers[w].pc))
    ensures 1 <= s.workers[w].m.attempt <= c.Budget(s.workers[w].m.id)
  {
    hide Located, KeysOk, Resting, Frontier, Key, Fate, LastAttempt, PcOk, CopyWeight, InQueue;
    var t := s.workers[w].m.id;
    assert CopyOk(c, s, s.workers[w].m, s.workers[w].pc);
    assert InHand(s, t);
    assert forall v | v in s.workers && HeldBy(s, v, t) :: v == w;
  }

  lemma QueuedWeight(c: Config, s: State, i: nat)
    requires Inv(c, s) && i < |s.queue|
    ensures s.queue[i].id in c.maxAttempts
    ensures Weight(c, s, s.queue[i].id) == CopyWeight(c, s.queue[i], QUEUED_RANK)
    ensures 1 <= s.queue[i].attempt <= c.Budget(s.queue[i].id)
  {
    hide Located, KeysOk, Resting, Frontier, Key, Fate, LastAttempt, PcOk, CopyWeight;
    var t := s.queue[i].id;
    assert CopyOk(c, s, s.queue[i], Taken);
    assert InQueue(s, t) && !InHand(s, t);
    assert forall j | 0 <= j < |s.queue| && s.queue[j].id == t :: j == i;
  }

  /** The task a step is about. */
  function Subject(s: State, step: Step): TaskId
    requires step.w in s.workers
    requires if step.Take? then step.i < |s.queue| else s.workers[step.w].Holding?
  {
    if step.Take? then s.queue[step.i].id else s.workers[step.w].m.id
  }

  lemma EnabledSubject(c: Config, s: State, step: Step)
    requires Enabled(c, s, step)
    ensures step.w in s.workers
    ensures if step.Take? then step.i < |s.queue| else s.workers[step.w].Holding?
  {}

  /** Tasks other than t stay where they are, are newly published, or are settled. */
  ghost predicate Elsewhere(s: State, s': State, w: WorkerId, t: TaskId) {
    && (forall v | v in s'.workers && v != w :: v in s.workers && s'.workers[v] == s.workers[v])
    && (w in s'.workers && s'.workers[w].Holding? ==> s'.workers[w].m.id == t)
    && (forall j | 0 <= j < |s'.queue| && s'.queue[j].id != t ::
          s'.queue[j] in s.queue || (s'.queue[j].id !in s.dispatched && s'.queue[j].attempt == 1))
    && (forall x | HasStatus(s'.dag, x, Pending) :: HasStatus(s.dag, x, Pending))
    && s.dispatched <= s'.dispatched
  }

  lemma TakeElsewhere(s: State, w: WorkerId, i: nat)
    requires i < |s.queue|
    ensures Elsewhere(s, Taking(s, w, i), w, s.queue[i].id)
  {
    var s' := Taking(s, w, i);
    forall j | 0 <= j < |s'.queue|
      ensures s'.queue[j] in s.queue
    {
      assert s'.queue[j] == s.queue[if j < i then j else j + 1];
    }
  }

  lemma ActElsewhere(c: Config, s: State, w: WorkerId, action: Action)
    requires Busy(s, w)
    ensures Elsewhere(s, Acted(c, s, w, action), w, s.workers[w].m.id)
  {
    hide RowAfter, PcAfter;
  }

  lemma PutElsewhere(s: State, w: WorkerId, m: Msg)
    ensures Elsewhere(s, Putting(s, w, m), w, m.id)
  {}

  lemma StepElsewhere(c: Config, s: State, step: Step)
    requires Inv(c, s) && Enabled(c, s, step)
    ensures step.w in s.workers && (step.Take? ==> step.i < |s.queue|) && (!step.Take? ==> s.workers[step.w].Holding?)
    ensures Elsewhere(s, Apply(c, s, step), step.w, Subject(s, step))
  {
    EnabledSubject(c, s, step);
    hide Inv, Key, Elsewhere, Enabled, Acted, Putting, Taking, DoneHooked, FailHooked;
    match step
    case RunDoneHook(_, _) => DoneHookElsewhere(c, s, step);
    case RunFailHook(_) => FailHookElsewhere(c, s, step);
    case Take(w, i) => TakeElsewhere(s, w, i);
    case Discard(_, _) => GuardsNeverDrop(c, s, step);
    case Act(w, action) => ActElsewhere(c, s, w, action);
    case Requeue(w, why) => PutElsewhere(s, w, Requeued(c, s.workers[w].m, why));
  }

  lemma GrownElsewhere(s: State, s': State, w: WorkerId, t: TaskId, batch: seq<TaskId>, added: set<TaskId>)
    requires Grown(s, s', w, t, batch, added)
    requires forall j | |s.queue| <= j < |s'.queue| :: s'.queue[j].id !in s.dispatched && s'.queue[j].attempt == 1
    ensures Elsewhere(s, s', w, t)
  {}

  lemma DoneHookElsewhere(c: Config, s: State, step: Step)
    requires Inv(c, s) && Enabled(c, s, step) && step.RunDoneHook?
    ensures Busy(s, step.w)
    ensures Elsewhere(s, Apply(c, s, step), step.w, s.workers[step.w].m.id)
  {
    hide Exclusive, Located, Copies, KeysOk, Frontier, Resting, Key, Grown, Elsewhere, DepsCompleted, Lists, Apply;
    DoneHookGrown(c, s, step);
    var s' := Apply(c, s, step);
    var added := ToDispatch(c, s, s.workers[step.w].m.id);
    forall j | |s.queue| <= j < |s'.queue|
      ensures s'.queue[j].id !in s.dispatched && s'.queue[j].attempt == 1
    {
      var x := step.batch[j - |s.queue|];
      ListedFresh(c, s, s.workers[step.w].m.id, step.batch, j - |s.queue|);
      UndispatchedFresh(c, s, x);
    }
    GrownElsewhere(s, s', step.w, s.workers[step.w].m.id, step.batch, added);
  }

  lemma ListedFresh(c: Config, s: State, t: TaskId, batch: seq<TaskId>, j: nat)
    requires Lists(batch, ToDispatch(c, s, t)) && j < |batch| && s.dag.Keys == c.deps.Keys
    ensures batch[j] in c.deps && s.dag[batch[j]] == Pending && batch[j] !in s.dispatched
  {
    assert batch[j] in ToDispatch(c, s, t);
  }

  lemma UndispatchedFresh(c: Config, s: State, x: TaskId)
    requires c.Valid() && Shape(c, s) && x in c.deps && Resting(c, s, x)
    requires s.dag[x] == Pending && x !in s.dispatched
    ensures s.rows[x] == FRESH_ROW
  {}

  lemma FailHookElsewhere(c: Config, s: State, step: Step)
    requires Inv(c, s) && Enabled(c, s, step) && step.RunFailHook?
    ensures Busy(s, step.w)
    ensures Elsewhere(s, Apply(c, s, step), step.w, s.workers[step.w].m.id)
  {
    FailHookFallen(c, s, step);
    hide Inv, Apply, Enabled, Cascaded, Fallen;
    FallenElsewhere(s, Apply(c, s, step), step.w, s.workers[step.w].m.id, Cascaded(c, s, s.workers[step.w].m.id));
  }

  lemma FallenElsewhere(s: State, s': State, w: WorkerId, t: TaskId, down: set<TaskId>)
    requires Fallen(s, s', w, t, down)
    ensures Elsewhere(s, s', w, t)
  {}

  lemma OtherWeight(c: Config, s: State, s': State, w: WorkerId, t: TaskId, x: TaskId)
    requires Inv(c, s) && Inv(c, s') && Elsewhere(s, s', w, t) && x != t
    ensures Weight(c, s', x) <= Weight(c, s, x)
  {
    hide Inv, CopyWeight;
    if HasStatus(s'.dag, x, Pending) && x in c.maxAttempts && x in s'.dispatched {
      if InHand(s', x) {
        var v :| v in s'.workers && HeldBy(s', v, x);
        HeldWeight(c, s', v);
        HeldWeight(c, s, v);
      } else if InQueue(s', x) {
        var j :| 0 <= j < |s'.queue| && s'.queue[j].id == x;
        hide Elsewhere, Weight;
        QueuedWeight(c, s', j);
        QueueWeightFalls(c, s, s', w, t, j);
      }
    }
  }

  lemma QueueWeightFalls(c: Config, s: State, s': State, w: WorkerId, t: TaskId, j: nat)
    requires Inv(c, s) && Elsewhere(s, s', w, t) && j < |s'.queue| && s'.queue[j].id != t
    requires HasStatus(s'.dag, s'.queue[j].id, Pending) && s'.queue[j].id in c.maxAttempts
    requires s'.queue[j].attempt <= c.Budget(s'.queue[j].id)
    ensures CopyWeight(c, s'.queue[j], QUEUED_RANK) <= Weight(c, s, s'.queue[j].id)
  {
    var m := s'.queue[j];
    if m in s.queue {
      hide Inv, CopyWeight, Weight;
      var i :| 0 <= i < |s.queue| && s.queue[i] == m;
      QueuedWeight(c, s, i);
    } else {
      hide Inv;
      FirstWeight(c, m);
    }
  }

  lemma FirstWeight(c: Config, m: Msg)
    requires m.id in c.maxAttempts && m.attempt == 1
    ensures CopyWeight(c, m, QUEUED_RANK) <= c.Budget(m.id) * ROUND
  {}

  /** How the weight of the task a step is about changes. */
  lemma SubjectWeight(c: Config, s: State, step: Step)
    requires Inv(c, s) && Enabled(c, s, step) && Inv(c, Apply(c, s, step))
    ensures step.w in s.workers && (step.Take? ==> step.i < |s.queue|) && (!step.Take? ==> s.workers[step.w].Holding?)
    ensures if IsBounce(step) then Weight(c, Apply(c, s, step), Subject(s, step)) <= Weight(c, s, Subject(s, step)) + 3
            else Weight(c, Apply(c, s, step), Subject(s, step)) < Weight(c, s, Subject(s, step))
  {
    EnabledSubject(c, s, step);
    hide Inv, Weight, Apply, Enabled;
    match step
    case Take(_, _) => TakeWeight(c, s, step);
    case Act(_, _) => ActWeight(c, s, step);
    case Requeue(_, _) => RequeueWeight(c, s, step);
    case Discard(_, _) => GuardsNeverDrop(c, s, step);
    case _ => HookWeight(c, s, step);
  }

  lemma TakeWeight(c: Config, s: State, step: Step)
    requires Inv(c, s) && Enabled(c, s, step) && Inv(c, Apply(c, s, step)) && step.Take?
    ensures Weight(c, Apply(c, s, step), s.queue[step.i].id) < Weight(c, s, s.queue[step.i].id)
  {
    hide Inv, Weight;
    QueuedWeight(c, s, step.i);
    HeldWeight(c, Apply(c, s, step), step.w);
  }

  lemma ActedRank(c: Config, s: State, m: Msg, pc: Pc, action: Action)
    requires CanAct(c, s, m, pc, action)
    ensures PcRank(PcAfter(c, m, action)) < PcRank(pc)
  {}

  lemma ActWeight(c: Config, s: State, step: Step)
    requires Inv(c, s) && Enabled(c, s, step) && Inv(c, Apply(c, s, step)) && step.Act?
    ensures Busy(s, step.w)
    ensures Weight(c, Apply(c, s, step), s.workers[step.w].m.id) < Weight(c, s, s.workers[step.w].m.id)
  {
    hide Inv, Weight, RowAfter, PcAfter, PcRank, CanAct;
    HeldWeight(c, s, step.w);
    HeldWeight(c, Apply(c, s, step), step.w);
    ActedRank(c, s, s.workers[step.w].m, s.workers[step.w].pc, step.action);
  }

  lemma RequeueWeight(c: Config, s: State, step: Step)
    requires Inv(c, s) && Enabled(c, s, step) && Inv(c, Apply(c, s, step)) && step.Requeue?
    ensures Busy(s, step.w)
    ensures if IsBounce(step) then
              Weight(c, Apply(c, s, step), s.workers[step.w].m.id) <= Weight(c, s, s.workers[step.w].m.id) + 3
            else Weight(c, Apply(c, s, step), s.workers[step.w].m.id) < Weight(c, s, s.workers[step.w].m.id)
  {
    hide Inv, Weight, Key;
    var s' := Apply(c, s, step);
    HeldWeight(c, s, step.w);
    QueuedWeight(c, s', |s.queue|);
    if step.why == Retry {
      RetryWeight(c, s.workers[step.w].m, s'.queue[|s.queue|]);
    }
  }

  lemma RetryWeight(c: Config, m: Msg, m': Msg)
    requires m.id in c.maxAttempts && m'.id == m.id && m'.attempt == m.attempt + 1
    requires m'.attempt <= c.Budget(m.id)
    ensures CopyWeight(c, m', QUEUED_RANK) < CopyWeight(c, m, PcRank(Retried))
  {}

  lemma HookWeight(c: Config, s: State, step: Step)
    requires Inv(c, s) && Enabled(c, s, step) && (step.RunDoneHook? || step.RunFailHook?)
    ensures Weight(c, Apply(c, s, step), s.workers[step.w].m.id) < Weight(c, s, s.workers[step.w].m.id)
  {
    hide Inv, Weight;
    HeldWeight(c, s, step.w);
    SettledWeight(c, s, step);
  }

  lemma SettledWeight(c: Config, s: State, step: Step)
    requires Inv(c, s) && Enabled(c, s, step) && (step.RunDoneHook? || step.RunFailHook?)
    ensures Weight(c, Apply(c, s, step), s.workers[step.w].m.id) == 0
  {
    hide Inv;
    if step.RunDoneHook? {
      DoneHookGrown(c, s, step);
    } else {
      FailHookFallen(c, s, step);
    }
  }

  lemma {:induction false} MeasureFalls(c: Config, s: State, s': State, order: seq<TaskId>, t: TaskId, gain: int)
    requires forall i, j | 0 <= i < j < |order| :: order[i] != order[j]
    requires forall x | x in order && x != t :: Weight(c, s', x) <= Weight(c, s, x)
    requires Weight(c, s', t) <= Weight(c, s, t) + gain
    ensures Measure(c, s', order) <= Measure(c, s, order) + (if t in order then gain else 0)
  {
    hide Weight;
    if order != [] {
      assert forall x | x in order[1..] :: x in order;
      MeasureFalls(c, s, s', order[1..], t, gain);
      if order[0] == t {
        assert t !in order[1..];
      }
    }
  }

  /** Every step that is not a bounce lowers the measure; a bounce raises it by three at most. */
  lemma StepMeasure(c: Config, s: State, step: Step, order: seq<TaskId>)
    requires Inv(c, s) && Enabled(c, s, step) && Lists(order, c.deps.Keys)
    ensures if IsBounce(step) then Measure(c, Apply(c, s, step), order) <= Measure(c, s, order) + 3
            else Measure(c, Apply(c, s, step), order) < Measure(c, s, order)
  {
    hide Apply, Weight, Enabled, IsBounce, Inv;
    var s' := Apply(c, s, step);
    StepInv(c, s, step);
    StepElsewhere(c, s, step);
    SubjectWeight(c, s, step);
    var t := Subject(s, step);
    SubjectKnown(c, s, step);
    forall x | x in order && x != t
      ensures Weight(c, s', x) <= Weight(c, s, x)
    {
      OtherWeight(c, s, s', step.w, t, x);
    }
    MeasureFalls(c, s, s', order, t, if IsBounce(step) then 3 else -1);
  }

  lemma SubjectKnown(c: Config, s: State, step: Step)
    requires Inv(c, s) && Enabled(c, s, step)
    requires step.w in s.workers
    requires if step.Take? then step.i < |s.queue| else s.workers[step.w].Holding?
    ensures Subject(s, step) in c.deps
  {
    hide Located, Exclusive, KeysOk, Resting, Frontier, MsgOk, PcOk, Enabled;
    if step.Take? {
      assert CopyOk(c, s, s.queue[step.i], Taken);
    } else {
      assert CopyOk(c, s, s.workers[step.w].m, s.workers[step.w].pc);
    }
  }

  /** A run is no longer than its bounces and the measure it starts with allow. */
  lemma {:induction false} RunLength(c: Config, s: State, steps: seq<Step>, s': State, order: seq<TaskId>)
    requires Inv(c, s) && Run(c, s, steps, s') && Lists(order, c.deps.Keys)
    ensures |steps| + Measure(c, s', order) <= Measure(c, s, order) + 4 * Bounces(steps)
    decreases |steps|
  {
    hide Inv, Apply, Enabled, IsBounce, Measure, Lists;
    if steps != [] {
      StepInv(c, s, steps[0]);
      StepMeasure(c, s, steps[0], order);
      RunLength(c, Apply(c, s, steps[0]), steps[1..], s', order);
    }
  }

  lemma {:induction false} FinishFrom(c: Config, s: State, order: seq<TaskId>) returns (steps: seq<Step>, s': State)
    requires Inv(c, s) && Acyclic(c.deps) && Lists(order, c.deps.Keys)
    ensures Run(c, s, steps, s') && Complete(s') && Bounces(steps) == 0
    decreases Measure(c, s, order)
  {
    hide Inv, Apply, Enabled, IsBounce, Measure, Lists, Complete, Acyclic;
    if Complete(s) {
      steps, s' := [], s;
    } else {
      var step := NoDeadlock(c, s);
      StepInv(c, s, step);
      StepMeasure(c, s, step, order);
      var rest;
      rest, s' := FinishFrom(c, Apply(c, s, step), order);
      steps := [step] + rest;
      assert steps[0] == step && steps[1..] == rest;
    }
  }

  /** From every reachable state of an acyclic plan the run can be brought to its end without a bounce. */
  lemma CanAlwaysFinish(c: Config, s: State)
    requires Reachable(c, s) && Acyclic(c.deps)
    ensures exists steps, s' :: Run(c, s, steps, s') && Complete(s') && Bounces(steps) == 0
  {
    hide Reachable, Inv, Run, Complete, Bounces, Acyclic;
    ReachableInv(c, s);
    var order := Listing(c.deps.Keys);
    var steps, s' := FinishFrom(c, s, order);
  }

  // ---- the bound in terms of the plan ----

  ghost function TotalBudget(c: Config, order: seq<TaskId>): nat {
    if order == [] then 0
    else (if order[0] in c.maxAttempts then c.Budget(order[0]) else 0) + TotalBudget(c, order[1..])
  }

  lemma WeightBound(c: Config, s: State, t: TaskId)
    requires Inv(c, s)
    ensures Weight(c, s, t) <= if t in c.maxAttempts then c.Budget(t) * ROUND else 0
  {
    hide Inv;
    if HasStatus(s.dag, t, Pending) && t in c.maxAttempts && t in s.dispatched {
      if InHand(s, t) {
        var w :| w in s.workers && HeldBy(s, w, t);
        HeldWeight(c, s, w);
      } else if InQueue(s, t) {
        var i :| 0 <= i < |s.queue| && s.queue[i].id == t;
        QueuedWeight(c, s, i);
      }
    }
  }

  lemma {:induction false} MeasureBound(c: Config, s: State, order: seq<TaskId>)
    requires Inv(c, s)
    ensures Measure(c, s, order) <= TotalBudget(c, order) * ROUND
  {
    hide Inv, Weight;
    if order != [] {
      WeightBound(c, s, order[0]);
      MeasureBound(c, s, order[1..]);
    }
  }

  /** Any run takes at most 20 steps for each attempt the plan allows, and four more for each bounce. */
  lemma RunsAreBounded(c: Config, s0: State, steps: seq<Step>, s: State, order: seq<TaskId>)
    requires Init(c, s0) && Run(c, s0, steps, s) && Lists(order, c.deps.Keys)
    ensures |steps| <= TotalBudget(c, order) * 20 + 4 * Bounces(steps)
  {
    hide Init, Run, Inv, Measure, TotalBudget, Bounces;
    InitInv(c, s0);
    RunLength(c, s0, steps, s, order);
    MeasureBound(c, s0, order);
  }

  /** The engine's promise for an acyclic plan: a run can start, and it can be completed. */
  lemma EveryPlanCompletes(c: Config)
    requires c.Valid() && Acyclic(c.deps)
    ensures exists s :: Reachable(c, s) && Complete(s)
  {
    var roots := Roots(c.deps);
    var batch := Listing(roots);
    var rows: Table := map t | t in c.deps :: FRESH_ROW;
    var s0 := State(rows, map[], Messages(c, rows, batch), [], map w | w in c.workers :: Idle,
                    map t | t in c.deps :: Pending, roots, map t | t in c.deps :: 0);
    assert Init(c, s0);
    hide Init, Complete, Acyclic;
    assert Run(c, s0, [], s0);
    CanAlwaysFinish(c, s0);
    var steps, s :| Run(c, s0, steps, s) && Complete(s) && Bounces(steps) == 0;
    assert Reachable(c, s);
  }
}
