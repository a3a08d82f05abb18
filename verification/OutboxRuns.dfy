/**
 Whole lives of an outbox: sweeps statement by statement, events inserted at any
 moment, and a crash of the relay allowed between any two statements.
 */
module OutboxRuns {
  import opened Contract
  import opened Timestamps
  import opened Outbox

  datatype Pc =
    | Resting
    | Sweeping(todo: seq<RowId>, sent: seq<RowId>, now: int)

  /** `emitted` counts what the bus accepted; `crashes` how often the relay died. */
  datatype State = State(rows: Table, pc: Pc, emitted: map<RowId, nat>, crashes: nat)

  datatype Step =
    | Insert(id: RowId)
    | Begin(batch: seq<RowId>, now: int)
    | Emit
    | Fail(retryable: bool)
    | Finish
    | Crash

  ghost predicate Enabled(p: Policy, s: State, step: Step) {
    match step
    case Insert(id) => id !in s.rows
    case Begin(batch, now) =>
      s.pc.Resting? && p.Valid() && p.ClockOk(now) && exists limit: int :: IsBatch(batch, s.rows, limit, Iso(now))
    case Emit => s.pc.Sweeping? && s.pc.todo != [] && s.pc.todo[0] in s.emitted
    case Fail(_) => s.pc.Sweeping? && s.pc.todo != [] && s.pc.todo[0] in s.rows && p.Valid() && p.ClockOk(s.pc.now)
    case Finish => s.pc.Sweeping? && s.pc.todo == []
    case Crash => s.pc.Sweeping?
  }

  ghost function Apply(p: Policy, s: State, step: Step): State
    requires Enabled(p, s, step)
  {
    match step
    case Insert(id) => s.(rows := s.rows[id := NEW_ROW], emitted := s.emitted[id := 0])
    case Begin(batch, now) => s.(pc := Sweeping(batch, [], now))
    case Emit =>
      var id := s.pc.todo[0];
      s.(pc := Sweeping(s.pc.todo[1..], s.pc.sent + [id], s.pc.now), emitted := s.emitted[id := s.emitted[id] + 1])
    case Fail(retryable) =>
      var id := s.pc.todo[0];
      s.(pc := Sweeping(s.pc.todo[1..], s.pc.sent, s.pc.now),
         rows := s.rows[id := FailedRow(p, s.rows[id], retryable, s.pc.now)])
    case Finish => s.(pc := Resting, rows := MarkPublished(s.rows, s.pc.sent))
    case Crash => s.(pc := Resting, crashes := s.crashes + 1)
  }

  const EMPTY := State(map[], Resting, map[], 0)

  ghost predicate Run(p: Policy, s: State, steps: seq<Step>, s': State)
    decreases |steps|
  {
    if steps == [] then s' == s
    else Enabled(p, s, steps[0]) && Run(p, Apply(p, s, steps[0]), steps[1..], s')
  }

  ghost predicate Reachable(p: Policy, s: State) {
    exists steps :: Run(p, EMPTY, steps, s)
  }

  // ---- the invariant ----

  predicate InSent(pc: Pc, id: RowId) {
    pc.Sweeping? && id in pc.sent
  }

  /** A row's flags, attempts and emissions, against what the relay has in memory. */
  predicate RowOk(p: Policy, s: State, id: RowId)
    requires id in s.rows && id in s.emitted
  {
    var row, n := s.rows[id], s.emitted[id];
    && !(row.published && row.dead)
    && (row.dead ==> 1 <= row.attempts <= p.Budget())
    && (!row.dead ==> row.attempts < p.Budget())
    && (row.published || InSent(s.pc, id) ==> 1 <= n)
    && n <= s.crashes + if row.published || InSent(s.pc, id) then 1 else 0
  }

  predicate Inv(p: Policy, s: State) {
    && s.emitted.Keys == s.rows.Keys
    && (forall id | id in s.rows :: RowOk(p, s, id))
    && (s.pc.Sweeping? ==>
          && Distinct(s.pc.sent + s.pc.todo)
          && forall id | id in s.pc.sent + s.pc.todo :: id in s.rows && Waiting(s.rows[id]))
  }

  lemma BeginInv(p: Policy, s: State, batch: seq<RowId>, now: int)
    requires Inv(p, s) && Enabled(p, s, Begin(batch, now))
    ensures Inv(p, Apply(p, s, Begin(batch, now)))
  {
    hide Iso;
    var s' := Apply(p, s, Begin(batch, now));
    assert [] + batch == batch;
    forall id | id in s'.rows
      ensures RowOk(p, s', id)
    {
      assert RowOk(p, s, id);
    }
  }

  lemma HeadMoved(sent: seq<RowId>, todo: seq<RowId>)
    requires todo != []
    ensures sent + [todo[0]] + todo[1..] == sent + todo
    ensures Distinct(sent + todo) ==> Distinct(sent + todo[1..]) && todo[0] !in sent && todo[0] !in todo[1..]
    ensures forall id :: id in sent + todo[1..] ==> id in sent + todo
    ensures todo[0] in sent + todo
    ensures forall id :: id in sent + [todo[0]] <==> id in sent || id == todo[0]
  {
    var all := sent + todo;
    assert all[|sent|] == todo[0];
    var left := sent + todo[1..];
    forall i, j | 0 <= i < j < |left|
      ensures Distinct(all) ==> left[i] != left[j]
    {
      assert left[i] == all[if i < |sent| then i else i + 1];
      assert left[j] == all[if j < |sent| then j else j + 1];
    }
    forall i | 0 <= i < |sent|
      ensures Distinct(all) ==> sent[i] != todo[0]
    {
      assert all[i] == sent[i];
    }
    forall i | 0 <= i < |todo| - 1
      ensures Distinct(all) ==> todo[1..][i] != todo[0]
    {
      assert all[|sent| + 1 + i] == todo[1..][i];
    }
  }

  lemma EmitInv(p: Policy, s: State)
    requires Inv(p, s) && Enabled(p, s, Emit)
    ensures Inv(p, Apply(p, s, Emit))
  {
    hide Distinct;
    var s' := Apply(p, s, Emit);
    HeadMoved(s.pc.sent, s.pc.todo);
    forall id | id in s'.rows
      ensures RowOk(p, s', id)
    {
      assert RowOk(p, s, id);
    }
  }

  lemma FailedRowOk(p: Policy, row: Row, retryable: bool, now: int)
    requires p.Valid() && p.ClockOk(now) && Waiting(row) && row.attempts < p.Budget()
    ensures var row' := FailedRow(p, row, retryable, now);
            !row'.published && row'.attempts == row.attempts + 1
            && (row'.dead || row'.attempts < p.Budget())
  {
    hide Iso, Representable;
  }

  lemma FailInv(p: Policy, s: State, retryable: bool)
    requires Inv(p, s) && Enabled(p, s, Fail(retryable))
    ensures Inv(p, Apply(p, s, Fail(retryable)))
  {
    hide Distinct, FailedRow, Representable;
    var s' := Apply(p, s, Fail(retryable));
    HeadMoved(s.pc.sent, s.pc.todo);
    assert RowOk(p, s, s.pc.todo[0]);
    FailedRowOk(p, s.rows[s.pc.todo[0]], retryable, s.pc.now);
    forall id | id in s'.rows
      ensures RowOk(p, s', id)
    {
      assert RowOk(p, s, id);
    }
    assert forall id | id in s'.pc.sent + s'.pc.todo :: id != s.pc.todo[0];
  }

  lemma StepInv(p: Policy, s: State, step: Step)
    requires Inv(p, s) && Enabled(p, s, step)
    ensures Inv(p, Apply(p, s, step))
  {
    match step
    case Begin(batch, now) => hide Inv; BeginInv(p, s, batch, now);
    case Emit => hide Inv; EmitInv(p, s);
    case Fail(retryable) => hide Inv; FailInv(p, s, retryable);
    case _ =>
      hide FailedRow, IsBatch, Distinct, Iso;
      var s' := Apply(p, s, step);
      forall id | id in s'.rows
        ensures RowOk(p, s', id)
      {
        assert id in s.rows ==> RowOk(p, s, id);
      }
  }

  lemma {:induction false} RunInv(p: Policy, s: State, steps: seq<Step>, s': State)
    requires Inv(p, s) && Run(p, s, steps, s')
    ensures Inv(p, s')
    decreases |steps|
  {
    hide Inv, Enabled, Apply;
    if steps != [] {
      StepInv(p, s, steps[0]);
      RunInv(p, Apply(p, s, steps[0]), steps[1..], s');
    }
  }

  // ---- theorems ----

  /**
   At any moment of any life: a row is waiting, published or dead-lettered and
   never two of them; a waiting row has attempts left and a dead one has used no
   more than its cap; a published row was accepted by the bus at least once, and
   any row at most once more than the relay crashed; what is still waiting or dead
   was accepted only in sweeps that crashed, or in the one under way.
   */
  lemma OutboxSafety(p: Policy, s: State, id: RowId)
    requires Reachable(p, s) && id in s.rows
    ensures id in s.emitted
    ensures var row, n := s.rows[id], s.emitted[id];
            && !(row.published && row.dead)
            && (Waiting(row) ==> row.attempts < p.Budget())
            && (row.dead ==> 1 <= row.attempts <= p.Budget())
            && (row.published ==> 1 <= n <= s.crashes + 1)
            && (!row.published ==> n <= s.crashes + if InSent(s.pc, id) then 1 else 0)
  {
    var steps :| Run(p, EMPTY, steps, s);
    hide Run;
    assert Inv(p, EMPTY);
    RunInv(p, EMPTY, steps, s);
    assert RowOk(p, s, id);
  }

  /** Between sweeps of a relay that never crashed: accepted exactly once if published, and never otherwise. */
  lemma ExactlyOnceWithoutCrashes(p: Policy, s: State, id: RowId)
    requires Reachable(p, s) && id in s.rows && s.crashes == 0 && s.pc.Resting?
    ensures id in s.emitted && s.emitted[id] == if s.rows[id].published then 1 else 0
  {
    hide Reachable;
    OutboxSafety(p, s, id);
  }

  predicate Over(row: Row) {
    row.published || row.dead
  }

  /**
   A recorded failure is the end of a row exactly when it is not retryable or the
   policy's cap is reached; otherwise the row can be selected again exactly from
   the moment on that the schedule's entry for its attempts, or the last, says.
   */
  lemma FailedIsHeldBack(p: Policy, s: State, retryable: bool)
    requires Reachable(p, s) && Enabled(p, s, Fail(retryable))
    ensures var id, now, rows := s.pc.todo[0], s.pc.now, Apply(p, s, Fail(retryable)).rows;
            var cap := if p.maxAttempts == 0 then p.policyMax else p.maxAttempts;
            && id in s.rows && id in rows && rows[id].attempts == s.rows[id].attempts + 1
            && (rows[id].dead <==> !(retryable && rows[id].attempts < cap))
            && (!rows[id].dead ==>
                  var n, last := rows[id].attempts, |p.schedule|;
                  last >= 1 && DueFrom(rows, id, now + 1_000_000 * p.schedule[(if n < last then n else last) - 1]))
  {
    hide *;
    ReachableInv(p, s);
    FailHits(p, s, retryable);
    var id, now, rows := s.pc.todo[0], s.pc.now, Apply(p, s, Fail(retryable)).rows;
    FailedRowIs(p, s.rows[id], retryable, now);
    if !rows[id].dead {
      DueAgain(p, s.rows[id], retryable, now, rows, id);
    }
  }

  lemma FailHits(p: Policy, s: State, retryable: bool)
    requires Inv(p, s) && Enabled(p, s, Fail(retryable))
    ensures s.pc.Sweeping? && s.pc.todo != [] && p.Valid() && p.ClockOk(s.pc.now)
    ensures var id, rows := s.pc.todo[0], Apply(p, s, Fail(retryable)).rows;
            && id in s.rows && Waiting(s.rows[id]) && id in rows
            && rows[id] == FailedRow(p, s.rows[id], retryable, s.pc.now)
  {
    HeadMoved(s.pc.sent, s.pc.todo);
    hide Policy.ClockOk, FailedRow, Distinct, RowOk;
  }

  /** Published and dead-lettered rows are never touched, nor emitted, again. */
  lemma OverIsFinal(p: Policy, s: State, step: Step, id: RowId)
    requires Reachable(p, s) && Enabled(p, s, step) && id in s.rows && Over(s.rows[id])
    ensures var s' := Apply(p, s, step);
            id in s'.rows && s'.rows[id] == s.rows[id]
            && id in s.emitted && id in s'.emitted && s'.emitted[id] == s.emitted[id]
  {
    var steps :| Run(p, EMPTY, steps, s);
    hide Run, FailedRow, IsBatch, Iso;
    assert Inv(p, EMPTY);
    RunInv(p, EMPTY, steps, s);
    if step.Finish? {
      assert s.pc.sent + s.pc.todo == s.pc.sent;
    } else if step.Emit? || step.Fail? {
      HeadMoved(s.pc.sent, s.pc.todo);
    }
  }

  // ---- no event is retried for ever ----

  /** The statement that decides what a sweep made of a row: its failure is recorded, or it is among those marked. */
  predicate Decides(s: State, step: Step, id: RowId) {
    s.pc.Sweeping? &&
    match step
    case Fail(_) => s.pc.todo != [] && s.pc.todo[0] == id
    case Finish => id in s.pc.sent
    case _ => false
  }

  /** How often a run decides about a row. */
  ghost function Decisions(p: Policy, s: State, steps: seq<Step>, id: RowId): nat
    decreases |steps|
  {
    if steps == [] || !Enabled(p, s, steps[0]) then 0
    else (if Decides(s, steps[0], id) then 1 else 0) + Decisions(p, Apply(p, s, steps[0]), steps[1..], id)
  }

  /** What the row itself shows of that. */
  function Shown(s: State, id: RowId): nat {
    if id in s.rows then s.rows[id].attempts + (if s.rows[id].published then 1 else 0) else 0
  }

  lemma DecisionShows(p: Policy, s: State, step: Step, id: RowId)
    requires Inv(p, s) && Enabled(p, s, step)
    ensures Shown(Apply(p, s, step), id) == Shown(s, id) + if Decides(s, step, id) then 1 else 0
  {
    hide IsBatch, Iso, Distinct, FailedRow, Representable;
    match step
    case Fail(retryable) =>
      HeadMoved(s.pc.sent, s.pc.todo);
      assert RowOk(p, s, s.pc.todo[0]);
      FailedRowOk(p, s.rows[s.pc.todo[0]], retryable, s.pc.now);
    case Finish =>
      assert forall x | x in s.pc.sent :: x in s.pc.sent + s.pc.todo;
    case _ =>
  }

  lemma {:induction false} DecisionsShow(p: Policy, s: State, steps: seq<Step>, s': State, id: RowId)
    requires Inv(p, s) && Run(p, s, steps, s')
    ensures Shown(s', id) == Shown(s, id) + Decisions(p, s, steps, id)
    decreases |steps|
  {
    hide Inv, Enabled, Apply, Decides, Shown;
    if steps != [] {
      DecisionShows(p, s, steps[0], id);
      StepInv(p, s, steps[0]);
      DecisionsShow(p, Apply(p, s, steps[0]), steps[1..], s', id);
    }
  }

  /**
   No event is retried for ever: in any run, crashes included, sweeps decide about a
   row no more often than it has attempts, and with the last decision it is over.
   */
  lemma OverWithinBudget(p: Policy, steps: seq<Step>, s: State, id: RowId)
    requires Run(p, EMPTY, steps, s) && id in s.rows
    ensures var cap := if p.maxAttempts == 0 then p.policyMax else p.maxAttempts;
            var budget := if cap < 1 then 1 else cap;
            && Decisions(p, EMPTY, steps, id) <= budget
            && (Decisions(p, EMPTY, steps, id) == budget ==> Over(s.rows[id]))
  {
    hide Run, Decisions;
    assert Inv(p, EMPTY);
    RunInv(p, EMPTY, steps, s);
    DecisionsShow(p, EMPTY, steps, s, id);
    assert RowOk(p, s, id);
  }

  lemma {:induction false} RestDecides(p: Policy, s: State, steps: seq<Step>, s': State, id: RowId)
    requires Inv(p, s) && s.pc.Sweeping? && Run(p, s, steps + [Finish], s')
    requires forall step | step in steps :: !step.Crash? && !step.Finish?
    ensures Decisions(p, s, steps + [Finish], id) == if id in s.pc.sent + s.pc.todo then 1 else 0
    decreases |steps|
  {
    var all := steps + [Finish];
    hide FailedRow, IsBatch, Iso, RowOk;
    if steps == [] {
      assert all[0] == Finish && all[1..] == [];
      assert s.pc.todo == [] && s.pc.sent + s.pc.todo == s.pc.sent;
    } else {
      var step, t := steps[0], Apply(p, s, steps[0]);
      assert step in steps && all[0] == step && all[1..] == steps[1..] + [Finish];
      StepInv(p, s, step);
      hide Inv;
      RestDecides(p, t, steps[1..], s', id);
      if step.Emit? || step.Fail? {
        HeadSplit(s.pc.sent, s.pc.todo, id);
      }
    }
  }

  lemma HeadSplit(sent: seq<RowId>, todo: seq<RowId>, id: RowId)
    requires todo != []
    ensures sent + [todo[0]] + todo[1..] == sent + todo
    ensures Distinct(sent + todo) ==> (id in sent + todo <==> id in sent + todo[1..] || id == todo[0])
    ensures Distinct(sent + todo) ==> todo[0] !in sent + todo[1..]
  {
    HeadMoved(sent, todo);
    hide Distinct;
  }

  lemma BeginsSweep(p: Policy, s: State, batch: seq<RowId>, now: int)
    requires Enabled(p, s, Begin(batch, now))
    ensures Apply(p, s, Begin(batch, now)).pc == Sweeping(batch, [], now)
    ensures forall id :: !Decides(s, Begin(batch, now), id)
  {}

  /** A sweep that is not cut short decides once about each row of its batch, and about no other. */
  lemma SweepDecidesOnce(p: Policy, s: State, batch: seq<RowId>, now: int, steps: seq<Step>, s': State, id: RowId)
    requires Reachable(p, s) && Run(p, s, [Begin(batch, now)] + steps + [Finish], s')
    requires forall step | step in steps :: !step.Crash? && !step.Finish?
    ensures Decisions(p, s, [Begin(batch, now)] + steps + [Finish], id) == if id in batch then 1 else 0
  {
    var all, begin := [Begin(batch, now)] + steps + [Finish], Begin(batch, now);
    hide *;
    WholeSweep(batch, now, steps);
    ReachableInv(p, s);
    FirstDecision(p, s, all, s', id);
    BeginsSweep(p, s, batch, now);
    StepInv(p, s, begin);
    RestDecides(p, Apply(p, s, begin), steps, s', id);
  }

  lemma WholeSweep(batch: seq<RowId>, now: int, steps: seq<Step>)
    ensures var all := [Begin(batch, now)] + steps + [Finish];
            all != [] && all[0] == Begin(batch, now) && all[1..] == steps + [Finish]
    ensures [] + batch == batch
  {}

  lemma FirstDecision(p: Policy, s: State, steps: seq<Step>, s': State, id: RowId)
    requires Run(p, s, steps, s') && steps != []
    ensures Enabled(p, s, steps[0]) && Run(p, Apply(p, s, steps[0]), steps[1..], s')
    ensures Decisions(p, s, steps, id)
         == (if Decides(s, steps[0], id) then 1 else 0) + Decisions(p, Apply(p, s, steps[0]), steps[1..], id)
  {
    hide Enabled, Apply, Decides;
  }

  lemma ReachableInv(p: Policy, s: State)
    requires Reachable(p, s)
    ensures Inv(p, s)
  {
    var steps :| Run(p, EMPTY, steps, s);
    assert Inv(p, EMPTY);
    hide Inv, Run;
    RunInv(p, EMPTY, steps, s);
  }

  // ---- a sweep of the relay is such a run ----

  predicate Crashless(steps: seq<Step>) {
    forall i | 0 <= i < |steps| :: !steps[i].Crash? && !steps[i].Insert?
  }

  function StepFor(e: Emission): Step {
    match e case Emitted => Emit case RetryableFault => Fail(true) case FatalFault => Fail(false)
  }

  /** The statements of a sweep over a batch. */
  function SweepSteps(batch: seq<RowId>, now: int, bus: RowId -> Emission): (r: seq<Step>)
    ensures Crashless(r)
  {
    [Begin(batch, now)] + seq(|batch|, i requires 0 <= i < |batch| => StepFor(bus(batch[i]))) + [Finish]
  }

  lemma {:induction false} RunAppend(p: Policy, s: State, steps: seq<Step>, s': State, step: Step)
    requires Run(p, s, steps, s') && Enabled(p, s', step)
    ensures Run(p, s, steps + [step], Apply(p, s', step))
    decreases |steps|
  {
    hide Apply, Enabled;
    if steps == [] {
      assert [step][1..] == [];
    } else {
      RunAppend(p, Apply(p, s, steps[0]), steps[1..], s', step);
      assert (steps + [step])[1..] == steps[1..] + [step];
    }
  }

  function Counted(emitted: map<RowId, nat>, ids: seq<RowId>): map<RowId, nat> {
    map id | id in emitted :: emitted[id] + if id in ids then 1 else 0
  }

  /** Part of the way through a sweep. */
  function Partway(p: Policy, s: State, batch: seq<RowId>, i: nat, now: int, bus: RowId -> Emission): State
    requires p.Valid() && p.ClockOk(now) && i <= |batch|
  {
    State(Midway(p, s.rows, batch[..i], bus, now),
          Sweeping(batch[i..], Accepted(batch[..i], bus), now),
          Counted(s.emitted, Accepted(batch[..i], bus)),
          s.crashes)
  }

  lemma PartwayStep(p: Policy, s: State, batch: seq<RowId>, i: nat, now: int, bus: RowId -> Emission)
    requires p.Valid() && p.ClockOk(now) && i < |batch| && Ascending(batch)
    requires s.emitted.Keys == s.rows.Keys && forall id | id in batch :: id in s.rows && Waiting(s.rows[id])
    ensures var t, step := Partway(p, s, batch, i, now, bus), StepFor(bus(batch[i]));
            Enabled(p, t, step) && Apply(p, t, step) == Partway(p, s, batch, i + 1, now, bus)
  {
    hide FailedRow, Iso, Representable, Accepted, Midway, Counted, Swept, EndOf, IsBatch, MarkPublished;
    var id, done := batch[i], batch[..i];
    assert id in batch && id !in done;
    assert batch[..i + 1] == done + [id];
    assert batch[i..][0] == id && batch[i..][1..] == batch[i + 1..];
    MidwayStep(p, s.rows, done, id, bus, now);
    AcceptedStep(done, id, bus);
    AcceptedMembers(done, bus);
    EndOfSwept(p, s.rows, batch, id, bus, now);
    MidwayKeys(p, s.rows, done, bus, now);
    CountedStep(s.emitted, Accepted(done, bus), id);
    assert Accepted(done, bus) + [] == Accepted(done, bus);
    hide RowAfter, Waiting, Ascending;
    if bus(id) == Emitted {
      assert Enabled(p, Partway(p, s, batch, i, now, bus), Emit);
    } else {
      assert Enabled(p, Partway(p, s, batch, i, now, bus), Fail(bus(id) == RetryableFault));
    }
  }

  lemma CountedStep(emitted: map<RowId, nat>, ids: seq<RowId>, id: RowId)
    requires id in emitted && id !in ids
    ensures Counted(emitted, ids).Keys == emitted.Keys && Counted(emitted, ids)[id] == emitted[id]
    ensures Counted(emitted, ids + [id]) == Counted(emitted, ids)[id := emitted[id] + 1]
  {}

  lemma MidwayKeys(p: Policy, rows: Table, done: seq<RowId>, bus: RowId -> Emission, now: int)
    requires p.Valid() && p.ClockOk(now)
    ensures Midway(p, rows, done, bus, now).Keys == rows.Keys
  {}

  lemma {:induction false} PartwayRun(p: Policy, s: State, batch: seq<RowId>, i: nat, now: int, bus: RowId -> Emission,
                                      limit: int)
    requires p.Valid() && p.ClockOk(now) && i <= |batch| && s.pc.Resting?
    requires s.emitted.Keys == s.rows.Keys && IsBatch(batch, s.rows, limit, Iso(now))
    ensures Run(p, s, SweepSteps(batch, now, bus)[..i + 1], Partway(p, s, batch, i, now, bus))
  {
    hide Iso, Representable, Midway, Accepted, Due;
    var steps := SweepSteps(batch, now, bus);
    if i == 0 {
      assert steps[..1] == [Begin(batch, now)];
      BeginRun(p, s, batch, now, bus, limit);
    } else {
      hide IsBatch, Partway, Enabled, Apply, Run;
      PartwayRun(p, s, batch, i - 1, now, bus, limit);
      BatchWaiting(batch, s.rows, limit, now);
      PartwayStep(p, s, batch, i - 1, now, bus);
      RunAppend(p, s, steps[..i], Partway(p, s, batch, i - 1, now, bus), StepFor(bus(batch[i - 1])));
      assert steps[i] == StepFor(bus(batch[i - 1]));
      assert steps[..i + 1] == steps[..i] + [steps[i]];
    }
  }

  lemma BatchWaiting(batch: seq<RowId>, rows: Table, limit: int, now: int)
    requires Representable(now) && IsBatch(batch, rows, limit, Iso(now))
    ensures Ascending(batch) && forall id | id in batch :: id in rows && Waiting(rows[id])
  {
    hide Iso, Due;
  }

  lemma BeginRun(p: Policy, s: State, batch: seq<RowId>, now: int, bus: RowId -> Emission, limit: int)
    requires p.Valid() && p.ClockOk(now) && s.pc.Resting?
    requires s.emitted.Keys == s.rows.Keys && IsBatch(batch, s.rows, limit, Iso(now))
    ensures Run(p, s, [Begin(batch, now)], Partway(p, s, batch, 0, now, bus))
  {
    MidwayNone(p, s, bus, now);
    hide Iso, Representable, Midway, Accepted, Due, IsBatch, Counted;
    var begin := Begin(batch, now);
    assert batch[0..] == batch && batch[..0] == [] && [begin][1..] == [];
    assert Enabled(p, s, begin);
    assert Apply(p, s, begin) == Partway(p, s, batch, 0, now, bus);
    assert Run(p, Apply(p, s, begin), [], Partway(p, s, batch, 0, now, bus));
  }

  lemma MidwayNone(p: Policy, s: State, bus: RowId -> Emission, now: int)
    requires p.Valid() && p.ClockOk(now)
    ensures Midway(p, s.rows, [], bus, now) == s.rows && Accepted([], bus) == [] && Counted(s.emitted, []) == s.emitted
  {}

  /**
   What PollOnce leaves of the table is what an undisturbed sweep, statement by
   statement, leaves of it, with one more emission of each row it published.
   */
  lemma SweepIsRun(p: Policy, s: State, batch: seq<RowId>, now: int, bus: RowId -> Emission, limit: int)
    requires p.Valid() && p.ClockOk(now) && s.pc.Resting? && s.emitted.Keys == s.rows.Keys
    requires IsBatch(batch, s.rows, limit, Iso(now))
    ensures Run(p, s, SweepSteps(batch, now, bus),
                State(Swept(p, s.rows, batch, bus, now), Resting, Counted(s.emitted, Accepted(batch, bus)), s.crashes))
  {
    hide IsBatch, Iso, Representable, Midway, Swept, Accepted, Run, MarkPublished;
    var n, steps := |batch|, SweepSteps(batch, now, bus);
    PartwayRun(p, s, batch, n, now, bus, limit);
    assert batch[..n] == batch && batch[n..] == [];
    MidwayMarked(p, s.rows, batch, bus, now);
    RunAppend(p, s, steps[..n + 1], Partway(p, s, batch, n, now, bus), Finish);
    assert steps == steps[..n + 1] + [Finish];
  }

  // ---- the report ----

  /** The three lists partition the rows considered, each in the order they were considered. */
  lemma ReportPartitions(rows: Table, batch: seq<RowId>, id: RowId)
    requires forall x | x in batch :: x in rows
    ensures var r := ReportOf(rows, batch);
            && |r.published| + |r.retried| + |r.dead| == r.considered
            && (id in r.published <==> id in batch && EndOf(rows[id]) == Sent)
            && (id in r.retried <==> id in batch && EndOf(rows[id]) == Backoff)
            && (id in r.dead <==> id in batch && EndOf(rows[id]) == Dropped)
            && (Ascending(batch) ==> Ascending(r.published) && Ascending(r.retried) && Ascending(r.dead))
  {
    EndingCounts(rows, batch);
    EndingMembers(rows, batch, Sent);
    EndingMembers(rows, batch, Backoff);
    EndingMembers(rows, batch, Dropped);
  }

  lemma {:induction false} EndingCounts(rows: Table, ids: seq<RowId>)
    requires forall x | x in ids :: x in rows
    ensures |Ending(ids, rows, Sent)| + |Ending(ids, rows, Backoff)| + |Ending(ids, rows, Dropped)| == |ids|
  {
    if ids != [] {
      EndingCounts(rows, ids[..|ids| - 1]);
    }
  }
}
