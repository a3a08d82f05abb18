/**
 The outbox relay. A sweep selects due rows, publishes each on the live bus,
 records failures row by row, and marks everything published in one statement at
 the end; a crash between any two statements loses what the sweep had in memory.
 */
module Outbox {
  import opened Contract
  import opened Timestamps

  type RowId = nat

  datatype Row = Row(attempts: nat, nextAttemptAt: Option<string>, published: bool, dead: bool)

  type Table = map<RowId, Row>

  const NEW_ROW := Row(0, None, false, false)

  /** How publishing a row on the bus ends. */
  datatype Emission = Emitted | RetryableFault | FatalFault

  datatype Policy = Policy(maxAttempts: int, policyMax: int, schedule: seq<nat>) {
    predicate Valid() {
      schedule != []
    }

    /** The backoff after a failed attempt, in seconds: the schedule's last entry from there on. */
    function Backoff(attempt: int): nat
      requires Valid()
    {
      var i := if attempt - 1 < |schedule| - 1 then attempt - 1 else |schedule| - 1;
      schedule[if i < 0 then 0 else i]
    }

    /** When the next attempt is due, as it is stored. */
    function RetryAt(attempt: int, now: int): string
      requires Valid() && ClockOk(now)
    {
      Iso(now + 1_000_000 * Backoff(attempt))
    }

    function Budget(): nat {
      AttemptBudget(EffectiveCap(maxAttempts, policyMax))
    }

    /** The clock and every retry time it leads to fall in years 1 to 9999. */
    predicate ClockOk(now: int) {
      Representable(now) && forall i | 0 <= i < |schedule| :: Representable(now + 1_000_000 * schedule[i])
    }
  }

  predicate Waiting(row: Row) {
    !row.published && !row.dead
  }

  predicate Eligible(rows: Table, now: string, id: RowId) {
    id in rows && Waiting(rows[id]) && Due(rows[id].nextAttemptAt, now)
  }

  predicate Ascending(ids: seq<RowId>) {
    forall i, j | 0 <= i < j < |ids| :: ids[i] < ids[j]
  }

  /** ORDER BY id LIMIT: the oldest eligible rows; a negative limit is no limit. */
  ghost predicate IsBatch(batch: seq<RowId>, rows: Table, limit: int, now: string) {
    && Ascending(batch)
    && (forall id | id in batch :: Eligible(rows, now, id))
    && (limit >= 0 ==> |batch| <= limit)
    && (limit < 0 || |batch| < limit ==> forall id: RowId | Eligible(rows, now, id) :: id in batch)
    && forall id: RowId, later: RowId | Eligible(rows, now, id) && later in batch && id < later :: id in batch
  }

  /** What recording a failure leaves of a row: another attempt later, or the end. */
  function FailedRow(p: Policy, row: Row, retryable: bool, now: int): Row
    requires p.Valid() && p.ClockOk(now)
  {
    var n := row.attempts + 1;
    if retryable && ShouldRetry(n, p.maxAttempts, p.policyMax)
    then row.(attempts := n, nextAttemptAt := Some(p.RetryAt(n, now)))
    else row.(attempts := n, dead := true)
  }

  function RowAfter(p: Policy, row: Row, e: Emission, now: int): Row
    requires p.Valid() && p.ClockOk(now)
  {
    if e == Emitted then row.(published := true) else FailedRow(p, row, e == RetryableFault, now)
  }

  /** The table after one undisturbed sweep. */
  function Swept(p: Policy, rows: Table, batch: seq<RowId>, bus: RowId -> Emission, now: int): Table
    requires p.Valid() && p.ClockOk(now)
  {
    map id | id in rows :: if id in batch then RowAfter(p, rows[id], bus(id), now) else rows[id]
  }

  function MarkPublished(rows: Table, ids: seq<RowId>): Table {
    map id | id in rows :: if id in ids then rows[id].(published := true) else rows[id]
  }

  class OutboxStore {
    var rows: Table
    var nextId: RowId

    ghost predicate Valid()
      reads this
    {
      forall id: RowId :: id in rows <==> id < nextId
    }

    constructor ()
      ensures Valid() && rows == map[]
    {
      rows, nextId := map[], 0;
    }

    method InsertEvent()
      requires Valid()
      modifies this
      ensures Valid() && old(nextId) !in old(rows) && rows == old(rows)[old(nextId) := NEW_ROW]
      ensures forall now :: Eligible(rows, now, old(nextId))
    {
      rows := rows[nextId := NEW_ROW];
      nextId := nextId + 1;
    }

    method GetUnpublished(limit: int, now: string) returns (batch: seq<RowId>)
      requires Valid()
      ensures IsBatch(batch, rows, limit, now)
    {
      batch := [];
      var id := 0;
      while id < nextId && |batch| != limit
        invariant id <= nextId && Ascending(batch)
        invariant limit >= 0 ==> |batch| <= limit
        invariant forall i | 0 <= i < |batch| :: batch[i] < id
        invariant forall x: RowId :: x in batch <==> x < id && Eligible(rows, now, x)
      {
        var row := rows[id];
        if !row.published && !row.dead && Due(row.nextAttemptAt, now) {
          batch := batch + [id];
        }
        id := id + 1;
      }
    }

    method MarkRetry(id: RowId, attempts: nat, at: string)
      requires id in rows
      modifies this`rows
      ensures rows == old(rows)[id := old(rows)[id].(attempts := attempts, nextAttemptAt := Some(at))]
    {
      rows := rows[id := rows[id].(attempts := attempts, nextAttemptAt := Some(at))];
    }

    method MarkDeadLettered(id: RowId, attempts: nat)
      requires id in rows
      modifies this`rows
      ensures rows == old(rows)[id := old(rows)[id].(attempts := attempts, dead := true)]
    {
      rows := rows[id := rows[id].(attempts := attempts, dead := true)];
    }

    /** One UPDATE for all of them. */
    method MarkAllPublished(ids: seq<RowId>)
      modifies this`rows
      ensures rows == MarkPublished(old(rows), ids)
    {
      if ids == [] {
        assert rows == MarkPublished(rows, ids);
        return;
      }
      rows := map id | id in rows :: if id in ids then rows[id].(published := true) else rows[id];
    }
  }

  /** The lists a sweep returns: which of the rows considered went which way. */
  datatype Report = Report(considered: nat, published: seq<RowId>, retried: seq<RowId>, dead: seq<RowId>)

  datatype End = Sent | Backoff | Dropped

  function EndOf(row: Row): End {
    if row.published then Sent else if row.dead then Dropped else Backoff
  }

  function Ending(ids: seq<RowId>, rows: Table, end: End): seq<RowId> {
    if ids == [] then []
    else
      var id := ids[|ids| - 1];
      Ending(ids[..|ids| - 1], rows, end) + if id in rows && EndOf(rows[id]) == end then [id] else []
  }

  function ReportOf(rows: Table, batch: seq<RowId>): Report {
    Report(|batch|, Ending(batch, rows, Sent), Ending(batch, rows, Backoff), Ending(batch, rows, Dropped))
  }

  /** Where a sweep stands after part of its batch: failures are recorded, successes are not written yet. */
  function Midway(p: Policy, rows: Table, done: seq<RowId>, bus: RowId -> Emission, now: int): Table
    requires p.Valid() && p.ClockOk(now)
  {
    map id | id in rows ::
      if id in done && bus(id) != Emitted then RowAfter(p, rows[id], bus(id), now) else rows[id]
  }

  /** The ids of a list whose publication succeeds. */
  function Accepted(ids: seq<RowId>, bus: RowId -> Emission): seq<RowId> {
    if ids == [] then []
    else
      var id := ids[|ids| - 1];
      Accepted(ids[..|ids| - 1], bus) + if bus(id) == Emitted then [id] else []
  }

  lemma {:induction false} AcceptedMembers(ids: seq<RowId>, bus: RowId -> Emission)
    ensures forall id :: id in Accepted(ids, bus) <==> id in ids && bus(id) == Emitted
  {
    if ids != [] {
      AcceptedMembers(ids[..|ids| - 1], bus);
      assert ids == ids[..|ids| - 1] + [ids[|ids| - 1]];
    }
  }

  /** Recording one more row, or leaving an accepted one for the end. */
  lemma MidwayStep(p: Policy, rows: Table, done: seq<RowId>, id: RowId, bus: RowId -> Emission, now: int)
    requires p.Valid() && p.ClockOk(now) && id in rows && id !in done
    ensures Midway(p, rows, done, bus, now)[id] == rows[id]
    ensures Midway(p, rows, done + [id], bus, now)
         == if bus(id) == Emitted then Midway(p, rows, done, bus, now)
            else Midway(p, rows, done, bus, now)[id := RowAfter(p, rows[id], bus(id), now)]
  {
    hide RowAfter;
  }

  /** The batch update at the end completes the sweep. */
  lemma MidwayMarked(p: Policy, rows: Table, batch: seq<RowId>, bus: RowId -> Emission, now: int)
    requires p.Valid() && p.ClockOk(now)
    ensures MarkPublished(Midway(p, rows, batch, bus, now), Accepted(batch, bus)) == Swept(p, rows, batch, bus, now)
  {
    hide FailedRow;
    AcceptedMembers(batch, bus);
  }

  lemma EndingStep(done: seq<RowId>, id: RowId, rows: Table, end: End)
    requires id in rows
    ensures Ending(done + [id], rows, end) == Ending(done, rows, end) + if EndOf(rows[id]) == end then [id] else []
  {
    assert (done + [id])[..|done|] == done;
  }

  lemma AcceptedStep(done: seq<RowId>, id: RowId, bus: RowId -> Emission)
    ensures Accepted(done + [id], bus) == Accepted(done, bus) + if bus(id) == Emitted then [id] else []
  {
    assert (done + [id])[..|done|] == done;
  }

  lemma SweepStarts(p: Policy, rows: Table, bus: RowId -> Emission, now: int)
    requires p.Valid() && p.ClockOk(now)
    ensures Midway(p, rows, [], bus, now) == rows && Accepted([], bus) == []
    ensures forall table, end :: Ending([], table, end) == []
  {}

  /** What handling the next row of a batch changes, list by list. */
  lemma RowReached(p: Policy, was: Table, will: Table, rows: seq<RowId>, i: nat, bus: RowId -> Emission, now: int,
                   limit: int)
    requires p.Valid() && p.ClockOk(now) && i < |rows| && IsBatch(rows, was, limit, Iso(now))
    requires will == Swept(p, was, rows, bus, now)
    ensures var id, done := rows[i], rows[..i];
            && id in was && Waiting(was[id])
            && id in Midway(p, was, done, bus, now) && Midway(p, was, done, bus, now)[id] == was[id]
            && Midway(p, was, rows[..i + 1], bus, now)
                 == (if bus(id) == Emitted then Midway(p, was, done, bus, now)
                     else Midway(p, was, done, bus, now)[id := FailedRow(p, was[id], bus(id) == RetryableFault, now)])
            && Accepted(rows[..i + 1], bus) == Accepted(done, bus) + (if bus(id) == Emitted then [id] else [])
            && var end := if bus(id) == Emitted then Sent
                          else if FailedRow(p, was[id], bus(id) == RetryableFault, now).dead then Dropped else Backoff;
               forall e :: Ending(rows[..i + 1], will, e) == Ending(rows[..i], will, e) + if e == end then [id] else []
  {
    hide Iso, Representable;
    var id, done := rows[i], rows[..i];
    assert id in rows && rows[..i + 1] == done + [id];
    MidwayStep(p, was, done, id, bus, now);
    AcceptedStep(done, id, bus);
    EndOfSwept(p, was, rows, id, bus, now);
    hide Midway, Swept, Accepted, Ending, EndOf, RowAfter, FailedRow;
    forall e
      ensures Ending(done + [id], will, e) == Ending(done, will, e) + if EndOf(will[id]) == e then [id] else []
    {
      EndingStep(done, id, will, e);
    }
  }

  /** How a waiting row ends a sweep. */
  lemma EndOfSwept(p: Policy, rows: Table, batch: seq<RowId>, id: RowId, bus: RowId -> Emission, now: int)
    requires p.Valid() && p.ClockOk(now) && id in rows && id in batch && Waiting(rows[id])
    ensures var row := RowAfter(p, rows[id], bus(id), now);
            Swept(p, rows, batch, bus, now)[id] == row
            && EndOf(row) == if bus(id) == Emitted then Sent else if row.dead then Dropped else Backoff
    ensures bus(id) != Emitted ==>
              RowAfter(p, rows[id], bus(id), now) == FailedRow(p, rows[id], bus(id) == RetryableFault, now)
  {}

  /** The backoff is the schedule's entry for the attempt, or its last. */
  lemma BackoffIs(p: Policy, n: nat, now: int)
    requires p.Valid() && p.ClockOk(now) && n >= 1
    ensures var last := |p.schedule|; p.Backoff(n) == p.schedule[(if n < last then n else last) - 1]
    ensures Representable(now + 1_000_000 * p.Backoff(n)) && p.RetryAt(n, now) == Iso(now + 1_000_000 * p.Backoff(n))
  {
    hide Iso, Representable;
  }

  lemma EligibleAgain(rows: Table, id: RowId, due: int, t: int)
    requires Representable(due) && Representable(t)
    requires id in rows && Waiting(rows[id]) && rows[id].nextAttemptAt == Some(Iso(due))
    ensures Eligible(rows, Iso(t), id) <==> t >= due
  {
    hide Iso, Representable, Due;
    TextOrderIsTimeOrder(due, t);
  }

  /** How recording a failure ends, by the policy's own numbers. */
  lemma FailedRowIs(p: Policy, row: Row, retryable: bool, now: int)
    requires p.Valid() && p.ClockOk(now) && Waiting(row)
    ensures var cap := if p.maxAttempts == 0 then p.policyMax else p.maxAttempts;
            FailedRow(p, row, retryable, now).dead <==> !(retryable && row.attempts + 1 < cap)
    ensures FailedRow(p, row, retryable, now).attempts == row.attempts + 1
    ensures !FailedRow(p, row, retryable, now).published
    ensures FailedRow(p, row, retryable, now).dead
            || FailedRow(p, row, retryable, now).nextAttemptAt == Some(p.RetryAt(row.attempts + 1, now))
  {
    hide Iso, Representable, Policy.RetryAt;
  }

  lemma FailureRecorded(p: Policy, row: Row, retryable: bool, now: int)
    requires p.Valid() && p.ClockOk(now) && Waiting(row)
    ensures var n := row.attempts + 1;
            FailedRow(p, row, retryable, now)
              == if retryable && ShouldRetry(n, p.maxAttempts, p.policyMax)
                 then row.(attempts := n, nextAttemptAt := Some(p.RetryAt(n, now)))
                 else row.(attempts := n, dead := true)
    ensures !row.dead
  {
    hide Iso, Representable;
  }

  /** The row can be selected at a moment exactly when that is not before it is due. */
  ghost predicate DueFrom(rows: Table, id: RowId, due: int) {
    forall t | Representable(t) :: Eligible(rows, Iso(t), id) <==> t >= due
  }

  lemma EligibleFrom(rows: Table, id: RowId, due: int)
    requires Representable(due) && id in rows && Waiting(rows[id]) && rows[id].nextAttemptAt == Some(Iso(due))
    ensures DueFrom(rows, id, due)
  {
    hide Iso, Representable, Eligible, Waiting;
    forall t | Representable(t)
      ensures Eligible(rows, Iso(t), id) <==> t >= due
    {
      EligibleAgain(rows, id, due, t);
    }
  }

  /** A row put back with n attempts is due once the schedule's n-th delay, or its last, has passed. */
  lemma DueAgain(p: Policy, row: Row, retryable: bool, now: int, rows: Table, id: RowId)
    requires p.Valid() && p.ClockOk(now) && Waiting(row)
    requires id in rows && rows[id] == FailedRow(p, row, retryable, now) && !rows[id].dead
    ensures var n, last := rows[id].attempts, |p.schedule|;
            n >= 1 && last >= 1 && DueFrom(rows, id, now + 1_000_000 * p.schedule[(if n < last then n else last) - 1])
  {
    hide FailedRow, Iso, Representable, Eligible, Policy.ClockOk, Policy.Backoff, Policy.RetryAt, DueFrom;
    FailedRowIs(p, row, retryable, now);
    var n := rows[id].attempts;
    BackoffIs(p, n, now);
    EligibleFrom(rows, id, now + 1_000_000 * p.Backoff(n));
  }

  lemma {:induction false} EndingMembers(rows: Table, ids: seq<RowId>, end: End)
    ensures forall x :: x in Ending(ids, rows, end) <==> x in ids && x in rows && EndOf(rows[x]) == end
    ensures Ascending(ids) ==> Ascending(Ending(ids, rows, end))
  {
    hide EndOf;
    if ids != [] {
      var n := |ids| - 1;
      EndingMembers(rows, ids[..n], end);
      EndingSplit(rows, ids, end);
      hide Ending;
      assert ids == ids[..n] + [ids[n]];
      if Ascending(ids) {
        AscendingAppend(Ending(ids[..n], rows, end), ids);
      }
    }
  }

  lemma EndingSplit(rows: Table, ids: seq<RowId>, end: End)
    requires ids != []
    ensures var n := |ids| - 1;
            Ending(ids, rows, end)
              == Ending(ids[..n], rows, end) + if ids[n] in rows && EndOf(rows[ids[n]]) == end then [ids[n]] else []
  {}

  lemma AscendingAppend(some: seq<RowId>, ids: seq<RowId>)
    requires ids != [] && Ascending(ids) && forall x | x in some :: x in ids[..|ids| - 1]
    ensures Ascending(ids[..|ids| - 1])
    ensures Ascending(some) ==> Ascending(some + [ids[|ids| - 1]])
  {
    forall i | 0 <= i < |some|
      ensures some[i] < ids[|ids| - 1]
    {
      assert some[i] in some;
      assert some[i] in ids[..|ids| - 1];
    }
  }

  lemma ListedBy(rows: Table, batch: seq<RowId>, id: RowId)
    requires id in batch && id in rows
    ensures var report, row := ReportOf(rows, batch), rows[id];
            && (id in report.published <==> row.published) && (id in report.retried <==> !row.published && !row.dead)
            && (id in report.dead <==> !row.published && row.dead)
  {
    EndingMembers(rows, batch, Sent);
    EndingMembers(rows, batch, Backoff);
    EndingMembers(rows, batch, Dropped);
  }

  /** What a sweep leaves of a row it considered. */
  lemma SweptRow(p: Policy, was: Table, batch: seq<RowId>, bus: RowId -> Emission, now: int, id: RowId)
    requires p.Valid() && p.ClockOk(now) && id in was && id in batch && Waiting(was[id])
    ensures var will := Swept(p, was, batch, bus, now);
            && id in will && (will[id].published <==> bus(id) == Emitted)
            && will[id] == if bus(id) == Emitted then was[id].(published := true)
                           else FailedRow(p, was[id], bus(id) == RetryableFault, now)
  {
    FailedRowIs(p, was[id], bus(id) == RetryableFault, now);
    hide FailedRow, Policy.ClockOk;
  }

  /** Which list of the report a row of the batch is on, by how its publication went and the policy's own cap. */
  lemma SweptEnds(p: Policy, was: Table, batch: seq<RowId>, bus: RowId -> Emission, now: int, id: RowId)
    requires p.Valid() && p.ClockOk(now) && id in was && id in batch && Waiting(was[id])
    ensures var report := ReportOf(Swept(p, was, batch, bus, now), batch);
            var cap := if p.maxAttempts == 0 then p.policyMax else p.maxAttempts;
            var again := bus(id) == RetryableFault && was[id].attempts + 1 < cap;
            && (id in report.published <==> bus(id) == Emitted) && (id in report.retried <==> again)
            && (id in report.dead <==> bus(id) != Emitted && !again)
  {
    var will := Swept(p, was, batch, bus, now);
    var row := FailedRow(p, was[id], bus(id) == RetryableFault, now);
    assert !was[id].dead;
    FailedRowIs(p, was[id], bus(id) == RetryableFault, now);
    hide *;
    SweptRow(p, was, batch, bus, now, id);
    ListedBy(will, batch, id);
  }

  /** And if it is to be tried again, when. */
  lemma SweptDue(p: Policy, was: Table, batch: seq<RowId>, bus: RowId -> Emission, now: int, id: RowId)
    requires p.Valid() && p.ClockOk(now) && id in was && id in batch && Waiting(was[id])
    ensures var will, last := Swept(p, was, batch, bus, now), |p.schedule|;
            id in will &&
            (id in ReportOf(will, batch).retried ==>
              var n := will[id].attempts;
              n >= 1 && last >= 1
               && DueFrom(will, id, now + 1_000_000 * p.schedule[(if n < last then n else last) - 1]))
  {
    hide *;
    var will := Swept(p, was, batch, bus, now);
    SweptRow(p, was, batch, bus, now, id);
    ListedBy(will, batch, id);
    if id in ReportOf(will, batch).retried {
      DueAgain(p, was[id], bus(id) == RetryableFault, now, will, id);
    }
  }

  lemma BatchWaits(batch: seq<RowId>, rows: Table, limit: int, now: string)
    requires IsBatch(batch, rows, limit, now)
    ensures forall id | id in batch :: id in rows && Waiting(rows[id])
  {}

  class OutboxRelay {
    const store: OutboxStore
    const policy: Policy
    var published: nat
    var retried: nat
    var deadLettered: nat

    constructor (store: OutboxStore, policy: Policy)
      requires policy.Valid()
      ensures this.store == store && this.policy == policy
      ensures published == retried == deadLettered == 0
    {
      this.store, this.policy := store, policy;
      published, retried, deadLettered := 0, 0, 0;
    }

    /** One sweep; `bus` says how publishing each row ends this time. */
    method PollOnce(limit: int, now: int, bus: RowId -> Emission) returns (report: Report, ghost batch: seq<RowId>)
      requires store.Valid() && policy.Valid() && policy.ClockOk(now)
      modifies this, store`rows
      ensures IsBatch(batch, old(store.rows), limit, Iso(now))
      ensures store.rows == Swept(policy, old(store.rows), batch, bus, now)
      ensures report == ReportOf(store.rows, batch)
      ensures published == old(published) + |report.published|
      ensures retried == old(retried) + |report.retried|
      ensures deadLettered == old(deadLettered) + |report.dead|
      ensures var cap := if policy.maxAttempts == 0 then policy.policyMax else policy.maxAttempts;
              forall id | id in batch ::
                && (id in report.published <==> bus(id) == Emitted)
                && (id in report.retried <==> bus(id) == RetryableFault && old(store.rows)[id].attempts + 1 < cap)
                && (id in report.published || id in report.retried || id in report.dead)
      ensures forall id | id in report.retried ::
                id in store.rows && store.rows[id].attempts >= 1 && |policy.schedule| >= 1 &&
                var n, last := store.rows[id].attempts, |policy.schedule|;
                DueFrom(store.rows, id, now + 1_000_000 * policy.schedule[(if n < last then n else last) - 1])
    {
      hide Midway, Swept, Accepted, Ending, EndOf, RowAfter, FailedRow, MarkPublished, Eligible, Iso, Representable;
      var rows := store.GetUnpublished(limit, Iso(now));
      batch := rows;
      ghost var was, will := store.rows, Swept(policy, store.rows, rows, bus, now);
      var ok: seq<RowId>, again: seq<RowId>, dead: seq<RowId> := [], [], [];
      SweepStarts(policy, was, bus, now);
      for i := 0 to |rows|
        invariant store.rows == Midway(policy, was, rows[..i], bus, now)
        invariant ok == Accepted(rows[..i], bus)
        invariant ok == Ending(rows[..i], will, Sent)
        invariant again == Ending(rows[..i], will, Backoff)
        invariant dead == Ending(rows[..i], will, Dropped)
        invariant published == old(published) + |ok|
        invariant retried == old(retried) + |again|
        invariant deadLettered == old(deadLettered) + |dead|
      {
        var id := rows[i];
        RowReached(policy, was, will, rows, i, bus, now, limit);
        if bus(id) == Emitted {
          ok := ok + [id];
          published := published + 1;
        } else {
          var gone := RecordFailure(id, bus(id) == RetryableFault, now);
          if gone {
            dead := dead + [id];
          } else {
            again := again + [id];
          }
        }
      }
      assert rows[..|rows|] == rows;
      MidwayMarked(policy, was, rows, bus, now);
      store.MarkAllPublished(ok);
      report := Report(|rows|, ok, again, dead);
      BatchWaits(batch, was, limit, Iso(now));
      forall id | id in batch
        ensures id in was && id in will
        ensures var cap := if policy.maxAttempts == 0 then policy.policyMax else policy.maxAttempts;
                && (id in report.published <==> bus(id) == Emitted)
                && (id in report.retried <==> bus(id) == RetryableFault && was[id].attempts + 1 < cap)
                && (id in report.published || id in report.retried || id in report.dead)
        ensures var last := |policy.schedule|;
                id in report.retried ==>
                  var n := will[id].attempts;
                  n >= 1 && last >= 1
                  && DueFrom(will, id, now + 1_000_000 * policy.schedule[(if n < last then n else last) - 1])
      {
        SweptEnds(policy, was, batch, bus, now, id);
        SweptDue(policy, was, batch, bus, now, id);
      }
      EndingMembers(will, batch, Backoff);
    }

    method RecordFailure(id: RowId, retryable: bool, now: int) returns (gone: bool)
      requires policy.Valid() && policy.ClockOk(now)
      requires id in store.rows && Waiting(store.rows[id])
      modifies this`retried, this`deadLettered, store`rows
      ensures store.rows == old(store.rows)[id := FailedRow(policy, old(store.rows)[id], retryable, now)]
      ensures gone == store.rows[id].dead && store.rows[id].attempts == old(store.rows)[id].attempts + 1
      ensures var cap := if policy.maxAttempts == 0 then policy.policyMax else policy.maxAttempts;
              gone <==> !(retryable && old(store.rows)[id].attempts + 1 < cap)
      ensures !gone ==>
                var n, last := store.rows[id].attempts, |policy.schedule|;
                var delay := policy.schedule[(if n < last then n else last) - 1];
                DueFrom(store.rows, id, now + 1_000_000 * delay)
      ensures retried == old(retried) + (if gone then 0 else 1)
      ensures deadLettered == old(deadLettered) + if gone then 1 else 0
    {
      hide *;
      var attempts := store.rows[id].attempts + 1;
      FailureRecorded(policy, store.rows[id], retryable, now);
      FailedRowIs(policy, store.rows[id], retryable, now);
      if !FailedRow(policy, store.rows[id], retryable, now).dead {
        DueAgain(policy, store.rows[id], retryable, now,
                 store.rows[id := FailedRow(policy, store.rows[id], retryable, now)], id);
      }
      if retryable && ShouldRetry(attempts, policy.maxAttempts, policy.policyMax) {
        store.MarkRetry(id, attempts, policy.RetryAt(attempts, now));
        retried := retried + 1;
        return false;
      }
      store.MarkDeadLettered(id, attempts);
      deadLettered := deadLettered + 1;
      return true;
    }
  }
}
