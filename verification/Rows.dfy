/**
 The rows of the task store, and the effect of each SQL statement on them.
 A row joins the tasks table (status, attempt) with the execution_state table
 (state): both are keyed by task id and created together.
 */
module Rows {
  import opened Contract
  import opened Graphs

  datatype Row = Row(status: TaskStatus, state: TaskStatus, attempt: nat)

  type Table = map<TaskId, Row>

  const FRESH_ROW := Row(QUEUED, CREATED, 1)

  function SetStatus(rows: Table, t: TaskId, s: TaskStatus): Table {
    if t in rows then rows[t := rows[t].(status := s)] else rows
  }

  function SetState(rows: Table, t: TaskId, s: TaskStatus): Table {
    if t in rows then rows[t := rows[t].(state := s)] else rows
  }

  function SetAttempt(rows: Table, t: TaskId, a: nat): Table {
    if t in rows then rows[t := rows[t].(attempt := a)] else rows
  }

  /** The row the compare-and-set of a claim matches. */
  predicate Claimable(rows: Table, t: TaskId) {
    t in rows && rows[t].state != COMPLETED && rows[t].state != RUNNING
  }

  predicate IsCompleted(rows: Table, t: TaskId) {
    t in rows && rows[t].state == COMPLETED
  }

  function MarkStarted(rows: Table, t: TaskId): Table {
    if Claimable(rows, t) then SetStatus(SetState(rows, t, RUNNING), t, RUNNING) else rows
  }

  function MarkCompleted(rows: Table, t: TaskId): Table {
    SetStatus(SetState(rows, t, COMPLETED), t, COMPLETED)
  }

  function MarkFailed(rows: Table, t: TaskId): Table {
    SetStatus(SetState(rows, t, FAILED), t, FAILED)
  }

  function MarkRetried(rows: Table, t: TaskId, a: nat): Table {
    SetAttempt(SetStatus(SetState(rows, t, RETRYING), t, RETRYING), t, a)
  }

  function MarkDispatched(rows: Table, t: TaskId): Table {
    SetState(rows, t, QUEUED)
  }

  function MarkFailedAll(rows: Table, ts: set<TaskId>): Table {
    map t | t in rows :: if t in ts then rows[t].(status := FAILED, state := FAILED) else rows[t]
  }

  // ---- the advancer's two queries ----

  /** dispatchable_tasks without its limit; the join passes over dependencies that have no row. */
  function Dispatchable(deps: Edges, rows: Table): set<TaskId> {
    set t | t in rows && t in deps && rows[t].state == CREATED && rows[t].status == QUEUED
            && forall d | d in deps[t] && d in rows :: rows[d].status == COMPLETED
  }

  /** What fail_tasks_with_failed_deps selects without its limit. */
  function Stuck(deps: Edges, rows: Table): set<TaskId> {
    set t | t in rows && t in deps && rows[t].status == QUEUED
            && exists d | d in deps[t] :: d in rows && rows[d].status == FAILED
  }

  /** The rows as the in-memory graph would see them. */
  function Mirror(rows: Table): map<TaskId, DagStatus> {
    map t | t in rows ::
      match rows[t].status case COMPLETED => Completed case FAILED => Failed case _ => Pending
  }
}
