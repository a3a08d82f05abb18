/**
 AsyncTaskStore: the tables the engine updates in place. Each method issues the
 statements the source issues, in its order; a method's contract gives the
 tables it leaves as a function of the tables it found.
 */
module Store {
  import opened Contract
  import opened Graphs
  import opened Rows
  import Dag

  class AsyncTaskStore {
    var rows: Table                   // tasks joined with execution_state
    var keys: map<string, TaskId>     // idempotency_keys
    var deps: Edges                   // task_dependencies

    constructor ()
      ensures rows == map[] && keys == map[] && deps == map[]
    {
      rows, keys, deps := map[], map[], map[];
    }

    /** False stands for the primary-key error an id already taken raises. */
    method CreateTask(t: TaskId) returns (created: bool)
      modifies this`rows
      ensures created == (t !in old(rows))
      ensures rows == if created then old(rows)[t := FRESH_ROW] else old(rows)
    {
      created := t !in rows;
      if created {
        rows := rows[t := FRESH_ROW];
      }
    }

    method SetAttempt(t: TaskId, attempt: nat)
      modifies this`rows
      ensures rows == Rows.SetAttempt(old(rows), t, attempt)
    {
      if t in rows {
        rows := rows[t := rows[t].(attempt := attempt)];
      }
    }

    method WriteState(t: TaskId, state: TaskStatus)
      modifies this`rows
      ensures rows == SetState(old(rows), t, state)
    {
      if t in rows {
        rows := rows[t := rows[t].(state := state)];
      }
    }

    method WriteStatus(t: TaskId, status: TaskStatus)
      modifies this`rows
      ensures rows == SetStatus(old(rows), t, status)
    {
      if t in rows {
        rows := rows[t := rows[t].(status := status)];
      }
    }

    method IsCompleted(t: TaskId) returns (completed: bool)
      ensures completed == Rows.IsCompleted(rows, t)
      ensures completed <==> t in rows && rows[t].state == COMPLETED
    {
      completed := t in rows && rows[t].state == COMPLETED;
    }

    /** The one conditional UPDATE of a claim; true when it matched a row. */
    method CompareAndSetRunning(t: TaskId) returns (won: bool)
      modifies this`rows
      ensures won == Claimable(old(rows), t)
      ensures rows == if won then SetState(old(rows), t, RUNNING) else old(rows)
    {
      won := t in rows && rows[t].state != COMPLETED && rows[t].state != RUNNING;
      if won {
        rows := rows[t := rows[t].(state := RUNNING)];
      }
    }

    /** Only the caller whose conditional UPDATE matched goes on to write the task's status. */
    method MarkStarted(t: TaskId) returns (won: bool)
      modifies this`rows
      ensures won == Claimable(old(rows), t)
      ensures won <==> t in old(rows) && old(rows)[t].state !in {RUNNING, COMPLETED}
      ensures rows == Rows.MarkStarted(old(rows), t)
      ensures rows == if won then old(rows)[t := old(rows)[t].(status := RUNNING, state := RUNNING)] else old(rows)
    {
      won := CompareAndSetRunning(t);
      if !won {
        return;
      }
      WriteStatus(t, RUNNING);
    }

    method MarkCompleted(t: TaskId)
      modifies this`rows
      ensures rows == Rows.MarkCompleted(old(rows), t)
    {
      WriteState(t, COMPLETED);
      WriteStatus(t, COMPLETED);
    }

    method MarkFailed(t: TaskId)
      modifies this`rows
      ensures rows == Rows.MarkFailed(old(rows), t)
    {
      WriteState(t, FAILED);
      WriteStatus(t, FAILED);
    }

    method MarkRetried(t: TaskId, attempt: nat)
      modifies this`rows
      ensures rows == Rows.MarkRetried(old(rows), t, attempt)
    {
      WriteState(t, RETRYING);
      WriteStatus(t, RETRYING);
      SetAttempt(t, attempt);
    }

    method MarkDispatched(t: TaskId)
      modifies this`rows
      ensures rows == Rows.MarkDispatched(old(rows), t)
    {
      WriteState(t, QUEUED);
    }

    /** False when the key was there before; the first task to store a key keeps it. */
    method StoreIdempotencyKey(key: string, t: TaskId) returns (stored: bool)
      modifies this`keys
      ensures stored == (key !in old(keys))
      ensures keys == if stored then old(keys)[key := t] else old(keys)
    {
      stored := key !in keys;
      if stored {
        keys := keys[key := t];
      }
    }

    method CheckIdempotencyKey(key: string) returns (owner: Option<TaskId>)
      ensures owner == if key in keys then Some(keys[key]) else None
    {
      owner := if key in keys then Some(keys[key]) else None;
    }

    /** At most `limit` of the tasks the query finds; a negative limit is no limit. */
    method DispatchableTasks(limit: int) returns (batch: seq<TaskId>)
      ensures Limited(batch, Dispatchable(deps, rows), limit)
      ensures forall t | t in batch ::
                && t in rows && rows[t].status == QUEUED && rows[t].state == CREATED && t in deps
                && forall d | d in deps[t] && d in rows :: rows[d].status == COMPLETED
    {
      batch := Selected(Dispatchable(deps, rows), limit);
    }

    /** Fails stuck tasks one by one, and returns the ids it failed. */
    method FailTasksWithFailedDeps(limit: int) returns (failed: seq<TaskId>)
      modifies this`rows
      ensures Limited(failed, Stuck(deps, old(rows)), limit)
      ensures rows == MarkFailedAll(old(rows), Dag.Members(failed))
      ensures forall t | t in failed ::
                && t in old(rows) && old(rows)[t].status == QUEUED && t in deps
                && exists d | d in deps[t] :: d in old(rows) && old(rows)[d].status == FAILED
    {
      var found := Selected(Stuck(deps, rows), limit);
      failed := [];
      assert rows == MarkFailedAll(rows, Dag.Members([]));
      for i := 0 to |found|
        invariant failed == found[..i]
        invariant rows == MarkFailedAll(old(rows), Dag.Members(found[..i]))
      {
        FailedOneMore(old(rows), found, i);
        MarkFailed(found[i]);
        failed := failed + [found[i]];
      }
      assert found[..|found|] == found;
    }
  }

  /** What a query with LIMIT may return: distinct members, and all of them unless the limit binds. */
  ghost predicate Limited(batch: seq<TaskId>, all: set<TaskId>, limit: int) {
    && (forall i, j | 0 <= i < j < |batch| :: batch[i] != batch[j])
    && (forall t | t in batch :: t in all)
    && |batch| == if 0 <= limit < |all| then limit else |all|
  }

  method Selected(all: set<TaskId>, limit: int) returns (batch: seq<TaskId>)
    ensures Limited(batch, all, limit)
  {
    batch := Dag.ListSet(all);
    ListedCount(batch, all);
    if 0 <= limit < |batch| {
      batch := batch[..limit];
    }
  }

  lemma {:induction false} ListedCount(batch: seq<TaskId>, all: set<TaskId>)
    requires Lists(batch, all)
    ensures |batch| == |all|
  {
    if batch == [] {
      assert all == {};
    } else {
      var n := |batch| - 1;
      assert Lists(batch[..n], all - {batch[n]});
      ListedCount(batch[..n], all - {batch[n]});
    }
  }

  /** A listing as long as the set it is drawn from lists all of it. */
  lemma UnlimitedListsAll(batch: seq<TaskId>, all: set<TaskId>, limit: int)
    requires Limited(batch, all, limit) && !(0 <= limit < |all|)
    ensures Lists(batch, all)
  {
    var found := Dag.Members(batch);
    assert Lists(batch, found);
    ListedCount(batch, found);
    SameSizeSubset(found, all);
  }

  lemma SameSizeSubset(a: set<TaskId>, b: set<TaskId>)
    requires a <= b && |a| == |b|
    ensures a == b
  {
    assert |b - a| == |b| - |a|;
  }

  lemma FailedOneMore(rows: Table, found: seq<TaskId>, i: nat)
    requires i < |found|
    ensures Rows.MarkFailed(MarkFailedAll(rows, Dag.Members(found[..i])), found[i])
         == MarkFailedAll(rows, Dag.Members(found[..i + 1]))
  {
    assert found[..i + 1] == found[..i] + [found[i]];
    assert Dag.Members(found[..i + 1]) == Dag.Members(found[..i]) + {found[i]};
  }
}
