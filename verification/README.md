# Hermes task engine: a verified model

This project models the asynchronous task engine of Hermes: an orchestrator that
dispatches a dependency graph of tasks over a message bus, workers that claim,
execute and settle them, a failure cascade, a second driver that advances the
same graph from the database alone, and the relay that drains the transactional
outbox. Four self-contained algorithms from the same repository follow: the
circuit breaker, the greedy text chunker, the brace scanner and the chat rate
limiter. `dafny verify dfyconfig.toml` checks everything.

## How it is laid out

| file | what it holds |
|---|---|
| `Contract.dfy`, `Rows.dfy`, `Keys.dfy`, `Graphs.dfy` | statuses and transition table, store rows and the effect of each statement on them, idempotency keys, dependency graphs as values |
| `Dag.dfy`, `Depth.dfy`, `DepthExact.dfy`, `PartialDag.dfy`, `Planner.dfy` | the mutable graph, its depth guard and when that is exact, the resumed graph, and the plan cap |
| `Protocol.dfy` | one workflow run as a transition system: any number of workers, one step for each statement, bus call and locked hook, any interleaving |
| `Invariant.dfy`, `RunTheorems.dfy`, `Progress.dfy` | the inductive invariant and what follows: schedule independence, conservation of messages, bounds on executions and steps, no deadlock |
| `RootRace.dfy`, `Crashes.dfy` | the loop that publishes the roots beside the running workers, and workers that die with a message in hand |
| `Store.dfy`, `Bus.dfy`, `Engine.dfy`, `Workers.dfy`, `Workflow.dfy` | the store, bus, orchestrator and worker as classes that change in place, each method proved to be a run of the protocol, up to a complete `run_workflow` |
| `Advancer.dfy`, `AdvanceLoop.dfy`, `Sweep.dfy`, `Agreement.dfy` | the database-driven advancer, its methods, the stuck-task sweep, and their agreement with the in-memory driver |
| `Claims.dfy` | claiming under arbitrary duplicate deliveries |
| `Outbox.dfy`, `OutboxRuns.dfy`, `Timestamps.dfy` | the relay and its store, its whole lives with crashes, and the order of the stored timestamps |
| `Breaker.dfy`, `Chunk.dfy`, `Scanner.dfy`, `Limiter.dfy` | the four algorithms |

## What is fixed, and what is free

A run is fixed by its plan (dependencies and attempt caps), and by an oracle that
says for each task and attempt whether executing it, verification included, comes
to success, a retryable failure or a fatal one. Workers, their number, the order
in which they take messages, and every interleaving of their statements are free;
so are the breaker's answers and the delays, which appear as put-backs. Every
dependency is a task of the plan; where a result needs the plan to be acyclic it
says so. Store, key table and dead-letter queue may hold what other workflows left.

Clocks are parameters, in microseconds or seconds, and never assumed to advance
unless a theorem says so. Python's unbounded integers are integers here and its
floating-point seconds are reals. Dictionaries and sets are maps and sets; where
the iteration order of a dictionary shows in a result it is kept beside the map,
and sets are iterated in an arbitrary order.

## Where code and comments disagree

The model follows the code.

- A half-open breaker is described as admitting one probe; it admits any number
  (`Breaker.HalfOpenAdmitsMany`).
- Finalising a workflow is described as waiting for every task to be terminal; one
  failed task is enough. A verdict is early exactly when one task has failed and
  another is not final (`Advancer.EarlyIff`), and the description holds exactly for
  plans of at most one task or without a root (`Advancer.FinalizingWaitsIff`). Early
  or not, it is never wrong (`Advancer.FinalizedForGood`).
- Claims are described as exclusive. The retry branch writes the execution state
  twice, so under duplicate deliveries they are exclusive exactly if there is at most
  one worker, or no task has an attempt that can fail retryably while its cap allows
  another (`Claims.ClaimsExclusiveIff`); likewise for the finality of completion
  (`Claims.CompletionFinalIff`). A run of the protocol has no duplicate deliveries and
  the question does not arise there.
- The dispatched set is kept so that no task is published twice. The roots are published
  outside the dispatch lock after the workers have started, so one can be exactly if some
  root other than the last one published succeeds (`RootRace.PublishedTwiceIff`).
- Idempotency keys are described as identifying one execution. The ids are joined with
  colons, so two workflows can share a key exactly if one id is the other followed by a
  colon and more (`Keys.KeysSharedIffOverlap`).
- The plan cap is described as keeping dependencies closed; it does so, for every
  bound, exactly when no cycle runs through two tasks or more
  (`Planner.CapClosedIffAcyclic`).
- The resumed graph is described as holding tasks whose dependencies are completed
  or in it; it drops failed dependencies, and tells no difference exactly when no
  task to run has one (`PartialDag.PartialDagSimulates`).
- The computed depth is described as the depth. It is never more, and with one deepest
  task it is exact exactly if all ways to that task are of one length
  (`DepthExact.ExactIffOneLength`).
- The in-memory bus is described as safe against crashes of a consumer; a message
  taken from it is gone. What that strands is exactly the dead worker's task and what
  lies below it (`Crashes.StrandedExactly`).

## Model

| member | source | states |
|---|---|---|
| `RunTheorems.ScheduleIndependence` | src/hermes/async_engine/orchestrator.py:325-370 | two complete runs of one plan under one oracle end with the same rows, graph, dispatched set and workflow status, whatever their workers and interleavings |
| `RunTheorems.CompleteRunVerdict` | src/hermes/async_engine/orchestrator.py:188-200 | in a complete run a task is completed exactly when it and all its ancestors succeed within their caps, every other task is failed; row, graph status, attempt count, dispatched set and aggregate status all say so |
| `RunTheorems.MessageConservation` | src/hermes/async_engine/worker.py:126-180 | at every moment a dispatched unfinished task has exactly one live copy (queue or worker), any other task has none; a task that failed by its own execution has one dead-letter copy, a cascaded or completed one none |
| `RunTheorems.NoMessageDropped` | src/hermes/async_engine/worker.py:142-164 | the completed, duplicate-key and lost-claim branches, which let go of a message for good, are never taken in a run |
| `RunTheorems.ExecutionBound` | src/hermes/async_engine/retry.py:86-88 | no handler runs more often than its outcomes ask for, and never more often than the attempt cap |
| `RunTheorems.SucceedsWithinItsCap` | src/hermes/async_engine/retry.py:86-88 | a task succeeds exactly when its first attempt, or one that its own cap admits, ends well and all before it ask to be repeated; a cap of zero is the policy's |
| `RunTheorems.ExecutionsWithinItsCap` | src/hermes/async_engine/retry.py:86-88 | in every reachable state a task was executed at most as often as its own cap says, and at most once if that is below one |
| `RunTheorems.ExecutionsOfACompleteRun` | src/hermes/async_engine/retry.py:86-88 | in a complete run a dispatched task was executed exactly up to its first attempt that did not ask to be repeated, or up to its own cap if none came sooner |
| `RunTheorems.StatusRefinement` | src/hermes/async_engine/contract.py:66-101 | every write to a task's status column in a run, the cascade included, is no change or one of six: claimed, completed, sent to retry, claimed again, failed, cascaded to; each is a published transition, and a completed or failed task keeps its status |
| `Invariant.InitInv` | src/hermes/async_engine/orchestrator.py:392-394 | the state once the roots are published satisfies the run invariant |
| `Invariant.StepInv` | src/hermes/async_engine/worker.py:126-319 | every statement of every worker and both hooks keep the run invariant: one copy per dispatched task, row and counters as the holder's position demands, keys owned by their task, graph statuses justified by the oracle |
| `Invariant.ReachableInv` | src/hermes/async_engine/orchestrator.py:325-370 | the invariant holds in every reachable state of every run |
| `Invariant.GuardsNeverDrop` | src/hermes/async_engine/worker.py:142-164 | under the invariant no discard is enabled |
| `Progress.NoDeadlock` | src/hermes/async_engine/orchestrator.py:339-370 | while a task of an acyclic plan is pending, some step other than a put-back is enabled |
| `Progress.ReachableNoDeadlock` | src/hermes/async_engine/orchestrator.py:339-370 | the same for every reachable state: a queued or held message can always make progress |
| `Progress.StepMeasure` | src/hermes/async_engine/worker.py:170-290 | every step that is not an early or breaker put-back lowers one measure summed over the pending tasks; a put-back raises it by at most three |
| `Progress.RunsAreBounded` | src/hermes/async_engine/retry.py:86-88 | the number of steps of a run is bounded by twenty per attempt of the plan and four per put-back, so runs with finitely many put-backs end |
| `Progress.CanAlwaysFinish` | src/hermes/async_engine/orchestrator.py:395-400 | from every reachable state of an acyclic plan some continuation completes the run |
| `Progress.EveryPlanCompletes` | src/hermes/async_engine/orchestrator.py:392-400 | every acyclic plan, whatever its workflow is called, has a complete run |
| `RootRace.PublishedTwiceIff` | src/hermes/async_engine/orchestrator.py:390-394 | with the roots published beside the running workers, outside the lock: some task can be published twice if and only if some root other than the one the loop comes to last succeeds |
| `RootRace.RaceFrom` | src/hermes/async_engine/orchestrator.py:339-394 | the run that does it: an earlier root completes, its hook publishes every root the loop has not come to, and then so does the loop |
| `RootRace.RootsMightAsWellComeFirst` | src/hermes/async_engine/orchestrator.py:390-394 | otherwise every state of such a run is, up to the order of the queue, a reachable state of the protocol with the roots to come already queued; every task published was published once, and a complete state has the rows the oracle alone demands |
| `RootRace.StepAlike` | src/hermes/async_engine/backends.py:65-90 | whatever a worker can do under one order of the queue it can do under any other, with the same effect |
| `Crashes.DeadWorkerStrands` | src/hermes/async_engine/backends.py:71-80 | once a worker dies with a message in hand, whatever the others do its task stays pending and undelivered, nothing below it is dispatched or completed, and the run never completes |
| `Crashes.StrandedExactly` | src/hermes/async_engine/backends.py:71-80 | when the others have nothing left to do, the tasks still pending are exactly the dead worker's and those below it that no other failure has cascaded to |
| `Crashes.RestCanFinish` | src/hermes/async_engine/worker.py:116-124 | with another worker alive the others can always get to that point |
| `Keys.DecimalInjective` | src/hermes/async_engine/orchestrator.py:135-138 | attempt numbers print differently |
| `Keys.DecimalReads` | src/hermes/async_engine/orchestrator.py:135-138 | the digits printed for an attempt number read back as that number, without a leading zero |
| `Keys.KeyText` | src/hermes/async_engine/orchestrator.py:135-138 | the text hashed for a key is the workflow, the task and the attempt number in decimal, with colons between |
| `Keys.KeyInjectiveInWorkflow` | src/hermes/async_engine/orchestrator.py:135-138 | within one workflow the text workflow:task:attempt determines task and attempt, colons or not |
| `Keys.KeyInjective` | src/hermes/async_engine/orchestrator.py:135-138 | across workflows it determines all three when neither workflow id is the other followed by a colon and more |
| `Keys.KeysSharedIffOverlap` | src/hermes/async_engine/orchestrator.py:135-138 | two different workflows can share a key if and only if one id is the other followed by a colon and more |
| `Engine.Orchestrator.Dispatch` | src/hermes/async_engine/orchestrator.py:141-145 | puts the task's first message at the end of its queue and leaves the dead-letter queue alone |
| `Engine.Orchestrator.DispatchNew` | src/hermes/async_engine/orchestrator.py:339-342 | publishes exactly those of the ready tasks that were not dispatched before, each once, and marks all of them dispatched |
| `Engine.Orchestrator.CompleteTask` | src/hermes/async_engine/orchestrator.py:327-339 | marks the task completed in graph and store, writes no other workflow's row, and returns exactly the tasks ready after it, each once |
| `Engine.Orchestrator.OnDone` | src/hermes/async_engine/orchestrator.py:325-342 | the completion hook's loop over graph, store and bus leaves the objects in the state the protocol's done-hook step leads to, other workflows' rows and dead letters as they were, and what it publishes is not delayed |
| `Engine.Orchestrator.OnFail` | src/hermes/async_engine/orchestrator.py:344-370 | the failure hook and its cascade leave the objects in the state the protocol's fail-hook step leads to, other workflows' rows as they were |
| `Engine.Orchestrator.FailTask` | src/hermes/async_engine/orchestrator.py:345-370 | marks the task and its still pending descendants failed in graph and store, and writes no other row |
| `Engine.Orchestrator.Cascade` | src/hermes/async_engine/orchestrator.py:362-367 | fails in graph and store exactly the listed tasks that are still pending |
| `Engine.DescendantsAgree` | src/hermes/async_engine/dag.py:64-82 | the cascade's search over the recorded dependents edges finds what reversing the dependencies gives |
| `Workers.Worker.Admit` | src/hermes/async_engine/worker.py:135-159 | the guards in their order, with what each leaves: put back when early, to be due when it was to be; let go when completed or the key is another task's; put back when the breaker refuses, to be due after the first backoff; else admitted; each a run of this worker alone |
| `Workers.Worker.Duplicate` | src/hermes/async_engine/worker.py:142-153 | a duplicate exactly when the task is completed or the message's key is another task's |
| `Workers.Worker.PutBack` | src/hermes/async_engine/worker.py:135-159 | the message goes back whole, to be due after the delay and never in the past, and the worker is free |
| `Workers.Worker.Claim` | src/hermes/async_engine/worker.py:161-168 | wins exactly when the row was claimable, and then owns row and key |
| `Workers.Worker.Execute` | src/hermes/async_engine/worker.py:182-232 | records the attempt and ends as the oracle says, one execution counted |
| `Workers.Worker.Complete` | src/hermes/async_engine/worker.py:234-248 | success recorded, breaker closed, processed counted once, and the completion hook run on exactly that state |
| `Workers.Worker.OnFailure` | src/hermes/async_engine/worker.py:250-290 | retries exactly when the failure is retryable and the attempt is below the task's own cap, or the policy's if that is zero, counting one failure; otherwise dead-letters and cascades, counting two; the breaker records it either way |
| `Workers.Worker.Retry` | src/hermes/async_engine/worker.py:256-284 | the queue gains exactly one entry: the task with the next attempt and that attempt's key, due after that attempt's backoff; the row is retrying with the next attempt, and the worker is free |
| `Workers.RetriedIsHeldBack` | src/hermes/async_engine/worker.py:256-284 | a retried message is delivered and past the early guard exactly when its backoff has passed |
| `Workers.Worker.DeadLetterAndAck` | src/hermes/async_engine/worker.py:292-319 | one dead-letter copy, the row failed, one more failure counted |
| `Workers.Worker.GiveUp` | src/hermes/async_engine/worker.py:286-290 | the dead-lettered task's failure hook is run on exactly the state dead-lettering leaves |
| `Workers.Worker.Settle` | src/hermes/async_engine/worker.py:170-180 | execution and settlement end as oracle and cap demand, with the counters and the breaker to match; the queue gains the retried copy, or undelayed first messages of tasks now ready, or nothing |
| `Workers.Worker.Process` | src/hermes/async_engine/worker.py:126-180 | a whole delivery is a run of the protocol in which only this worker moves and after which it is idle; which ending it has is decided exactly by the clock, the guards, the breaker and the claim, and the queue gains what that ending puts there, when due; processed and failed count how it ended |
| `Workers.Worker.Receive` | src/hermes/async_engine/worker.py:116-122 | takes the first due message and no other off the queue, as the protocol's taking step, and nothing exactly when nothing is due |
| `Workers.Worker.PumpOnce` | src/hermes/async_engine/worker.py:116-124 | takes the first due message if there is one and processes it, as a run of this worker; otherwise changes nothing; the queue afterwards is the old one without that message and with what its ending puts there. Where everything is due and every cooldown over, nothing is put back, and so it is again once the longest delay has passed |
| `Workflow.CreateTasks` | src/hermes/async_engine/orchestrator.py:105-133 | one fresh row for each node, in order, beside the rows of other workflows; stops exactly when an id is given twice or taken, with the rows written so far in place |
| `Workflow.PublishRoots` | src/hermes/async_engine/orchestrator.py:392-394 | publishing the roots, before any worker takes a message, leaves an initial state of the protocol |
| `Workflow.Launch` | src/hermes/async_engine/orchestrator.py:304-394 | on a store and a dead-letter queue other workflows have used: row creation, graph and root dispatch end in an initial state of the protocol; no run starts exactly when an id is given twice or taken; a plan is rejected exactly when a depth search says so, hence only for a chain longer than the limit, never letting pass a task whose shortest way from a root is longer, and on forests exactly for such a chain |
| `Workflow.BuildPool` | src/hermes/async_engine/worker.py:334-346 | one new worker for each name, all on the same orchestrator and breaker |
| `Workflow.PumpAll` | src/hermes/async_engine/orchestrator.py:390-403 | any order of polls by the pool's workers is a run of the protocol, reports finished exactly when no task is pending, and otherwise used every round on a step or an idle poll; on an acyclic plan and a clock that leaves time for every backoff and cooldown no poll is idle and none puts a message back |
| `Workflow.Aggregate` | src/hermes/async_engine/orchestrator.py:188-200 | completed exactly when every row of the workflow is |
| `Workflow.RunWorkflow` | src/hermes/async_engine/orchestrator.py:270-410 | end to end, on a store shared with other workflows, with any number of workers polling in any order: the depth guard decides as for Launch; a run that finishes leaves each row of the plan as the oracle alone demands, the workflow is completed exactly when every task succeeds within its cap, and the rows and dead letters of others are as they were; one that is cut off had no more polls than its attempts, put-backs and idle polls account for; so an acyclic plan on a clock that leaves time for backoffs and cooldowns finishes once there are more than twenty polls for each attempt, whoever polls when |
| `Store.AsyncTaskStore.CreateTask` | src/hermes/async_engine/store.py:299-313 | a fresh queued row, unless the id is taken |
| `Store.AsyncTaskStore.MarkStarted` | src/hermes/async_engine/store.py:432-453 | the compare-and-set: won exactly when the row existed and was neither running nor completed; the winner leaves both columns running, a loser writes nothing |
| `Store.AsyncTaskStore.MarkCompleted` | src/hermes/async_engine/store.py:455-465 | both columns completed, all other rows untouched |
| `Store.AsyncTaskStore.MarkFailed` | src/hermes/async_engine/store.py:467-477 | both columns failed, all other rows untouched |
| `Store.AsyncTaskStore.MarkRetried` | src/hermes/async_engine/store.py:479-484 | both columns retrying and the attempt written |
| `Store.AsyncTaskStore.MarkDispatched` | src/hermes/async_engine/store.py:486-490 | execution state queued, status untouched |
| `Store.AsyncTaskStore.StoreIdempotencyKey` | src/hermes/async_engine/store.py:493-502 | the first task to store a key keeps it |
| `Store.AsyncTaskStore.DispatchableTasks` | src/hermes/async_engine/store.py:359-373 | distinct fresh tasks whose dependencies are all completed, all the query finds unless the limit binds |
| `Store.AsyncTaskStore.FailTasksWithFailedDeps` | src/hermes/async_engine/store.py:375-394 | fails exactly the tasks it returns: distinct queued tasks with a failed dependency, all of them unless the limit binds |
| `Bus.InMemoryBus.Publish` | src/hermes/async_engine/backends.py:65-69 | appends to the named queue and to no other |
| `Bus.InMemoryBus.Requeue` | src/hermes/async_engine/backends.py:82-90 | appends with a due time that is never in the past |
| `Bus.RequeuedIsDue` | src/hermes/async_engine/backends.py:71-95 | a requeued message can be delivered exactly once its delay has passed, a nanosecond short; a negative delay counts as none |
| `Bus.InMemoryBus.Get` | src/hermes/async_engine/backends.py:71-80 | takes out the earliest entry that is due, a nanosecond early at most, and no other, with a fresh tag; returns nothing only when every entry is due later |
| `Bus.NothingLostOrRepeated` | src/hermes/async_engine/backends.py:65-90 | over any sequence of calls, what was put is, as a multiset, what was delivered and what is queued |
| `Bus.UndelayedIsFifo` | src/hermes/async_engine/backends.py:112-116 | without delays a queue is first in, first out |
| `Advancer.StepInv` | src/hermes/async_engine/orchestrator.py:419-429 | every statement of the advancer and every worker write between them keep the advancer's invariant |
| `Advancer.DispatchableIsReady` | src/hermes/async_engine/store.py:359-373 | between passes the SQL query finds exactly the graph's ready tasks that are not yet published |
| `Advancer.PublishedOnce` | src/hermes/async_engine/orchestrator.py:419-429 | no task is published twice, and none before its dependencies are completed |
| `Advancer.SweepsAreTheCascade` | src/hermes/async_engine/store.py:375-394 | in every reachable state, sweeping until nothing is stuck, under any limits, or as many unlimited sweeps as the longest chain below a failure has edges, fails exactly the unfailed descendants of failed tasks |
| `Advancer.FinalizedForGood` | src/hermes/async_engine/store.py:396-421 | a verdict once given is never revised, and when all tasks are final it is completed exactly when all of them are |
| `Advancer.EarlyIff` | src/hermes/async_engine/store.py:396-421 | in every reachable state a verdict is early exactly when one task has failed and another is not final |
| `Advancer.RootFailsFirst` | src/hermes/async_engine/store.py:396-421 | in every plan with a root and another task such a state is reached |
| `Advancer.FinalizingWaitsIff` | src/hermes/async_engine/store.py:396-421 | between statements a verdict always waits for every task, as the method's description says, if and only if the plan has at most one task, or no root and so nothing to run |
| `AdvanceLoop.AdvanceOnce` | src/hermes/async_engine/orchestrator.py:419-429 | a pass is a run of the advancer's system; it publishes one message for each task it selects, which is every task that can be dispatched unless the limit binds, and takes exactly those out of what can be dispatched |
| `AdvanceLoop.PassConsumes` | src/hermes/async_engine/orchestrator.py:419-429 | after a pass the query no longer finds what was dispatched and finds all the rest |
| `AdvanceLoop.SweepOnce` | src/hermes/async_engine/store.py:375-394 | a stuck-task sweep is a run of the advancer's system, and fails every stuck task unless the limit binds |
| `Sweep.SweepsConverge` | src/hermes/async_engine/store.py:375-394 | on any table with nothing started below a failure, limited sweeps that reach a fixpoint fail exactly the tasks below a failure |
| `Sweep.LongestChainSweeps` | src/hermes/async_engine/store.py:375-394 | as many unlimited sweeps as the longest chain below a failure has edges are enough |
| `Sweep.BusySweepsBounded` | src/hermes/async_engine/store.py:375-394 | limited sweeps that each fail something are at most as many as the tasks below a failure |
| `Sweep.LimitedSweepsFinish` | src/hermes/async_engine/store.py:375-394 | so as many sweeps under any limits as there are such tasks reach the fixpoint and leave exactly those tasks failed |
| `Agreement.DoomedIsAwaitingCascade` | src/hermes/async_engine/orchestrator.py:359-370 | in every reachable state of a run, what sweeps would still fail is exactly what the outstanding failure hooks will cascade to |
| `Agreement.SweepsEqualTheHook` | src/hermes/async_engine/orchestrator.py:344-370 | with one failure hook outstanding, sweeping to a fixpoint leaves the very table the hook leaves |
| `Agreement.NothingToSweep` | src/hermes/async_engine/store.py:375-394 | with no failure hook outstanding a sweep finds nothing |
| `Agreement.WorkersWriteAsExpected` | src/hermes/async_engine/worker.py:182-319 | what a run's workers write is what the advancer's system lets workers write |
| `Claims.StepInv` | src/hermes/async_engine/worker.py:182-290 | with any message delivered any number of times, every statement of every worker keeps: a task is marked running while one worker owns it, except after a retry's first write |
| `Claims.ClaimsExclusiveIff` | src/hermes/async_engine/store.py:432-477 | in the code as written no two workers ever own one task if and only if there is at most one worker, or no task has an attempt that can fail retryably while its cap allows another; the same for the mark on the row |
| `Claims.MayRetryByOwnCap` | src/hermes/async_engine/retry.py:86-88 | the tasks meant are those with an attempt below their own cap, or the policy's if that is zero, that can fail retryably |
| `Claims.CompletionFinalIff` | src/hermes/async_engine/store.py:455-477 | a completed task stays completed in every run if and only if there is at most one worker, or no task that may retry may also complete |
| `Claims.RetryRaceTwoOwners` | src/hermes/async_engine/worker.py:264-272 | for every task that may retry and any two workers, a run in which both execute it at once |
| `Claims.RetryRaceForgets` | src/hermes/async_engine/worker.py:264-272 | for every task that may retry and complete, a run in which its completed mark is overwritten |
| `Claims.RepairedRetryIsSafe` | src/hermes/async_engine/store.py:479-484 | were the retry's two writes of the execution state one, claims would be exclusive and completion final for all plans and workers |
| `Dag.TaskDAG.Add` | src/hermes/async_engine/dag.py:31-37 | the first declaration of an id stands and keeps its place, every edge is recorded at both ends, nothing else changes |
| `Dag.TaskDAG.ReadyTasks` | src/hermes/async_engine/dag.py:39-47 | exactly the pending tasks whose dependencies are all completed, each once, in the order they were added |
| `Dag.TaskDAG.MarkCompleted` | src/hermes/async_engine/dag.py:49-59 | for a task not completed before, returns exactly the ready set after minus the ready set before |
| `Dag.NewlyReadyIsIncrement` | src/hermes/async_engine/dag.py:49-59 | the returned tasks are that increment if and only if the task was not completed before or has no ready child |
| `Dag.TaskDAG.Descendants` | src/hermes/async_engine/dag.py:64-82 | on any graph, cycles included, exactly the tasks other than the start reachable along dependents edges, each once |
| `Depth.DepthIsChain` | src/hermes/async_engine/dag.py:113-121 | the computed depth is the length of a real chain of different tasks, so it is never more than the longest chain |
| `Depth.ForestDepth` | src/hermes/async_engine/dag.py:113-121 | on forests no chain is longer than the computed depth |
| `Depth.DiamondUnderestimated` | src/hermes/async_engine/dag.py:113-121 | on a diamond with a shortcut the shared visited set reports 3 for a chain of 4 |
| `DepthExact.DepthAtLeastShortest` | src/hermes/async_engine/dag.py:113-121 | under every iteration order, on any graph, the depth is at least the shortest way to any task that can be reached |
| `DepthExact.ExactWhenOneLength` | src/hermes/async_engine/dag.py:113-121 | it is exact under every order when some deepest task is reached by ways of one length only, as on a plain diamond |
| `DepthExact.ExactIffOneLength` | src/hermes/async_engine/dag.py:113-121 | on an acyclic graph with one deepest task it is exact under every order if and only if all ways to that task are of one length |
| `Depth.ComputeDepth` | src/hermes/async_engine/dag.py:113-121 | the search with its mutable visited set computes the depth function, and ends on cyclic graphs |
| `Depth.BuildDag` | src/hermes/async_engine/dag.py:91-110 | rejects exactly when the search from some root reports more than the limit, under the order its sets are iterated in; so only plans with a chain longer than the limit, and on forests all of those |
| `DepthExact.AcceptedIsShallow` | src/hermes/async_engine/dag.py:103-110 | in an accepted plan no task's shortest way from a root is longer than the limit |
| `DepthExact.GuardExactWhenOneLength` | src/hermes/async_engine/dag.py:103-110 | where each root has a deepest task reached by ways of one length, a plan is rejected if and only if it has a chain longer than the limit |
| `DepthExact.Verdict` | src/hermes/async_engine/dag.py:91-110 | in terms of the plan alone: the guard rejects only plans with a chain longer than the limit, lets pass only plans where every task has a way from each root above it within the limit, and on forests rejects exactly the former |
| `PartialDag.ComputePartialDag` | src/hermes/async_engine/state_machine.py:97-127 | the three loops build the graph task by task: a task to run keeps only its dependencies on tasks to run, a finished one all of its own; failed before completed before pending |
| `PartialDag.PartialDagSimulates` | src/hermes/async_engine/state_machine.py:97-127 | that graph reports the original's ready set under all later completions if and only if no task to run waits for a failed or unknown one; so always when nothing failed |
| `Planner.Keeper.Keep` | src/hermes/async_engine/loops/planner.py:146-153 | the recursive keep, filling list and set in place, computes the post-order closure |
| `Planner.CapNodes` | src/hermes/async_engine/loops/planner.py:134-159 | the loop computes the capped plan |
| `Planner.CapKeepsAsManyAsAllowed` | src/hermes/async_engine/loops/planner.py:139-159 | on any plan with unique ids exactly as many nodes as the bound allows, none twice, all from the plan |
| `Planner.CapFollowsThePlan` | src/hermes/async_engine/loops/planner.py:146-159 | which nodes survive, on any plan with unique ids: a node kept although nothing before it in the plan needs it is kept together with every node before it |
| `Planner.CapClosedIffAcyclic` | src/hermes/async_engine/loops/planner.py:134-159 | for unique ids and known dependencies: no cut, whatever the bound, drops a dependency of a kept node if and only if no cycle runs through two tasks or more |
| `Planner.CapKeepsClosure` | src/hermes/async_engine/loops/planner.py:134-159 | for such plans every dependency of a kept node is kept, a truncated plan is in topological order, and every prefix of it is closed |
| `Planner.PrefixClosed` | src/hermes/async_engine/loops/planner.py:159 | a prefix of a topological order keeps all dependencies of what it keeps |
| `Planner.CapBreaksCycles` | src/hermes/async_engine/loops/planner.py:134-159 | on a cyclic plan the cap can keep a node and drop its dependency |
| `Outbox.OutboxStore.GetUnpublished` | src/hermes/async_engine/store.py:572-589 | the oldest due waiting rows in order of id, all of them unless the limit binds |
| `Outbox.OutboxStore.InsertEvent` | src/hermes/async_engine/store.py:559-570 | a new waiting row under an id not used before, due at once |
| `Outbox.OutboxStore.MarkAllPublished` | src/hermes/async_engine/store.py:596-605 | one update for all the ids, and no other row |
| `Outbox.OutboxRelay.RecordFailure` | src/hermes/async_engine/outbox.py:150-170 | another attempt exactly when the failure is retryable and the attempts are below the relay's own cap, or the policy's if that is zero; then the row can be selected again exactly from the moment the schedule's delay for that attempt, or its last, has passed; else dead-lettered; counted accordingly |
| `Outbox.OutboxRelay.PollOnce` | src/hermes/async_engine/outbox.py:77-105 | a sweep writes for each row it considered what its publication came to, touches no other row, and its lists and counters say so: published exactly if accepted, retried exactly if retryable and below the cap, and then due again exactly after the schedule's delay |
| `OutboxRuns.ReportPartitions` | src/hermes/async_engine/outbox.py:81-105 | the published, retried and dead lists partition the rows considered, each in order |
| `OutboxRuns.SweepIsRun` | src/hermes/async_engine/outbox.py:77-105 | what a sweep leaves is what its statements leave one by one in the crash model, with one more emission of each row it published |
| `OutboxRuns.StepInv` | src/hermes/async_engine/outbox.py:85-99 | inserts, every statement of a sweep, and a crash between any two keep the outbox invariant |
| `OutboxRuns.OutboxSafety` | src/hermes/async_engine/outbox.py:77-170 | always: waiting, published or dead and never two; waiting rows have attempts left, dead ones used at most the cap; a published row was emitted at least once, and no row more than once beyond the number of crashes |
| `OutboxRuns.FailedIsHeldBack` | src/hermes/async_engine/outbox.py:150-170 | in every reachable state: a recorded failure ends a row exactly when it is not retryable or the cap is reached; otherwise the row can be selected again exactly from the moment the schedule's delay for its attempts, or the last, has passed |
| `OutboxRuns.ExactlyOnceWithoutCrashes` | src/hermes/async_engine/outbox.py:85-99 | without crashes, between sweeps, a row was emitted exactly once if published and never otherwise |
| `OutboxRuns.OverIsFinal` | src/hermes/async_engine/store.py:572-620 | published and dead rows are never written or emitted again |
| `OutboxRuns.OverWithinBudget` | src/hermes/async_engine/outbox.py:77-170 | in any run, crashes and inserts included, sweeps decide about a row no more often than it has attempts, and a row decided about that often is published or dead-lettered |
| `OutboxRuns.SweepDecidesOnce` | src/hermes/async_engine/outbox.py:77-105 | a sweep that is not cut short decides exactly once about each row of its batch and about no other |
| `Timestamps.Reading` | src/hermes/async_engine/outbox.py:37-39 | every instant of the years 1 to 9999 has a valid calendar reading that stands for it |
| `Timestamps.IsoIsTheReading` | src/hermes/async_engine/outbox.py:37-39 | a stored text is the calendar reading whose distance from the start of 1970 is the instant, and no other |
| `Timestamps.IsoFormatParts` | src/hermes/async_engine/outbox.py:37-39 | the text is year, month, day, hour, minute and second zero-padded between their marks, a six-digit fraction only when it is not zero, and the offset of UTC |
| `Timestamps.PaddedReads` | src/hermes/async_engine/outbox.py:37-39 | padded numbers have their width, are digits only, and read back as the number |
| `Timestamps.MonthLengths` | src/hermes/async_engine/outbox.py:37-39 | readings follow the Gregorian months and leap years |
| `Timestamps.EpochText` | src/hermes/async_engine/outbox.py:37-39 | the epoch is written 1970-01-01T00:00:00+00:00 |
| `Timestamps.TextOrderIsTimeOrder` | src/hermes/async_engine/store.py:581-588 | the stored texts compare as the instants do, with or without a fraction, so the due test is right |
| `Timestamps.SecondOrder` | src/hermes/async_engine/outbox.py:37-39 | seconds without a fraction and seconds with one compare as numbers, because '+' sorts before '.' |
| `Breaker.CircuitBreaker.Allow` | src/hermes/async_engine/loops/reliability.py:48-55 | admits exactly when the type is not open or its cooldown is over, then noting the probe, and changes nothing else |
| `Breaker.CircuitBreaker.RecordSuccess` | src/hermes/async_engine/loops/reliability.py:57-61 | forgets the type's failures, opening time and probe, and no other type's |
| `Breaker.CircuitBreaker.RecordFailure` | src/hermes/async_engine/loops/reliability.py:63-69 | counts, and opens exactly at the threshold or on a failed probe |
| `Breaker.AllowRefusesByHistory` | src/hermes/async_engine/loops/reliability.py:48-69 | after any calls and for any threshold, allow refuses exactly when the failures since the type's last success reach the threshold (one at least) and the last is within the cooldown |
| `Breaker.TypesAreIsolated` | src/hermes/async_engine/loops/reliability.py:40-69 | two histories with the same successes and failures of a type get the same answers for it: other types and the probing set never matter |
| `Breaker.HalfOpenAdmitsMany` | src/hermes/async_engine/loops/reliability.py:48-55 | once half-open, any number of callers are admitted until an outcome is recorded |
| `Chunk.ChunkDocument` | src/hermes/ingestion/chunk.py:13-36 | the loop computes the greedy chunks |
| `Chunk.ChunksLosslessAndFewest` | src/hermes/ingestion/chunk.py:17-36 | for a positive bound: the chunks joined are the non-blank texts joined, each is within the bound or a single block, and no division into such chunks is shorter |
| `Chunk.GreedyIsOptimal` | src/hermes/ingestion/chunk.py:20-32 | greedy packing uses no more groups than any division into consecutive fitting groups |
| `Chunk.JoinWords` | src/hermes/ingestion/chunk.py:24-32 | a chunk's words are the words of its blocks added up |
| `Chunk.WordCountCountsWords` | src/hermes/ingestion/chunk.py:25 | text made of n words with white space between them counts as n words |
| `Chunk.StripIs` | src/hermes/ingestion/chunk.py:26 | stripping takes white space off both ends and leaves none there |
| `Chunk.JoinedLinesSplit` | src/hermes/ingestion/chunk.py:31 | joined lines, split at their line breaks, are the lines again |
| `Chunk.HeadingsStay` | src/hermes/ingestion/chunk.py:25-36 | a block with no white space at its ends stands whole in some chunk, its heading in front of its text |
| `Scanner.IterJsonObjects` | src/hermes/procurement/handlers.py:62-94 | the index-and-depth loop ends and returns what the reference scan finds |
| `Scanner.MatchingEnd` | src/hermes/procurement/handlers.py:75-83 | one past the brace that closes the one at the start, within the window, or -1 exactly when none does |
| `Scanner.ScanRoundTrip` | src/hermes/procurement/handlers.py:62-94 | text made of prose without closing braces and whole objects that fit the window gives back exactly the objects that parse, in order, however many stray opening braces there are |
| `Scanner.WholeIffPrinted` | src/hermes/procurement/handlers.py:75-83 | what closes exactly at its end is exactly what a grammar of braces around characters that are no brace prints |
| `Scanner.PrintedRoundTrip` | src/hermes/procurement/handlers.py:62-94 | so text made of prose without closing braces and objects printed from the grammar, each within the window, gives back exactly the objects that parse, in order |
| `Scanner.DepthCounts` | src/hermes/procurement/handlers.py:75-83 | the depth is the number of opening braces less the number of closing ones |
| `Limiter.ChatHandler.Limited` | src/hermes/telegram_chat/handler.py:86-91 | answers and truncates the chat's list, and touches no other chat's |
| `Limiter.AnswersLikeTheFullLog` | src/hermes/telegram_chat/handler.py:86-91 | with a clock that does not step back, refused exactly when the complete log of all calls holds at least 30 of this chat less than 60 seconds ago |
| `Limiter.NeverRefusesWrongly` | src/hermes/telegram_chat/handler.py:86-91 | whatever the clock does, a refused call is one the complete log would refuse too: the truncated list can only admit more |
| `Limiter.NoBurst` | src/hermes/telegram_chat/handler.py:86-91 | no stretch of less than 60 seconds contains more than 30 accepted calls of a chat |
| `Limiter.ClockSteppingBackForgets` | src/hermes/telegram_chat/handler.py:86-91 | when the clock steps back the truncated list admits a call the complete log would refuse |

## Left out

- Workflow.RunWorkflow: the run's work queue starts empty, and the roots are published before the first poll (`RootRace` has the loop beside the workers). Each poll is one undisturbed turn of a worker, and a number of polls stands for the wall-clock timeout. Workers interleaving statement by statement are the subject of `Protocol` and the theorems about it.
- Workflow.Launch: the run's work queue starts empty; messages of another run on the same queue, which its workers would take, are not modelled. The budgets on the number of tasks, task types and iterations are not checked; only the depth limit is.
- Workers.Worker.Execute: handler, verifier, deadline and cost budget are one outcome of the oracle; a budget stop is a fatal one. Partial results and elapsed times are not stored.
- Workers.Worker.Process: messages are well formed, so the branch that dead-letters a message that does not parse is absent, and hooks do not raise.
- Workers.Worker.PumpOnce: one queue is served, where the source polls one for each task type.
- Workers.Worker.DeadLetterAndAck: an exception from the bus or the store, which the source swallows, does not happen.
- Store.AsyncTaskStore.DispatchableTasks: the order by priority and creation time is not kept; any order is allowed.
- Store.AsyncTaskStore.CreateTask: of a row only status, execution state and attempt are kept; timestamps, payload and the resume payload are not.
- Store.AsyncTaskStore.MarkCompleted: the result row and the worker's name are not stored.
- Store.AsyncTaskStore.MarkFailed: the error text, the result row and the worker's name are not stored.
- AdvanceLoop.AdvanceOnce: all task types go to one queue.
- Advancer.FinalizedForGood: workers never leave a row partial here, so the verdict's acceptance of partial rows plays no part.
- Bus.InMemoryBus.Get: acknowledging is not modelled, since it has no effect on this bus.
- Keys.KeysSharedIffOverlap: the hash and its truncation are taken as injective.
- Limiter.AnswersLikeTheFullLog: stated for a clock that does not step back; `Limiter.ClockSteppingBackForgets` shows why, and `Limiter.NeverRefusesWrongly` is the half that needs no such clock.
- Timestamps.TextOrderIsTimeOrder: the rounding of floating-point seconds to microseconds is outside, and so are collations other than by character code.
- Chunk.ChunkDocument: the normalised text used when the bound is not positive is a parameter.
- Scanner.ScanRoundTrip: braces are counted as the code counts them, without regard to string literals; parsing is a parameter.
- RootRace.PublishedTwiceIff: marking a root dispatched and publishing it are one step of the loop; what a second copy of a message goes on to do is the subject of `Claims`.
- Crashes.DeadWorkerStrands: a worker dies only between its statements.
- Tasks of several types share one queue in the run protocol; routing by task type is not modelled.
- A task's columns in the two tables are created together and never deleted, so a row stands for both.
- Resuming a workflow, submitting one through the service, and reading its state: they rewrite execution state or dispatch again outside the protocol.
- RabbitMQ, Kafka, Postgres and SQLite drivers, JSON encoding, threads and locks as such: abstracted to atomic updates and interleaved steps.
- Events, metrics, tracing and evaluation records: observability only.
- Failure classification by message text, the transition lookup, backoff tables and routing tables alone: single-branch facts.
- Planning by templates or by a language model, and validating a plan's node fields.
