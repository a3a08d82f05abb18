/**
 Claiming under at-least-once delivery. Any message may be delivered any number
 of times to any worker, with no orchestrator to keep publications single; the
 only protection left is the compare-and-set on execution_state.

 The retry branch of the worker writes execution_state in two separate statements,
 and another worker may claim the task between them. Proved here: for which tasks,
 caps and numbers of workers the claims are exclusive all the same.
 */
module Claims {
  import opened Contract

  datatype Worker =
    | Idle
    | Delivered(t: TaskId, a: nat)      // message in hand, nothing checked
    | Checked(t: TaskId, a: nat)        // seen as not completed
    | Owner(t: TaskId, a: nat)          // won the claim, executing or settling
    | HalfRetried(t: TaskId, a: nat)    // first of the two retry writes done

  /**
   `outcomes` says how executing an attempt of a task can end; it is empty for
   attempts no message carries. `repaired` stands for a retry branch whose two
   writes are one statement; the source's is not.
   */
  datatype Config = Config(
    maxAttempts: map<TaskId, int>,
    policyMax: int,
    outcomes: (TaskId, nat) -> set<Outcome>,
    workers: set<WorkerId>,
    repaired: bool)
  {
    predicate Retries(t: TaskId, a: nat) {
      t in maxAttempts && Retryable in outcomes(t, a) && ShouldRetry(a, maxAttempts[t], policyMax)
    }

    predicate Fails(t: TaskId, a: nat) {
      t in maxAttempts
      && (Fatal in outcomes(t, a) || (Retryable in outcomes(t, a) && !ShouldRetry(a, maxAttempts[t], policyMax)))
    }

    /** Some attempt of the task can end in a retryable failure with attempts left. */
    ghost predicate MayRetry(t: TaskId) {
      exists a: nat :: Retries(t, a)
    }

    ghost predicate MayComplete(t: TaskId) {
      t in maxAttempts && exists a: nat :: Ok in outcomes(t, a)
    }
  }

  /** Which tasks may retry, by the caps themselves. */
  lemma MayRetryByOwnCap(c: Config, t: TaskId)
    requires t in c.maxAttempts
    ensures var cap := if c.maxAttempts[t] == 0 then c.policyMax else c.maxAttempts[t];
            c.MayRetry(t) <==> exists a: nat :: a < cap && Retryable in c.outcomes(t, a)
  {
    var cap := if c.maxAttempts[t] == 0 then c.policyMax else c.maxAttempts[t];
    assert forall a: nat :: c.Retries(t, a) <==> a < cap && Retryable in c.outcomes(t, a);
  }

  datatype State = State(exec: map<TaskId, TaskStatus>, workers: map<WorkerId, Worker>)

  datatype Step =
    | Deliver(w: WorkerId, t: TaskId, a: nat)
    | SeeCompleted(w: WorkerId)
    | PassCheck(w: WorkerId)
    | PutBack(w: WorkerId)
    | LoseClaim(w: WorkerId)
    | WinClaim(w: WorkerId)
    | WriteProgress(w: WorkerId)
    | Complete(w: WorkerId)
    | Fail(w: WorkerId)
    | Retry(w: WorkerId)
    | RetryFirstWrite(w: WorkerId)
    | RetrySecondWrite(w: WorkerId)

  predicate Claimable(x: TaskStatus) {
    x != COMPLETED && x != RUNNING
  }

  predicate Enabled(c: Config, s: State, step: Step) {
    && step.w in s.workers
    && var h := s.workers[step.w];
       match step
       case Deliver(_, t, a) => h.Idle? && t in s.exec && c.outcomes(t, a) != {}
       case SeeCompleted(_) => h.Delivered? && h.t in s.exec && s.exec[h.t] == COMPLETED
       case PassCheck(_) => h.Delivered? && h.t in s.exec && s.exec[h.t] != COMPLETED
       case PutBack(_) => h.Delivered? || h.Checked?
       case LoseClaim(_) => h.Checked? && h.t in s.exec && !Claimable(s.exec[h.t])
       case WinClaim(_) => h.Checked? && h.t in s.exec && Claimable(s.exec[h.t])
       case WriteProgress(_) => h.Owner?
       case Complete(_) => h.Owner? && h.t in c.maxAttempts && Ok in c.outcomes(h.t, h.a)
       case Fail(_) => h.Owner? && c.Fails(h.t, h.a)
       case Retry(_) => h.Owner? && c.Retries(h.t, h.a) && c.repaired
       case RetryFirstWrite(_) => h.Owner? && c.Retries(h.t, h.a) && !c.repaired
       case RetrySecondWrite(_) => h.HalfRetried?
  }

  function Move(s: State, w: WorkerId, to: Worker): State {
    s.(workers := s.workers[w := to])
  }

  function Write(s: State, t: TaskId, x: TaskStatus): State {
    s.(exec := s.exec[t := x])
  }

  function Apply(c: Config, s: State, step: Step): State
    requires Enabled(c, s, step)
  {
    var w, h := step.w, s.workers[step.w];
    match step
    case Deliver(_, t, a) => Move(s, w, Delivered(t, a))
    case SeeCompleted(_) => Move(s, w, Idle)
    case PassCheck(_) => Move(s, w, Checked(h.t, h.a))
    case PutBack(_) => Move(s, w, Idle)
    case LoseClaim(_) => Move(s, w, Idle)
    case WinClaim(_) => Move(Write(s, h.t, RUNNING), w, Owner(h.t, h.a))
    case WriteProgress(_) => Write(s, h.t, RUNNING)
    case Complete(_) => Move(Write(s, h.t, COMPLETED), w, Idle)
    case Fail(_) => Move(Write(s, h.t, FAILED), w, Idle)
    case Retry(_) => Move(Write(s, h.t, RETRYING), w, Idle)
    case RetryFirstWrite(_) => Move(Write(s, h.t, RETRYING), w, HalfRetried(h.t, h.a))
    case RetrySecondWrite(_) => Move(Write(s, h.t, RETRYING), w, Idle)
  }

  /** Before anyone acts no task is running; tasks may be in any other state. */
  predicate Init(c: Config, s: State) {
    && s.exec.Keys == c.maxAttempts.Keys
    && (forall t | t in s.exec :: s.exec[t] != RUNNING)
    && s.workers == (map w | w in c.workers :: Idle)
  }

  ghost predicate Run(c: Config, s: State, steps: seq<Step>, s': State)
    decreases |steps|
  {
    if steps == [] then s' == s
    else Enabled(c, s, steps[0]) && Run(c, Apply(c, s, steps[0]), steps[1..], s')
  }

  ghost predicate Reachable(c: Config, s: State) {
    exists s0, steps :: Init(c, s0) && Run(c, s0, steps, s)
  }

  // ---- what is wanted of claims ----

  /** The worker won the claim of t and may be running its handler. */
  predicate Owns(s: State, w: WorkerId, t: TaskId) {
    w in s.workers && s.workers[w].Owner? && s.workers[w].t == t
  }

  predicate Owned(s: State, t: TaskId) {
    exists w | w in s.workers :: Owns(s, w, t)
  }

  predicate HalfWay(s: State, w: WorkerId, t: TaskId) {
    w in s.workers && s.workers[w].HalfRetried? && s.workers[w].t == t
  }

  predicate SoleOwner(s: State, t: TaskId) {
    forall w, v | w in s.workers && v in s.workers && Owns(s, w, t) && Owns(s, v, t) :: w == v
  }

  /** No task ever has two owners. */
  predicate NeverTwo(s: State) {
    forall t | t in s.exec :: SoleOwner(s, t)
  }

  /** RUNNING exactly when some worker owns the task, and never two. */
  predicate Exclusive(s: State) {
    forall t | t in s.exec :: SoleOwner(s, t) && (s.exec[t] == RUNNING <==> Owned(s, t))
  }

  /** No step makes a completed task anything else, nor starts its handler again. */
  ghost predicate CompletedIsFinal(c: Config, s: State) {
    forall step, t | Enabled(c, s, step) && t in s.exec && s.exec[t] == COMPLETED ::
      && t in Apply(c, s, step).exec && Apply(c, s, step).exec[t] == COMPLETED
      && !(step.WinClaim? && s.workers[step.w].t == t)
  }

  // ---- the invariant ----

  /** No other worker can come between the two retry writes of the task, or there are none. */
  ghost predicate Guarded(c: Config, t: TaskId) {
    c.repaired || |c.workers| <= 1 || !c.MayRetry(t)
  }

  ghost predicate TaskOk(c: Config, s: State, t: TaskId)
    requires t in s.exec
  {
    && (Guarded(c, t) ==> SoleOwner(s, t) && (s.exec[t] == RUNNING <==> Owned(s, t)))
    && (Guarded(c, t) ==> forall w | HalfWay(s, w, t) :: s.exec[t] == RETRYING && |c.workers| <= 1)
    && (Guarded(c, t) || !c.MayComplete(t) ==>
          s.exec[t] == COMPLETED ==> !Owned(s, t) && forall w :: !HalfWay(s, w, t))
  }

  ghost predicate Inv(c: Config, s: State) {
    && s.exec.Keys == c.maxAttempts.Keys && s.workers.Keys == c.workers
    && (forall w | w in s.workers && !s.workers[w].Idle? :: s.workers[w].t in s.exec)
    && (forall w | w in s.workers && s.workers[w].HalfRetried? :: !c.repaired && c.MayRetry(s.workers[w].t))
    && forall t | t in s.exec :: TaskOk(c, s, t)
  }

  lemma InitInv(c: Config, s: State)
    requires Init(c, s)
    ensures Inv(c, s)
  {}

  /** One worker moved, and no row but t's was written. */
  ghost predicate Moved(s: State, s': State, w: WorkerId, t: TaskId) {
    && w in s.workers && s'.workers.Keys == s.workers.Keys && s'.exec.Keys == s.exec.Keys
    && (forall v | v in s.workers && v != w :: s'.workers[v] == s.workers[v])
    && (forall y | y in s.exec && y != t :: s'.exec[y] == s.exec[y])
    && (s.workers[w].Owner? || s.workers[w].HalfRetried? ==> s.workers[w].t == t)
    && (s'.workers[w].Owner? || s'.workers[w].HalfRetried? ==> s'.workers[w].t == t)
  }

  lemma OtherTask(c: Config, s: State, s': State, w: WorkerId, t: TaskId, y: TaskId)
    requires Moved(s, s', w, t) && y in s.exec && y != t && TaskOk(c, s, y)
    ensures TaskOk(c, s', y)
  {
    assert forall v :: Owns(s', v, y) == Owns(s, v, y) && HalfWay(s', v, y) == HalfWay(s, v, y);
  }

  lemma OneWorker(c: Config, s: State, w: WorkerId, v: WorkerId)
    requires s.workers.Keys == c.workers && |c.workers| <= 1 && w in s.workers && v in s.workers
    ensures w == v
  {
    assert |c.workers - {w}| == 0;
    assert v == w || v in c.workers - {w};
  }

  /** A worker that owns nothing moves to another place where it owns nothing. */
  lemma QuietOk(c: Config, s: State, s': State, w: WorkerId, t: TaskId)
    requires Moved(s, s', w, t) && t in s.exec && TaskOk(c, s, t) && s'.exec == s.exec
    requires Owns(s', w, t) == Owns(s, w, t) && HalfWay(s', w, t) == HalfWay(s, w, t)
    ensures TaskOk(c, s', t)
  {
    assert forall v :: Owns(s', v, t) == Owns(s, v, t) && HalfWay(s', v, t) == HalfWay(s, v, t);
  }

  /** The claim finds the task unowned, and leaves it owned once. */
  lemma WinOk(c: Config, s: State, s': State, w: WorkerId, t: TaskId)
    requires Inv(c, s) && Moved(s, s', w, t) && t in s.exec && Claimable(s.exec[t])
    requires s.workers[w].Checked? && Owns(s', w, t) && s'.exec[t] == RUNNING
    ensures TaskOk(c, s', t)
  {
    assert TaskOk(c, s, t);
    assert forall v | v != w :: Owns(s', v, t) == Owns(s, v, t) && HalfWay(s', v, t) == HalfWay(s, v, t);
    if Guarded(c, t) {
      assert !Owned(s, t);
      forall v | HalfWay(s', v, t)
        ensures false
      {
        OneWorker(c, s, v, w);
      }
    }
  }

  /** The owner writes: RUNNING if it stays, something else if it lets go. */
  lemma OwnerWriteOk(c: Config, s: State, s': State, w: WorkerId, t: TaskId)
    requires Inv(c, s) && Moved(s, s', w, t) && t in s.exec && Owns(s, w, t)
    requires s'.exec[t] == RUNNING <==> Owns(s', w, t)
    requires s'.exec[t] == COMPLETED ==> s'.workers[w].Idle? && c.MayComplete(t)
    requires HalfWay(s', w, t) ==> s'.exec[t] == RETRYING && c.MayRetry(t) && !c.repaired
    ensures TaskOk(c, s', t)
  {
    assert TaskOk(c, s, t);
    assert forall v | v != w :: Owns(s', v, t) == Owns(s, v, t) && HalfWay(s', v, t) == HalfWay(s, v, t);
    if Guarded(c, t) {
      assert s.exec[t] == RUNNING;
      assert forall v | v != w :: !Owns(s, v, t) && !HalfWay(s, v, t);
    }
  }

  lemma SecondWriteOk(c: Config, s: State, s': State, w: WorkerId, t: TaskId)
    requires Inv(c, s) && Moved(s, s', w, t) && t in s.exec && HalfWay(s, w, t)
    requires s'.exec[t] == RETRYING && s'.workers[w].Idle?
    ensures TaskOk(c, s', t)
  {
    assert TaskOk(c, s, t);
    assert forall v | v != w :: Owns(s', v, t) == Owns(s, v, t) && HalfWay(s', v, t) == HalfWay(s, v, t);
    if Guarded(c, t) {
      forall v | v in s.workers
        ensures v == w
      {
        OneWorker(c, s, v, w);
      }
    }
  }

  /** The task a step is about. */
  function Subject(s: State, step: Step): TaskId
    requires step.w in s.workers && (step.Deliver? || !s.workers[step.w].Idle?)
  {
    if step.Deliver? then step.t else s.workers[step.w].t
  }

  lemma StepMoves(c: Config, s: State, step: Step)
    requires Inv(c, s) && Enabled(c, s, step)
    ensures step.Deliver? || !s.workers[step.w].Idle?
    ensures Subject(s, step) in s.exec
    ensures Moved(s, Apply(c, s, step), step.w, Subject(s, step))
  {
    hide TaskOk;
  }

  lemma SubjectOk(c: Config, s: State, step: Step)
    requires Inv(c, s) && Enabled(c, s, step)
    ensures step.Deliver? || !s.workers[step.w].Idle?
    ensures Subject(s, step) in s.exec && Subject(s, step) in Apply(c, s, step).exec
    ensures TaskOk(c, Apply(c, s, step), Subject(s, step))
  {
    hide TaskOk, Guarded;
    StepMoves(c, s, step);
    var s', t := Apply(c, s, step), Subject(s, step);
    hide Moved;
    match step
    case WinClaim(w) => WinOk(c, s, s', w, t);
    case RetrySecondWrite(w) => SecondWriteOk(c, s, s', w, t);
    case WriteProgress(w) => OwnerWriteOk(c, s, s', w, t);
    case Complete(w) => OwnerWriteOk(c, s, s', w, t);
    case Fail(w) => OwnerWriteOk(c, s, s', w, t);
    case Retry(w) => OwnerWriteOk(c, s, s', w, t);
    case RetryFirstWrite(w) => OwnerWriteOk(c, s, s', w, t);
    case _ => QuietOk(c, s, s', step.w, t);
  }

  lemma StepInv(c: Config, s: State, step: Step)
    requires Inv(c, s) && Enabled(c, s, step)
    ensures Inv(c, Apply(c, s, step))
  {
    hide TaskOk, Guarded;
    StepMoves(c, s, step);
    SubjectOk(c, s, step);
    var s' := Apply(c, s, step);
    forall t | t in s'.exec
      ensures TaskOk(c, s', t)
    {
      if t != Subject(s, step) {
        OtherTask(c, s, s', step.w, Subject(s, step), t);
      }
    }
  }

  lemma {:induction false} RunInv(c: Config, s: State, steps: seq<Step>, s': State)
    requires Inv(c, s) && Run(c, s, steps, s')
    ensures Inv(c, s')
    decreases |steps|
  {
    hide Inv, Apply, Enabled;
    if steps != [] {
      StepInv(c, s, steps[0]);
      RunInv(c, Apply(c, s, steps[0]), steps[1..], s');
    }
  }

  lemma ReachableInv(c: Config, s: State)
    requires Reachable(c, s)
    ensures Inv(c, s)
  {
    var s0, steps :| Init(c, s0) && Run(c, s0, steps, s);
    InitInv(c, s0);
    RunInv(c, s0, steps, s);
  }

  // ---- safe ----

  /** Where no other worker can come between the two writes, every task's claims are exclusive. */
  lemma GuardedIsExclusive(c: Config, s: State)
    requires Reachable(c, s) && forall t | t in c.maxAttempts :: Guarded(c, t)
    ensures Exclusive(s) && NeverTwo(s)
  {
    hide Reachable, Guarded;
    ReachableInv(c, s);
    forall t | t in s.exec
      ensures SoleOwner(s, t) && (s.exec[t] == RUNNING <==> Owned(s, t))
    {
      assert TaskOk(c, s, t);
    }
  }

  /** Where, besides, no task can both retry and complete, completion is final. */
  lemma GuardedIsFinal(c: Config, s: State)
    requires Reachable(c, s) && forall t | t in c.maxAttempts :: Guarded(c, t) || !c.MayComplete(t)
    ensures CompletedIsFinal(c, s)
  {
    hide Reachable, Guarded;
    ReachableInv(c, s);
    forall step, t | Enabled(c, s, step) && t in s.exec && s.exec[t] == COMPLETED
      ensures t in Apply(c, s, step).exec && Apply(c, s, step).exec[t] == COMPLETED
      ensures !(step.WinClaim? && s.workers[step.w].t == t)
    {
      assert TaskOk(c, s, t);
      assert !Owns(s, step.w, t) && !HalfWay(s, step.w, t);
    }
  }

  /** With its two writes made one, the retry branch would be safe for all tasks and workers. */
  lemma RepairedRetryIsSafe(c: Config, s: State)
    requires c.repaired && Reachable(c, s)
    ensures Exclusive(s) && CompletedIsFinal(c, s)
  {
    GuardedIsExclusive(c, s);
    GuardedIsFinal(c, s);
  }

  // ---- unsafe ----

  /** One more step at the end of a run. */
  lemma {:induction false} RunSnoc(c: Config, s: State, steps: seq<Step>, s': State, step: Step)
    requires Run(c, s, steps, s') && Enabled(c, s', step)
    ensures Run(c, s, steps + [step], Apply(c, s', step))
    decreases |steps|
  {
    hide Apply, Enabled;
    if steps == [] {
      assert [step][1..] == [];
    } else {
      RunSnoc(c, Apply(c, s, steps[0]), steps[1..], s', step);
      assert (steps + [step])[1..] == steps[1..] + [step];
    }
  }

  lemma ReachNext(c: Config, s: State, step: Step)
    requires Reachable(c, s) && Enabled(c, s, step)
    ensures Reachable(c, Apply(c, s, step))
  {
    hide Apply, Enabled, Init, Run;
    var s0, steps :| Init(c, s0) && Run(c, s0, steps, s);
    RunSnoc(c, s0, steps, s, step);
  }

  /** A worker that is delivered t finds it claimable and wins it. */
  lemma WinFresh(c: Config, s: State, w: WorkerId, t: TaskId, a: nat) returns (s': State)
    requires Reachable(c, s) && w in s.workers && s.workers[w].Idle?
    requires t in s.exec && Claimable(s.exec[t]) && c.outcomes(t, a) != {}
    ensures Reachable(c, s') && s' == Move(Write(s, t, RUNNING), w, Owner(t, a))
  {
    hide Reachable;
    var s1 := Apply(c, s, Deliver(w, t, a));
    ReachNext(c, s, Deliver(w, t, a));
    var s2 := Apply(c, s1, PassCheck(w));
    ReachNext(c, s1, PassCheck(w));
    s' := Apply(c, s2, WinClaim(w));
    ReachNext(c, s2, WinClaim(w));
    assert s'.workers == s.workers[w := Owner(t, a)];
  }

  /** After the first retry write of w another worker v can claim the task, while w has a write to come. */
  lemma SplitRetryRace(c: Config, w: WorkerId, v: WorkerId, t: TaskId, a: nat, b: nat) returns (s: State)
    requires !c.repaired && w in c.workers && v in c.workers && w != v
    requires c.Retries(t, a) && c.outcomes(t, b) != {}
    ensures Reachable(c, s) && s.exec.Keys == c.maxAttempts.Keys && s.workers.Keys == c.workers
    ensures s.exec[t] == RUNNING && s.workers[w] == HalfRetried(t, a) && s.workers[v] == Owner(t, b)
  {
    hide Reachable;
    var s0 := State(map x | x in c.maxAttempts :: CREATED, map x | x in c.workers :: Idle);
    InitReachable(c, s0);
    var s1 := WinFresh(c, s0, w, t, a);
    var s2 := Apply(c, s1, RetryFirstWrite(w));
    ReachNext(c, s1, RetryFirstWrite(w));
    s := WinFresh(c, s2, v, t, b);
  }

  lemma InitReachable(c: Config, s: State)
    requires Init(c, s)
    ensures Reachable(c, s)
  {
    assert Run(c, s, [], s);
  }

  /** Two workers end up executing one task at the same time. */
  lemma RetryRaceTwoOwners(c: Config, w: WorkerId, v: WorkerId, t: TaskId) returns (s: State)
    requires !c.repaired && w in c.workers && v in c.workers && w != v && c.MayRetry(t)
    ensures Reachable(c, s) && t in s.exec && Owns(s, w, t) && Owns(s, v, t)
  {
    hide Reachable;
    var a :| c.Retries(t, a);
    var s1 := SplitRetryRace(c, w, v, t, a, a);
    var s2 := Apply(c, s1, RetrySecondWrite(w));
    ReachNext(c, s1, RetrySecondWrite(w));
    s := WinFresh(c, s2, w, t, a);
  }

  /** A completed task loses its mark, and so can be claimed again. */
  lemma RetryRaceForgets(c: Config, w: WorkerId, v: WorkerId, t: TaskId) returns (s: State, step: Step)
    requires !c.repaired && w in c.workers && v in c.workers && w != v && c.MayRetry(t) && c.MayComplete(t)
    ensures Reachable(c, s) && t in s.exec && s.exec[t] == COMPLETED
    ensures Enabled(c, s, step) && Apply(c, s, step).exec[t] == RETRYING
  {
    hide Reachable;
    var a :| c.Retries(t, a);
    var b: nat :| Ok in c.outcomes(t, b);
    var s1 := SplitRetryRace(c, w, v, t, a, b);
    s := Apply(c, s1, Complete(v));
    ReachNext(c, s1, Complete(v));
    step := RetrySecondWrite(w);
  }

  // ---- exactly when the code as written is safe ----

  lemma TwoWorkers(workers: set<WorkerId>) returns (w: WorkerId, v: WorkerId)
    requires |workers| > 1
    ensures w in workers && v in workers && w != v
  {
    w :| w in workers;
    assert |workers - {w}| == |workers| - 1;
    v :| v in workers - {w};
  }

  /**
   In the code as written claims are exclusive in every run, whatever is delivered
   how often, if and only if there is at most one worker or no task has an attempt
   that can fail retryably while its cap allows another.
   */
  lemma ClaimsExclusiveIff(c: Config)
    requires !c.repaired
    ensures (forall s | Reachable(c, s) :: NeverTwo(s))
            <==> |c.workers| <= 1 || forall t | t in c.maxAttempts :: !c.MayRetry(t)
    ensures (forall s | Reachable(c, s) :: Exclusive(s))
            <==> |c.workers| <= 1 || forall t | t in c.maxAttempts :: !c.MayRetry(t)
  {
    if |c.workers| <= 1 || forall t | t in c.maxAttempts :: !c.MayRetry(t) {
      hide Reachable, Exclusive, NeverTwo;
      forall s | Reachable(c, s)
        ensures Exclusive(s) && NeverTwo(s)
      {
        GuardedIsExclusive(c, s);
      }
    } else {
      hide Reachable;
      var t :| t in c.maxAttempts && c.MayRetry(t);
      var w, v := TwoWorkers(c.workers);
      var s := RetryRaceTwoOwners(c, w, v, t);
      assert !SoleOwner(s, t);
    }
  }

  /**
   Completion is final in every run if and only if there is at most one worker or
   no task that may retry may also complete.
   */
  lemma CompletionFinalIff(c: Config)
    requires !c.repaired
    ensures (forall s | Reachable(c, s) :: CompletedIsFinal(c, s))
            <==> |c.workers| <= 1 || forall t | t in c.maxAttempts :: !(c.MayRetry(t) && c.MayComplete(t))
  {
    if |c.workers| <= 1 || forall t | t in c.maxAttempts :: !(c.MayRetry(t) && c.MayComplete(t)) {
      hide Reachable, CompletedIsFinal;
      forall s | Reachable(c, s)
        ensures CompletedIsFinal(c, s)
      {
        GuardedIsFinal(c, s);
      }
    } else {
      hide Reachable, CompletedIsFinal;
      var t :| t in c.maxAttempts && c.MayRetry(t) && c.MayComplete(t);
      var w, v := TwoWorkers(c.workers);
      var s, step := RetryRaceForgets(c, w, v, t);
      NotFinal(c, s, step, t);
    }
  }

  lemma NotFinal(c: Config, s: State, step: Step, t: TaskId)
    requires t in s.exec && s.exec[t] == COMPLETED && Enabled(c, s, step)
    requires t in Apply(c, s, step).exec && Apply(c, s, step).exec[t] == RETRYING
    ensures !CompletedIsFinal(c, s)
  {}
}
