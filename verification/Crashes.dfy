/**
 A worker that dies with a message in hand. The in-memory bus keeps nothing of a
 message it has delivered, so a dead worker is one that takes no further step:
 nobody else ever gets its message. Proved here: exactly which tasks that strands.
 */
module Crashes {
  import opened Contract
  import opened Graphs
  import opened Protocol
  import opened Invariant
  import opened Progress

  predicate Without(steps: seq<Step>, w: WorkerId) {
    forall step | step in steps :: step.w != w
  }

  lemma StepLeaves(c: Config, s: State, step: Step, w: WorkerId)
    requires Enabled(c, s, step) && step.w != w && w in s.workers
    ensures w in Apply(c, s, step).workers && Apply(c, s, step).workers[w] == s.workers[w]
  {}

  lemma {:induction false} RunLeaves(c: Config, s: State, steps: seq<Step>, s': State, w: WorkerId)
    requires Inv(c, s) && Run(c, s, steps, s') && Without(steps, w) && w in s.workers
    ensures Inv(c, s') && w in s'.workers && s'.workers[w] == s.workers[w]
    decreases |steps|
  {
    hide Inv, Enabled, Apply;
    if steps != [] {
      assert steps[0] in steps && forall step | step in steps[1..] :: step in steps;
      StepLeaves(c, s, steps[0], w);
      StepInv(c, s, steps[0]);
      RunLeaves(c, Apply(c, s, steps[0]), steps[1..], s', w);
    }
  }

  /** What a held message says of its task and of everything below it. */
  lemma HeldStrands(c: Config, s: State, w: WorkerId, x: TaskId)
    requires Inv(c, s) && Busy(s, w)
    ensures var t := s.workers[w].m.id;
            && HasStatus(s.dag, t, Pending) && t in s.dispatched && t in c.deps
            && !InQueue(s, t) && (forall v | v != w :: !HeldBy(s, v, t))
            && (x in Descendants(Dependents(c.deps), t) ==> x !in s.dispatched && !HasStatus(s.dag, x, Completed))
  {
    var t := s.workers[w].m.id;
    HeldMessage(c, s, w);
    hide KeysOk, Copies, Located, Resting, Frontier, Good;
    assert HeldBy(s, w, t);
    if x in Descendants(Dependents(c.deps), t) {
      hide Exclusive;
      BelowUndispatched(c, s, t, x);
    }
  }

  /**
   Once a worker has died with a message in hand, nothing the others do ever
   redelivers it: its task stays pending, nothing below it is ever dispatched, and
   the run never completes.
   */
  lemma DeadWorkerStrands(c: Config, s: State, w: WorkerId, steps: seq<Step>, s': State, x: TaskId)
    requires Reachable(c, s) && Busy(s, w) && Run(c, s, steps, s') && Without(steps, w)
    ensures var t := s.workers[w].m.id;
            && HasStatus(s'.dag, t, Pending) && !Complete(s')
            && !InQueue(s', t) && (forall v | v != w :: !HeldBy(s', v, t))
            && (x in Descendants(Dependents(c.deps), t) ==> x !in s'.dispatched && !HasStatus(s'.dag, x, Completed))
  {
    hide Reachable, Inv, Run;
    ReachableInv(c, s);
    RunLeaves(c, s, steps, s', w);
    HeldStrands(c, s', w, x);
  }

  /** Nothing is left to do for any worker but the dead one. */
  ghost predicate Quiet(s: State, w: WorkerId) {
    s.queue == [] && forall v | Busy(s, v) :: v == w
  }

  /**
   When the others are done, the tasks still pending are exactly the one the dead
   worker held and those below it that no other failure has cascaded to.
   */
  lemma StrandedExactly(c: Config, s: State, w: WorkerId, steps: seq<Step>, s': State, x: TaskId)
    requires Reachable(c, s) && Busy(s, w) && Run(c, s, steps, s') && Without(steps, w) && Acyclic(c.deps)
    requires Quiet(s', w) && x in c.deps
    ensures var t := s.workers[w].m.id;
            HasStatus(s'.dag, x, Pending)
            <==> x == t || (x in Descendants(Dependents(c.deps), t) && !HasStatus(s'.dag, x, Failed))
  {
    hide Reachable, Inv, Run, Quiet, Acyclic;
    ReachableInv(c, s);
    RunLeaves(c, s, steps, s', w);
    HeldStrands(c, s', w, x);
    ShapeKnown(c, s');
    var t := s.workers[w].m.id;
    if s'.dag[x] == Pending && x != t {
      OnlyTheDeadHold(c, s', w, x);
    }
  }

  lemma ShapeKnown(c: Config, s: State)
    requires Inv(c, s)
    ensures s.dag.Keys == c.deps.Keys
  {}

  lemma OnlyTheDeadHold(c: Config, s: State, w: WorkerId, x: TaskId)
    requires Inv(c, s) && Busy(s, w) && Quiet(s, w) && Acyclic(c.deps)
    requires x in c.deps && s.dag[x] == Pending && x != s.workers[w].m.id
    ensures x in Descendants(Dependents(c.deps), s.workers[w].m.id)
  {
    hide Exclusive, Copies, KeysOk, Resting, Frontier, Reach;
    var rank :| Ranked(c.deps, rank);
    var f := PendingFront(c, s, rank, x);
    assert InHand(s, f);
    var v :| v in s.workers && HeldBy(s, v, f);
    assert Busy(s, v) && v == w && f == s.workers[w].m.id;
    ReachReversed(c.deps, f, x);
    assert x in Nodes(Dependents(c.deps));
  }

  /** With another worker alive, the others can always get done. */
  lemma RestCanFinish(c: Config, s: State, w: WorkerId, v: WorkerId)
    requires Reachable(c, s) && Busy(s, w) && v in c.workers && v != w
    ensures exists steps, s' :: Run(c, s, steps, s') && Without(steps, w) && Quiet(s', w)
  {
    hide Reachable, Inv, Run, Quiet;
    ReachableInv(c, s);
    var order := Listing(c.deps.Keys);
    var steps, s' := FinishRest(c, s, w, v, order);
  }

  lemma {:induction false} FinishRest(c: Config, s: State, w: WorkerId, v: WorkerId, order: seq<TaskId>)
    returns (steps: seq<Step>, s': State)
    requires Inv(c, s) && v in c.workers && v != w && Lists(order, c.deps.Keys)
    ensures Run(c, s, steps, s') && Without(steps, w) && Quiet(s', w)
    decreases Measure(c, s, order)
  {
    hide Inv, Apply, Enabled, IsBounce, Measure, Lists;
    if Quiet(s, w) {
      steps, s' := [], s;
    } else {
      var step := OtherStep(c, s, w, v);
      StepInv(c, s, step);
      StepMeasure(c, s, step, order);
      var rest;
      rest, s' := FinishRest(c, Apply(c, s, step), w, v, order);
      steps := [step] + rest;
      assert steps[0] == step && steps[1..] == rest;
    }
  }

  lemma OtherStep(c: Config, s: State, w: WorkerId, v: WorkerId) returns (step: Step)
    requires Inv(c, s) && v in c.workers && v != w && !Quiet(s, w)
    ensures Enabled(c, s, step) && !IsBounce(step) && step.w != w
  {
    if u :| Busy(s, u) && u != w {
      hide Inv, Enabled;
      step := HolderCanMove(c, s, u);
    } else {
      hide Exclusive, Copies, Located, KeysOk, Resting, Frontier;
      assert !Busy(s, v) && s.queue != [];
      step := Take(v, 0);
    }
  }
}
