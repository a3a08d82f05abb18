/**
 The start of a run as it really goes: the pool is started first, and the loop
 that publishes the roots runs beside the workers, outside the dispatch lock and
 without asking whether a root was published already. Proved here: a root can be
 published twice exactly when some root other than the loop's last one succeeds,
 and otherwise every state is a state of the protocol with the roots still to
 come already on the queue.
 */
module RootRace {
  import opened Contract
  import opened Graphs
  import opened Keys
  import opened Rows
  import opened Protocol
  import opened Invariant
  import opened Dag
  import Bus
  import Progress
  import RunTheorems

  /** The run, the roots the loop has not come to yet, and every publication so far. */
  datatype Start = Start(s: State, todo: seq<TaskId>, log: seq<TaskId>)

  datatype Move = Publish | Work(step: Step)

  ghost predicate CanMove(c: Config, x: Start, move: Move) {
    match move
    case Publish => x.todo != [] && x.todo[0] in x.s.rows
    case Work(step) => Enabled(c, x.s, step)
  }

  ghost function Moved(c: Config, x: Start, move: Move): Start
    requires CanMove(c, x, move)
  {
    match move
    case Publish =>
      var t := x.todo[0];
      Start(x.s.(queue := x.s.queue + [FirstMessage(c, x.s.rows, t)], dispatched := x.s.dispatched + {t}),
            x.todo[1..], x.log + [t])
    case Work(step) =>
      Start(Apply(c, x.s, step), x.todo, if step.RunDoneHook? then x.log + step.batch else x.log)
  }

  ghost predicate Moves(c: Config, x: Start, moves: seq<Move>, x': Start)
    decreases |moves|
  {
    if moves == [] then x' == x
    else CanMove(c, x, moves[0]) && Moves(c, Moved(c, x, moves[0]), moves[1..], x')
  }

  /** The message the loop will publish for a root. */
  function Opening(c: Config, t: TaskId): Msg {
    Msg(t, 1, Key(c.workflow, t, 1))
  }

  function Openings(c: Config, todo: seq<TaskId>): seq<Msg> {
    seq(|todo|, i requires 0 <= i < |todo| => Opening(c, todo[i]))
  }

  /** The state with the roots to come already published. */
  function Ahead(c: Config, x: Start): State {
    x.s.(queue := x.s.queue + Openings(c, x.todo), dispatched := x.s.dispatched + Members(x.todo))
  }

  /** The pool is started, nothing is published, and the loop has the roots in this order. */
  ghost predicate Begins(c: Config, roots: seq<TaskId>, x: Start) {
    && Init(c, Ahead(c, x)) && Lists(roots, Roots(c.deps))
    && x.todo == roots && x.log == [] && x.s.queue == [] && x.s.dispatched == {}
  }

  ghost predicate Arises(c: Config, roots: seq<TaskId>, x: Start) {
    exists x0, moves :: Begins(c, roots, x0) && Moves(c, x0, moves, x)
  }

  // ---- the order of the queue does not matter ----

  ghost predicate Alike(p: State, q: State) {
    p == q.(queue := p.queue) && multiset(p.queue) == multiset(q.queue)
  }

  lemma OthersAlike(c: Config, p: State, q: State, step: Step)
    requires Alike(p, q) && !step.Take?
    ensures Enabled(c, p, step) <==> Enabled(c, q, step)
    ensures Enabled(c, q, step) ==> Alike(Apply(c, p, step), Apply(c, q, step))
  {}

  lemma TakenAlike(ps: seq<Msg>, qs: seq<Msg>, i: nat) returns (j: nat)
    requires multiset(ps) == multiset(qs) && i < |qs|
    ensures j < |ps| && ps[j] == qs[i]
    ensures multiset(ps[..j] + ps[j + 1..]) == multiset(qs[..i] + qs[i + 1..])
  {
    assert qs[i] in multiset(ps);
    j :| 0 <= j < |ps| && ps[j] == qs[i];
    Bus.RemovedOne(ps, j);
    Bus.RemovedOne(qs, i);
    var one := multiset([qs[i]]);
    assert multiset(ps[..j] + ps[j + 1..]) == multiset(ps) - one == multiset(qs) - one;
  }

  /** Whatever a worker does in one order of the queue it can do in any other. */
  lemma StepAlike(c: Config, p: State, q: State, step: Step) returns (step': Step)
    requires Alike(p, q) && Enabled(c, q, step)
    ensures Enabled(c, p, step') && Alike(Apply(c, p, step'), Apply(c, q, step))
    ensures if step.Take? then
              step'.Take? && step'.w == step.w && step.i < |q.queue| && step'.i < |p.queue|
              && p.queue[step'.i] == q.queue[step.i]
            else step' == step
  {
    if step.Take? {
      var j := TakenAlike(p.queue, q.queue, step.i);
      step' := Take(step.w, j);
    } else {
      hide Enabled, Apply, Alike;
      OthersAlike(c, p, q, step);
      step' := step;
    }
  }

  // ---- the loop beside the workers, as the protocol sees it ----

  lemma NothingAhead(c: Config, x: Start)
    requires x.todo == []
    ensures Ahead(c, x) == x.s
  {
    assert x.s.dispatched + Members(x.todo) == x.s.dispatched;
    assert x.s.queue + Openings(c, x.todo) == x.s.queue;
  }

  /** A publication the protocol has seen already. */
  lemma PublishAhead(c: Config, x: Start)
    requires CanMove(c, x, Publish) && x.s.rows[x.todo[0]].attempt == 1
    ensures Ahead(c, Moved(c, x, Publish)) == Ahead(c, x)
  {
    var x', t := Moved(c, x, Publish), x.todo[0];
    assert Openings(c, x.todo) == [Opening(c, t)] + Openings(c, x'.todo);
    assert x.s.queue + Openings(c, x.todo) == x'.s.queue + Openings(c, x'.todo);
    assert Members(x.todo) == {t} + Members(x'.todo);
  }

  lemma TakeAhead(c: Config, x: Start, w: WorkerId, i: nat)
    requires Enabled(c, x.s, Take(w, i))
    ensures Enabled(c, Ahead(c, x), Take(w, i))
    ensures Apply(c, Ahead(c, x), Take(w, i)) == Ahead(c, Moved(c, x, Work(Take(w, i))))
  {
    var q, h := x.s.queue, Openings(c, x.todo);
    assert (q + h)[..i] + (q + h)[i + 1..] == q[..i] + q[i + 1..] + h;
  }

  /** Any step but a completion hook is a step of the protocol, up to the order of the queue. */
  lemma WorkAhead(c: Config, x: Start, step: Step)
    requires Enabled(c, x.s, step) && !step.RunDoneHook?
    ensures Enabled(c, Ahead(c, x), step)
    ensures Alike(Apply(c, Ahead(c, x), step), Ahead(c, Moved(c, x, Work(step))))
  {
    hide Openings, IsCompleted, KeyTaken, Claimable, RetriesLeft, Key, RowAfter;
    if step.Take? {
      TakeAhead(c, x, step.w, step.i);
    }
  }

  /** What the loop has published so far, and what it has not. */
  ghost predicate InStep(roots: seq<TaskId>, x: Start) {
    && |x.todo| <= |roots| && x.todo == roots[|roots| - |x.todo|..]
    && Distinct(x.log) && (forall t :: t in x.log <==> t in x.s.dispatched)
    && (x.todo != [] ==> forall t :: t in x.s.dispatched <==> t in roots[..|roots| - |x.todo|])
  }

  /** This state of the protocol is the state of the run, with the roots to come on the queue. */
  ghost predicate Shows(c: Config, roots: seq<TaskId>, x: Start, p: State) {
    Reachable(c, p) && Alike(p, Ahead(c, x)) && InStep(roots, x)
  }

  /** Some root other than the one the loop comes to last succeeds. */
  predicate AnEarlierSucceeds(c: Config, roots: seq<TaskId>) {
    exists i :: 0 <= i < |roots| - 1 && roots[i] in c.maxAttempts && Succeeds(c, roots[i])
  }

  lemma QueuedAhead(c: Config, x: Start, p: State, t: TaskId) returns (i: nat)
    requires Alike(p, Ahead(c, x)) && t in x.todo
    ensures i < |p.queue| && p.queue[i] == Opening(c, t)
  {
    hide Key;
    var k :| 0 <= k < |x.todo| && x.todo[k] == t;
    assert Ahead(c, x).queue[|x.s.queue| + k] == Opening(c, t);
    assert Opening(c, t) in multiset(p.queue);
    i :| 0 <= i < |p.queue| && p.queue[i] == Opening(c, t);
  }

  lemma UntouchedAhead(c: Config, x: Start, p: State, t: TaskId)
    requires Inv(c, p) && Alike(p, Ahead(c, x)) && t in x.todo
    ensures t in x.s.rows && x.s.rows[t] == FRESH_ROW && HasStatus(x.s.dag, t, Pending)
    ensures forall w :: !HeldBy(p, w, t)
  {
    var i := QueuedAhead(c, x, p, t);
    hide Located, KeysOk, Resting, Frontier, MsgOk, Key;
    assert CopyOk(c, p, p.queue[i], Taken);
  }

  lemma HookSucceeds(c: Config, p: State, w: WorkerId)
    requires Inv(c, p) && Busy(p, w) && p.workers[w].pc == DoneHook
    ensures var t := p.workers[w].m.id; t in c.maxAttempts && Succeeds(c, t) && t in p.dispatched && HeldBy(p, w, t)
  {
    hide Exclusive, Located, KeysOk, Resting, Frontier, Key;
    HeldMessage(c, p, w);
  }

  /** While the loop has roots to come, only an earlier root can have reached its completion hook. */
  lemma NoHookYet(c: Config, roots: seq<TaskId>, x: Start, p: State, w: WorkerId)
    requires Shows(c, roots, x, p) && x.todo != [] && Busy(x.s, w) && x.s.workers[w].pc == DoneHook
    requires Lists(roots, Roots(c.deps)) && c.Valid()
    ensures AnEarlierSucceeds(c, roots)
  {
    hide Reachable, Inv, Succeeds, Openings;
    ReachableInv(c, p);
    HookSucceeds(c, p, w);
    var t := p.workers[w].m.id;
    if t in x.todo {
      UntouchedAhead(c, x, p, t);
      assert false;
    }
    assert t in x.s.dispatched;
    var i :| 0 <= i < |roots| - |x.todo| && roots[i] == t;
  }

  // ---- at most the last root succeeds: nothing is published twice ----

  lemma PublishInStep(c: Config, roots: seq<TaskId>, x: Start)
    requires InStep(roots, x) && CanMove(c, x, Publish) && Distinct(roots)
    ensures InStep(roots, Moved(c, x, Publish))
  {
    hide FirstMessage;
    var x', k, t := Moved(c, x, Publish), |roots| - |x.todo|, x.todo[0];
    assert t == roots[k] && t !in roots[..k];
    assert roots[..k + 1] == roots[..k] + [t];
    assert x'.todo == roots[k + 1..];
  }

  lemma WorkInStep(c: Config, roots: seq<TaskId>, x: Start, step: Step)
    requires InStep(roots, x) && Enabled(c, x.s, step) && (step.RunDoneHook? ==> x.todo == [])
    ensures InStep(roots, Moved(c, x, Work(step)))
  {
    var x' := Moved(c, x, Work(step));
    if step.RunDoneHook? {
      var t := x.s.workers[step.w].m.id;
      hide Apply, Enabled, ToDispatch, Distinct;
      HookPublishes(c, x.s, step);
      LogGrows(x.log, step.batch, x.s.dispatched, ToDispatch(c, x.s, t));
    } else {
      hide ToDispatch, Distinct, Lists;
    }
  }

  lemma HookPublishes(c: Config, s: State, step: Step)
    requires Enabled(c, s, step) && step.RunDoneHook?
    ensures Lists(step.batch, ToDispatch(c, s, s.workers[step.w].m.id))
    ensures Apply(c, s, step).dispatched == s.dispatched + ToDispatch(c, s, s.workers[step.w].m.id)
    ensures ToDispatch(c, s, s.workers[step.w].m.id) !! s.dispatched
  {}

  lemma LogGrows(log: seq<TaskId>, batch: seq<TaskId>, before: set<TaskId>, added: set<TaskId>)
    requires Distinct(log) && (forall t :: t in log <==> t in before) && Lists(batch, added) && added !! before
    ensures Distinct(log + batch) && forall t :: t in log + batch <==> t in before + added
  {
    forall t
      ensures t in log + batch <==> t in before + added
    {}
  }

  /** Each move is a step of the protocol, or one it has taken already. */
  lemma MoveShows(c: Config, roots: seq<TaskId>, x: Start, p: State, move: Move) returns (p': State)
    requires Shows(c, roots, x, p) && CanMove(c, x, move) && c.Valid() && Lists(roots, Roots(c.deps))
    requires !AnEarlierSucceeds(c, roots)
    ensures Shows(c, roots, Moved(c, x, move), p')
  {
    hide Reachable, Inv, InStep, Ahead, Alike, AnEarlierSucceeds, Enabled, Apply;
    ReachableInv(c, p);
    if move.Publish? {
      UntouchedAhead(c, x, p, x.todo[0]);
      PublishAhead(c, x);
      PublishInStep(c, roots, x);
      p' := p;
    } else {
      var step := move.step;
      if step.RunDoneHook? {
        if x.todo != [] {
          HookBusy(c, x.s, step);
          NoHookYet(c, roots, x, p, step.w);
          assert false;
        }
        NothingAhead(c, x);
        NothingAhead(c, Moved(c, x, move));
        SelfAlike(Moved(c, x, move).s);
      } else {
        WorkAhead(c, x, step);
      }
      WorkInStep(c, roots, x, step);
      var step' := StepAlike(c, p, Ahead(c, x), step);
      p' := Apply(c, p, step');
      AlikeThrough(p', Apply(c, Ahead(c, x), step), Ahead(c, Moved(c, x, move)));
      ReachStep(c, p, step');
    }
  }

  lemma SelfAlike(s: State)
    ensures Alike(s, s)
  {}

  lemma AlikeThrough(p: State, q: State, r: State)
    requires Alike(p, q) && Alike(q, r)
    ensures Alike(p, r)
  {}

  lemma HookBusy(c: Config, s: State, step: Step)
    requires Enabled(c, s, step) && step.RunDoneHook?
    ensures Busy(s, step.w) && s.workers[step.w].pc == DoneHook
  {}

  lemma BeginsShows(c: Config, roots: seq<TaskId>, x: Start)
    requires Begins(c, roots, x)
    ensures Shows(c, roots, x, Ahead(c, x))
  {
    hide Init, Ahead;
    var p := Ahead(c, x);
    assert Run(c, p, [], p);
    assert Reachable(c, p);
    SelfAlike(p);
    assert x.todo == roots[0..] && roots[..0] == [];
  }

  lemma {:induction false} MovesShow(c: Config, roots: seq<TaskId>, x: Start, p: State, moves: seq<Move>, x': Start)
    returns (p': State)
    requires Shows(c, roots, x, p) && Moves(c, x, moves, x') && c.Valid() && Lists(roots, Roots(c.deps))
    requires !AnEarlierSucceeds(c, roots)
    ensures Shows(c, roots, x', p')
    decreases |moves|
  {
    hide Shows, CanMove, Moved, AnEarlierSucceeds, Lists;
    if moves == [] {
      p' := p;
    } else {
      p' := MoveShows(c, roots, x, p, moves[0]);
      p' := MovesShow(c, roots, Moved(c, x, moves[0]), p', moves[1..], x');
    }
  }

  /**
   When no root but perhaps the last succeeds, the loop might as well have
   published every root before the workers started: each state is, up to the order
   of the queue, a reachable state of the protocol with the roots to come already
   on the queue, and every task published was published once.
   */
  lemma RootsMightAsWellComeFirst(c: Config, roots: seq<TaskId>, x: Start)
    requires c.Valid() && Lists(roots, Roots(c.deps)) && Arises(c, roots, x)
    requires !AnEarlierSucceeds(c, roots)
    ensures exists p :: Reachable(c, p) && Alike(p, Ahead(c, x))
    ensures Distinct(x.log) && forall t :: t in x.log <==> t in x.s.dispatched
    ensures Complete(x.s) ==>
              x.todo == [] && forall t | t in c.deps :: t in x.s.rows && x.s.rows[t] == RunTheorems.FinalRow(c, t)
  {
    hide Begins, Moves, AnEarlierSucceeds, RunTheorems.FinalRow, Reachable, Lists;
    var x0, moves :| Begins(c, roots, x0) && Moves(c, x0, moves, x);
    BeginsShows(c, roots, x0);
    var p := MovesShow(c, roots, x0, Ahead(c, x0), moves, x);
    if Complete(x.s) {
      if x.todo != [] {
        ReachableInv(c, p);
        hide Inv, Complete;
        UntouchedAhead(c, x, p, x.todo[0]);
        PendingRoot(x.s, x.todo[0]);
        assert false;
      }
      RunTheorems.CompleteRunVerdict(c, p);
    }
  }

  lemma PendingRoot(s: State, t: TaskId)
    requires HasStatus(s.dag, t, Pending)
    ensures !Complete(s)
  {}

  // ---- an earlier root succeeds: the last one can be published twice ----

  lemma {:induction false} MovesConcat(c: Config, x: Start, moves: seq<Move>, x': Start, more: seq<Move>, x'': Start)
    requires Moves(c, x, moves, x') && Moves(c, x', more, x'')
    ensures Moves(c, x, moves + more, x'')
    decreases |moves|
  {
    hide CanMove, Moved;
    if moves == [] {
      assert moves + more == more;
    } else {
      MovesConcat(c, Moved(c, x, moves[0]), moves[1..], x', more, x'');
      assert (moves + more)[1..] == moves[1..] + more;
    }
  }

  /** The loop comes to the next n roots while no worker moves. */
  lemma {:induction false} PublishNext(c: Config, x: Start, n: nat) returns (moves: seq<Move>, x': Start)
    requires n <= |x.todo| && forall t | t in x.todo :: t in x.s.rows
    ensures Moves(c, x, moves, x')
    ensures x'.s == x.s.(queue := x'.s.queue, dispatched := x.s.dispatched + Members(x.todo[..n]))
    ensures x'.todo == x.todo[n..] && x'.log == x.log + x.todo[..n]
    ensures n > 0 ==> InQueue(x'.s, x.todo[n - 1])
    ensures (forall t | t in x.todo :: x.s.rows[t].attempt == 1) ==> Ahead(c, x') == Ahead(c, x)
    decreases n
  {
    hide Ahead, FirstMessage;
    if n == 0 {
      moves, x' := [], x;
      assert Moves(c, x, [], x);
      assert x.todo[..0] == [] && x.s.dispatched + Members(x.todo[..0]) == x.s.dispatched;
    } else {
      var before, x1 := PublishNext(c, x, n - 1);
      var t := x.todo[n - 1];
      assert x1.todo[0] == t;
      x' := Moved(c, x1, Publish);
      OneMove(c, x1, Publish);
      MovesConcat(c, x, before, x1, [Publish], x');
      moves := before + [Publish];
      assert x.todo[..n] == x.todo[..n - 1] + [t];
      FirstMessageOf(c, x1.s.rows, t);
      assert x'.s.queue[|x1.s.queue|].id == t;
      if forall t | t in x.todo :: x.s.rows[t].attempt == 1 {
        PublishAhead(c, x1);
      }
    }
  }

  lemma FirstMessageOf(c: Config, rows: Table, t: TaskId)
    requires t in rows
    ensures FirstMessage(c, rows, t).id == t
  {}

  lemma OneMove(c: Config, x: Start, move: Move)
    requires CanMove(c, x, move)
    ensures Moves(c, x, [move], Moved(c, x, move))
  {
    hide CanMove, Moved;
    assert Moves(c, Moved(c, x, move), [], Moved(c, x, move));
  }

  /** Worker w has task r before it, and the loop has passed it. */
  ghost predicate Before(x: Start, w: WorkerId, r: TaskId) {
    && w in x.s.workers && r !in x.todo
    && (HeldBy(x.s, w, r) || (InQueue(x.s, r) && x.s.workers[w].Idle?))
  }

  predicate AtHook(x: Start, w: WorkerId, r: TaskId) {
    HeldBy(x.s, w, r) && x.s.workers[w].pc == DoneHook
  }

  /** The step takes the message of r, or is by its holder and no hook. */
  predicate Concerns(x: Start, step: Step, r: TaskId) {
    match step
    case Take(_, i) => i < |x.s.queue| && x.s.queue[i].id == r
    case Act(w, _) => HeldBy(x.s, w, r)
    case Requeue(w, _) => HeldBy(x.s, w, r)
    case _ => false
  }

  /** Nothing was published and nothing settled in between. */
  predicate Calm(x: Start, x': Start) {
    && x'.todo == x.todo && x'.log == x.log && x'.s.dispatched == x.s.dispatched && x'.s.dag == x.s.dag
    && x'.s.rows.Keys == x.s.rows.Keys
  }

  lemma NoFailHook(c: Config, p: State, w: WorkerId)
    requires Inv(c, p) && Busy(p, w) && p.workers[w].m.id in c.maxAttempts && Succeeds(c, p.workers[w].m.id)
    ensures p.workers[w].pc != FailHook
  {
    hide Exclusive, Located, KeysOk, Resting, Frontier, Key;
    HeldMessage(c, p, w);
  }

  lemma StaysCalm(c: Config, x: Start, w: WorkerId, r: TaskId, step: Step)
    requires Enabled(c, x.s, step) && step.w == w && Before(x, w, r)
    requires Concerns(x, step, r)
    ensures Calm(x, Moved(c, x, Work(step))) && Before(Moved(c, x, Work(step)), w, r)
  {
    hide CanAct, RowAfter, PcAfter, Key;
    if step.Requeue? {
      assert Moved(c, x, Work(step)).s.queue[|x.s.queue|].id == r;
    }
  }

  /** The next step of the worker on this task, no bounce and no hook. */
  lemma TowardsHook(c: Config, x: Start, p: State, w: WorkerId, r: TaskId) returns (step: Step)
    requires Inv(c, p) && Alike(p, Ahead(c, x)) && Before(x, w, r) && !AtHook(x, w, r)
    requires r in c.maxAttempts && Succeeds(c, r)
    ensures Enabled(c, x.s, step) && !Progress.IsBounce(step) && step.w == w
    ensures Concerns(x, step, r)
  {
    if HeldBy(x.s, w, r) {
      hide Inv, CanAct, Succeeds, Openings;
      step := Progress.HolderCanMove(c, p, w);
      GuardsNeverDrop(c, p, step);
      NoFailHook(c, p, w);
    } else {
      hide Inv, Succeeds, Alike;
      var i :| 0 <= i < |x.s.queue| && x.s.queue[i].id == r;
      step := Take(w, i);
    }
  }

  lemma {:induction false} ReachHook(c: Config, x: Start, p: State, w: WorkerId, r: TaskId)
    returns (moves: seq<Move>, x': Start, p': State)
    requires Inv(c, p) && Alike(p, Ahead(c, x)) && Before(x, w, r) && r in c.maxAttempts && Succeeds(c, r)
    ensures Moves(c, x, moves, x') && Calm(x, x') && AtHook(x', w, r)
    ensures Inv(c, p') && Alike(p', Ahead(c, x'))
    decreases Progress.Weight(c, p, r)
  {
    hide Inv, Alike, Ahead, Before, Succeeds, Enabled, Apply, Progress.Weight;
    if AtHook(x, w, r) {
      moves, x', p' := [], x, p;
    } else {
      var step := TowardsHook(c, x, p, w, r);
      StaysCalm(c, x, w, r, step);
      var x1 := Moved(c, x, Work(step));
      var p1 := NearerHook(c, x, p, step, r);
      var rest;
      rest, x', p' := ReachHook(c, x1, p1, w, r);
      OneMove(c, x, Work(step));
      MovesConcat(c, x, [Work(step)], x1, rest, x');
      moves := [Work(step)] + rest;
    }
  }

  lemma NearerHook(c: Config, x: Start, p: State, step: Step, r: TaskId) returns (p': State)
    requires Inv(c, p) && Alike(p, Ahead(c, x)) && Enabled(c, x.s, step) && !Progress.IsBounce(step)
    requires Concerns(x, step, r)
    ensures Inv(c, p') && Alike(p', Ahead(c, Moved(c, x, Work(step))))
    ensures Progress.Weight(c, p', r) < Progress.Weight(c, p, r)
  {
    hide Inv, Openings, Apply, Progress.Weight, CanAct;
    WorkAhead(c, x, step);
    var step' := StepAlike(c, p, Ahead(c, x), step);
    p' := Apply(c, p, step');
    AlikeThrough(p', Apply(c, Ahead(c, x), step), Ahead(c, Moved(c, x, Work(step))));
    StepInv(c, p, step');
    Progress.SubjectWeight(c, p, step');
  }

  /** The hook publishes every root the loop has not come to. */
  lemma HookRepublishes(c: Config, x: Start, p: State, w: WorkerId, r: TaskId, t: TaskId)
    returns (moves: seq<Move>, x': Start)
    requires Inv(c, p) && Alike(p, Ahead(c, x)) && AtHook(x, w, r)
    requires t in x.todo && t in Roots(c.deps) && t != r && t !in x.s.dispatched
    ensures Moves(c, x, moves, x') && x'.todo == x.todo && x'.s.rows.Keys == x.s.rows.Keys
    ensures exists batch :: t in batch && x'.log == x.log + batch
  {
    UntouchedAhead(c, x, p, t);
    RowsOf(c, x, p);
    hide Inv, Openings, Roots;
    hide ToDispatch, Lists, Alike;
    var batch := Progress.Listing(ToDispatch(c, x.s, r));
    RootReady(c, x.s, r, t);
    BatchInRows(c, x.s, r, batch);
    HookMoves(c, x, w, r, batch);
    var move := Work(RunDoneHook(w, batch));
    OneMove(c, x, move);
    x', moves := Moved(c, x, move), [move];
    ListsHas(batch, ToDispatch(c, x.s, r), t);
  }

  lemma ListsHas(batch: seq<TaskId>, all: set<TaskId>, t: TaskId)
    requires Lists(batch, all) && t in all
    ensures t in batch
  {}

  lemma HookMoves(c: Config, x: Start, w: WorkerId, r: TaskId, batch: seq<TaskId>)
    requires AtHook(x, w, r) && r in x.s.rows
    requires Lists(batch, ToDispatch(c, x.s, r)) && forall t | t in batch :: t in x.s.rows
    ensures CanMove(c, x, Work(RunDoneHook(w, batch)))
    ensures var x' := Moved(c, x, Work(RunDoneHook(w, batch)));
            x'.log == x.log + batch && x'.todo == x.todo && x'.s.rows.Keys == x.s.rows.Keys
  {
    hide ToDispatch, Lists, Messages;
  }

  lemma RootReady(c: Config, s: State, r: TaskId, t: TaskId)
    requires t in Roots(c.deps) && HasStatus(s.dag, t, Pending) && t != r && t !in s.dispatched
    ensures t in ToDispatch(c, s, r)
  {}

  lemma BatchInRows(c: Config, s: State, r: TaskId, batch: seq<TaskId>)
    requires Lists(batch, ToDispatch(c, s, r)) && s.rows.Keys == c.deps.Keys
    ensures forall t | t in batch :: t in s.rows
  {
    forall t | t in batch
      ensures t in s.rows
    {
      assert t in ToDispatch(c, s, r);
    }
  }

  lemma InBoth(t: TaskId, log: seq<TaskId>, batch: seq<TaskId>, todo: seq<TaskId>)
    requires t in batch && t in todo
    ensures multiset(log + batch + todo)[t] >= 2
  {
    assert multiset(log + batch + todo) == multiset(log) + multiset(batch) + multiset(todo);
    assert t in multiset(batch) && t in multiset(todo);
  }

  lemma Split(roots: seq<TaskId>, i: nat)
    requires Distinct(roots) && i < |roots| - 1
    ensures var todo, last := roots[i + 1..], roots[|roots| - 1];
            last in todo && last !in roots[..i + 1] && roots[i] !in todo && roots[i] != last
    ensures forall t | t in roots[i + 1..] :: t in roots
  {
    assert roots[i + 1..][|roots| - i - 2] == roots[|roots| - 1];
  }

  /** The loop publishes the roots as far as i, while no worker moves. */
  lemma PublishAsFarAs(c: Config, roots: seq<TaskId>, x0: Start, i: nat, w: WorkerId)
    returns (moves: seq<Move>, x: Start)
    requires Begins(c, roots, x0) && i < |roots| && Distinct(roots) && w in x0.s.workers
    ensures Moves(c, x0, moves, x) && Before(x, w, roots[i]) && Ahead(c, x) == Ahead(c, x0)
    ensures x.todo == roots[i + 1..] && x.s.dispatched == Members(roots[..i + 1])
  {
    hide *;
    BeginsFresh(c, roots, x0);
    BeginsEmpty(c, roots, x0);
    moves, x := PublishNext(c, x0, i + 1);
    TailApart(roots, i);
    NothingBefore(Members(roots[..i + 1]));
    IdleBefore(x, w, roots[i]);
  }

  lemma NothingBefore(ts: set<TaskId>)
    ensures {} + ts == ts
  {}

  lemma IdleBefore(x: Start, w: WorkerId, r: TaskId)
    requires w in x.s.workers && x.s.workers[w].Idle? && r !in x.todo && InQueue(x.s, r)
    ensures Before(x, w, r)
  {}

  /** And a worker brings that root to its completion hook. */
  lemma RaceToHook(c: Config, roots: seq<TaskId>, x0: Start, i: nat, w: WorkerId)
    returns (moves: seq<Move>, x: Start, p: State)
    requires Begins(c, roots, x0) && i < |roots| && roots[i] in c.maxAttempts && Succeeds(c, roots[i])
    requires Distinct(roots) && w in x0.s.workers
    ensures Moves(c, x0, moves, x) && Inv(c, p) && Alike(p, Ahead(c, x)) && AtHook(x, w, roots[i])
    ensures x.todo == roots[i + 1..] && x.s.dispatched == Members(roots[..i + 1])
  {
    hide *;
    BeginsFresh(c, roots, x0);
    SelfAlike(Ahead(c, x0));
    var m1, x1 := PublishAsFarAs(c, roots, x0, i, w);
    var m2;
    m2, x, p := ReachHook(c, x1, Ahead(c, x0), w, roots[i]);
    CalmKeeps(x1, x);
    MovesConcat(c, x0, m1, x1, m2, x);
    moves := m1 + m2;
  }

  lemma CalmKeeps(x: Start, x': Start)
    requires Calm(x, x')
    ensures x'.todo == x.todo && x'.log == x.log && x'.s.dispatched == x.s.dispatched
  {}

  lemma TailApart(roots: seq<TaskId>, i: nat)
    requires Distinct(roots) && i < |roots|
    ensures roots[i] !in roots[i + 1..]
  {}

  lemma BeginsEmpty(c: Config, roots: seq<TaskId>, x: Start)
    requires Begins(c, roots, x)
    ensures x.todo == roots && x.log == [] && x.s.queue == [] && x.s.dispatched == {}
  {}

  /** That hook publishes the rest of the roots, and then so does the loop. */
  lemma RaceFrom(c: Config, roots: seq<TaskId>, x0: Start, i: nat) returns (moves: seq<Move>, x: Start)
    requires Begins(c, roots, x0) && i < |roots| - 1 && roots[i] in c.maxAttempts && Succeeds(c, roots[i])
    ensures Moves(c, x0, moves, x) && x.todo == [] && multiset(x.log)[roots[|roots| - 1]] >= 2
  {
    var last := roots[|roots| - 1];
    BeginsFresh(c, roots, x0);
    hide Begins, Init, Succeeds, Ahead, Inv, Alike, AtHook;
    var w :| w in x0.s.workers;
    var m1, x1, p1 := RaceToHook(c, roots, x0, i, w);
    Split(roots, i);
    hide Distinct, Roots;
    var m2, x2 := HookRepublishes(c, x1, p1, w, roots[i], last);
    var batch :| last in batch && x2.log == x1.log + batch;
    RowsOf(c, x1, p1);
    var m3, x3 := PublishNext(c, x2, |x2.todo|);
    assert x2.todo[..|x2.todo|] == x2.todo;
    InBoth(last, x1.log, batch, x2.todo);
    MovesConcat(c, x0, m1, x1, m2, x2);
    MovesConcat(c, x0, m1 + m2, x2, m3, x3);
    moves, x := m1 + m2 + m3, x3;
  }

  lemma RowsOf(c: Config, x: Start, p: State)
    requires Inv(c, p) && Alike(p, Ahead(c, x))
    ensures x.s.rows.Keys == c.deps.Keys
  {
    RunTheorems.ShapeOf(c, p);
    hide Openings;
  }

  lemma BeginsFresh(c: Config, roots: seq<TaskId>, x: Start)
    requires Begins(c, roots, x)
    ensures Inv(c, Ahead(c, x)) && x.s.workers != map[] && (forall w | w in x.s.workers :: x.s.workers[w].Idle?)
    ensures x.s.rows.Keys == c.deps.Keys && forall t | t in x.s.rows :: x.s.rows[t].attempt == 1
    ensures (forall t | t in roots :: t in Roots(c.deps) && t in c.deps) && Distinct(roots)
  {
    InitInv(c, Ahead(c, x));
    forall t | t in roots
      ensures t in Roots(c.deps)
    {}
    assert exists w :: w in c.workers;
  }

  lemma CanBegin(c: Config, roots: seq<TaskId>) returns (x: Start)
    requires c.Valid() && Lists(roots, Roots(c.deps))
    ensures Begins(c, roots, x)
  {
    x := Start(State(map t | t in c.deps :: FRESH_ROW, map[], [], [], map w | w in c.workers :: Idle,
                     map t | t in c.deps :: Pending, {}, map t | t in c.deps :: 0), roots, []);
    var p := Ahead(c, x);
    assert {} + Members(roots) == Roots(c.deps);
    assert p.queue == Messages(c, p.rows, roots);
  }

  /**
   A task can be published twice exactly when some root other than the one the loop
   comes to last succeeds.
   */
  lemma PublishedTwiceIff(c: Config, roots: seq<TaskId>)
    requires c.Valid() && Lists(roots, Roots(c.deps))
    ensures (exists x, t :: Arises(c, roots, x) && multiset(x.log)[t] >= 2) <==> AnEarlierSucceeds(c, roots)
  {
    hide Begins, Moves, Lists, Arises;
    if x, t :| Arises(c, roots, x) && multiset(x.log)[t] >= 2 {
      if !AnEarlierSucceeds(c, roots) {
        RootsMightAsWellComeFirst(c, roots, x);
        DistinctOnce(x.log, t);
        assert false;
      }
    }
    if AnEarlierSucceeds(c, roots) {
      var i :| 0 <= i < |roots| - 1 && roots[i] in c.maxAttempts && Succeeds(c, roots[i]);
      var x0 := CanBegin(c, roots);
      var moves, x := RaceFrom(c, roots, x0, i);
      Raced(c, roots, x0, moves, x);
    }
  }

  lemma Raced(c: Config, roots: seq<TaskId>, x0: Start, moves: seq<Move>, x: Start)
    requires Begins(c, roots, x0) && Moves(c, x0, moves, x)
    ensures Arises(c, roots, x)
  {
    hide Begins, Moves;
  }

  lemma {:induction false} DistinctOnce(ts: seq<TaskId>, t: TaskId)
    requires Distinct(ts)
    ensures multiset(ts)[t] <= 1
  {
    if ts != [] {
      assert ts == ts[..|ts| - 1] + [ts[|ts| - 1]];
      DistinctOnce(ts[..|ts| - 1], t);
      if ts[|ts| - 1] == t {
        assert t !in ts[..|ts| - 1];
        assert t !in multiset(ts[..|ts| - 1]);
      }
    }
  }
}
