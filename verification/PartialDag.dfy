/**
 DAGStateMachine.compute_partial_dag: the graph a resumed workflow continues on.
 Edges to tasks that are not going to run again are dropped; the question is
 when that changes which tasks are ready.
 */
module PartialDag {
  import opened Contract
  import opened Graphs
  import opened Dag

  function Available(tasks: set<TaskId>, completed: set<TaskId>, failed: set<TaskId>): set<TaskId> {
    tasks - (completed + failed)
  }

  /** The dependencies of the partial graph. */
  function PartialDeps(deps: Edges, completed: set<TaskId>, failed: set<TaskId>): Edges {
    var available := Available(deps.Keys, completed, failed);
    map t | t in deps :: if t in available then deps[t] * available else deps[t]
  }

  /** The statuses of both the partial graph and the original one with the same tasks finished. */
  function ResumedStatus(tasks: set<TaskId>, completed: set<TaskId>, failed: set<TaskId>): map<TaskId, DagStatus> {
    map t | t in tasks :: if t in failed then Failed else if t in completed then Completed else Pending
  }

  /** The statuses after some tasks have completed since. */
  function After(status: map<TaskId, DagStatus>, later: set<TaskId>): map<TaskId, DagStatus> {
    map t | t in status :: if t in later then Completed else status[t]
  }

  /** No task still to run waits for one that failed or that the graph does not know. */
  predicate NoLostDependency(deps: Edges, completed: set<TaskId>, failed: set<TaskId>) {
    var available := Available(deps.Keys, completed, failed);
    forall t | t in available :: forall d | d in deps[t] ::
      d in available || (d in deps && d in completed && d !in failed)
  }

  /** The two graphs report the same ready tasks whatever has completed since. */
  ghost predicate SameReadiness(deps: Edges, completed: set<TaskId>, failed: set<TaskId>) {
    forall later | later <= Available(deps.Keys, completed, failed) ::
      ReadySet(PartialDeps(deps, completed, failed), After(ResumedStatus(deps.Keys, completed, failed), later))
        == ReadySet(deps, After(ResumedStatus(deps.Keys, completed, failed), later))
  }

  lemma ReadinessPreserved(deps: Edges, completed: set<TaskId>, failed: set<TaskId>, later: set<TaskId>, t: TaskId)
    requires NoLostDependency(deps, completed, failed) && t in deps
    requires later <= Available(deps.Keys, completed, failed)
    ensures var status := After(ResumedStatus(deps.Keys, completed, failed), later);
            HasStatus(status, t, Pending) ==>
              (DepsCompleted(PartialDeps(deps, completed, failed), status, t) <==> DepsCompleted(deps, status, t))
  {
    var status := After(ResumedStatus(deps.Keys, completed, failed), later);
    var available := Available(deps.Keys, completed, failed);
    if HasStatus(status, t, Pending) {
      assert t in available;
      assert PartialDeps(deps, completed, failed)[t] == deps[t] * available;
      assert forall d | d in deps[t] && d !in available :: HasStatus(status, d, Completed);
    }
  }

  /** A dropped dependency that never completed makes its dependent look ready. */
  lemma LostDependencyShows(deps: Edges, completed: set<TaskId>, failed: set<TaskId>, t: TaskId, d: TaskId)
    requires Acyclic(deps) && t in Available(deps.Keys, completed, failed) && d in deps[t]
    requires d !in Available(deps.Keys, completed, failed)
    requires !(d in deps && d in completed && d !in failed)
    ensures !SameReadiness(deps, completed, failed)
  {
    var rank :| Ranked(deps, rank);
    var later := deps[t] * Available(deps.Keys, completed, failed);
    var status := After(ResumedStatus(deps.Keys, completed, failed), later);
    assert t !in later;
    assert t in ReadySet(PartialDeps(deps, completed, failed), status);
    assert !HasStatus(status, d, Completed);
    assert t !in ReadySet(deps, status);
  }

  /**
   Dropping edges is invisible exactly when no task still to run depends on a
   failed or an unknown task; with none failed and a closed plan that always holds.
   */
  lemma PartialDagSimulates(deps: Edges, completed: set<TaskId>, failed: set<TaskId>)
    requires Acyclic(deps)
    ensures SameReadiness(deps, completed, failed) <==> NoLostDependency(deps, completed, failed)
    ensures Closed(deps) && failed == {} ==> SameReadiness(deps, completed, failed)
  {
    hide Acyclic;
    if NoLostDependency(deps, completed, failed) {
      forall later | later <= Available(deps.Keys, completed, failed)
        ensures ReadySet(PartialDeps(deps, completed, failed),
                         After(ResumedStatus(deps.Keys, completed, failed), later))
             == ReadySet(deps, After(ResumedStatus(deps.Keys, completed, failed), later))
      {
        SameReadySet(deps, completed, failed, later);
      }
    } else {
      var t :| t in Available(deps.Keys, completed, failed) && exists d | d in deps[t] ::
        !(d in Available(deps.Keys, completed, failed) || (d in deps && d in completed && d !in failed));
      var d :| d in deps[t] &&
        !(d in Available(deps.Keys, completed, failed) || (d in deps && d in completed && d !in failed));
      LostDependencyShows(deps, completed, failed, t, d);
    }
  }

  lemma SameReadySet(deps: Edges, completed: set<TaskId>, failed: set<TaskId>, later: set<TaskId>)
    requires NoLostDependency(deps, completed, failed)
    requires later <= Available(deps.Keys, completed, failed)
    ensures ReadySet(PartialDeps(deps, completed, failed), After(ResumedStatus(deps.Keys, completed, failed), later))
         == ReadySet(deps, After(ResumedStatus(deps.Keys, completed, failed), later))
  {
    forall t | t in deps
      ensures t in ReadySet(PartialDeps(deps, completed, failed),
                              After(ResumedStatus(deps.Keys, completed, failed), later))
         <==> t in ReadySet(deps, After(ResumedStatus(deps.Keys, completed, failed), later))
    {
      hide NoLostDependency, DepsCompleted;
      ReadinessPreserved(deps, completed, failed, later, t);
    }
  }

  // ---- building the partial graph ----

  function Restricted(m: Edges, ks: set<TaskId>): Edges {
    map t | t in m && t in ks :: m[t]
  }

  lemma RestrictedGrows(m: Edges, ks: set<TaskId>, t: TaskId)
    requires t in m
    ensures Restricted(m, ks + {t}) == SetDefault(Restricted(m, ks), t, m[t])
    ensures t in Restricted(m, ks) ==> Restricted(m, ks)[t] == m[t]
  {}

  /** new_dag.add followed by the status write; the dependencies arrive as a set. */
  method AddAs(into: TaskDAG, target: Edges, ghost done: set<TaskId>, t: TaskId, task: Payload, mark: DagStatus)
    requires into.Valid() && t in target
    requires into.dependencies == Restricted(target, done)
    requires EdgesAgree(into.dependencies, into.dependents)
    modifies into
    ensures into.Valid()
    ensures into.dependencies == Restricted(target, done + {t})
    ensures into.status == old(into.status)[t := mark]
    ensures EdgesAgree(into.dependencies, into.dependents)
  {
    hide EdgesAgree, Restricted, Edge, Lists;
    var listed := ListSet(target[t]);
    ListedMembers(listed, target[t]);
    hide Members, SetDefault;
    RestrictedGrows(target, done, t);
    ghost var before, edges := into.dependencies, into.dependents;
    into.Add(t, task, listed);
    Readded(before, edges, into.dependents, t, target[t], listed);
    into.status := into.status[t := mark];
  }

  lemma ListedMembers(listed: seq<TaskId>, all: set<TaskId>)
    requires Lists(listed, all)
    ensures Members(listed) == all
  {
    assert forall t | t in listed :: t in all;
  }

  /** Adding a task again with the dependencies it already has changes no edge. */
  lemma Readded(dependencies: Edges, was: Edges, now: Edges, t: TaskId, deps: set<TaskId>, listed: seq<TaskId>)
    requires EdgesAgree(dependencies, was) && Members(listed) == deps
    requires t in dependencies ==> dependencies[t] == deps
    requires forall d, c :: Edge(now, d, c) <==> Edge(was, d, c) || (c == t && d in listed)
    ensures EdgesAgree(SetDefault(dependencies, t, deps), now)
  {
    var next := SetDefault(dependencies, t, deps);
    forall d, c
      ensures Edge(now, d, c) <==> c in next && d in next[c]
    {
      assert Edge(was, d, c) <==> c in dependencies && d in dependencies[c];
      assert d in listed <==> d in deps;
    }
  }

  /** compute_partial_dag: three loops, over the available, the completed and the failed tasks. */
  method ComputePartialDag(dag: TaskDAG, completed: set<TaskId>, failed: set<TaskId>) returns (part: TaskDAG)
    requires dag.Valid()
    ensures fresh(part) && part.Valid()
    ensures part.dependencies == PartialDeps(dag.dependencies, completed, failed)
    ensures part.status == ResumedStatus(dag.dependencies.Keys, completed, failed)
    ensures part.dependencies.Keys == part.status.Keys == dag.dependencies.Keys
    ensures forall t | t in dag.dependencies ::
              part.dependencies[t] == if t in completed || t in failed then dag.dependencies[t]
                                      else dag.dependencies[t] * dag.dependencies.Keys - completed - failed
    ensures forall t | t in dag.dependencies ::
              part.status[t] == if t in failed then Failed else if t in completed then Completed else Pending
    ensures EdgesAgree(part.dependencies, part.dependents)
  {
    hide EdgesAgree, Restricted, PartialDeps, ResumedStatus, Lists;
    var tasks := dag.tasks.Keys;
    var available := tasks - (completed + failed);
    ghost var finished := completed * tasks;
    var target := PartialDeps(dag.dependencies, completed, failed);
    EmptyGraph(target);
    TargetKeys(dag.dependencies, completed, failed);
    part := new TaskDAG();
    Fill(dag.tasks, target, part, {}, available, Pending);
    Fill(dag.tasks, target, part, {} + available, completed * tasks, Completed);
    Fill(dag.tasks, target, part, {} + available + finished, failed * tasks, Failed);
    assert {} + available + finished + failed * tasks == tasks;
    AllRestricted(target);
    AllMarked(tasks, completed, failed, part.status);
    PartialIs(dag.dependencies, completed, failed);
  }

  /** The partial graph task by task. */
  lemma PartialIs(deps: Edges, completed: set<TaskId>, failed: set<TaskId>)
    ensures PartialDeps(deps, completed, failed).Keys == ResumedStatus(deps.Keys, completed, failed).Keys == deps.Keys
    ensures forall t | t in deps ::
              PartialDeps(deps, completed, failed)[t]
                == if t in completed || t in failed then deps[t] else deps[t] * deps.Keys - completed - failed
    ensures forall t | t in deps ::
              ResumedStatus(deps.Keys, completed, failed)[t]
                == if t in failed then Failed else if t in completed then Completed else Pending
  {}

  lemma EmptyGraph(target: Edges)
    ensures Restricted(target, {}) == map[] && EdgesAgree(map[], map[])
  {}

  lemma TargetKeys(deps: Edges, completed: set<TaskId>, failed: set<TaskId>)
    ensures PartialDeps(deps, completed, failed).Keys == deps.Keys
  {}

  lemma AllRestricted(target: Edges)
    ensures Restricted(target, target.Keys) == target
  {}

  lemma AllMarked(tasks: set<TaskId>, completed: set<TaskId>, failed: set<TaskId>, status: map<TaskId, DagStatus>)
    requires status.Keys == tasks
    requires forall t | t in tasks ::
               status[t] ==
                 if t in failed * tasks then Failed else if t in completed * tasks then Completed else Pending
    ensures status == ResumedStatus(tasks, completed, failed)
  {}

  /** One of the three loops: add each task of ts with the status it is to have. */
  method Fill(payloads: map<TaskId, Payload>, target: Edges, part: TaskDAG, ghost done: set<TaskId>, ts: set<TaskId>,
              mark: DagStatus)
    requires part.Valid() && payloads.Keys == target.Keys && ts <= target.Keys
    requires part.dependencies == Restricted(target, done)
    requires EdgesAgree(part.dependencies, part.dependents)
    modifies part
    ensures part.Valid()
    ensures part.dependencies == Restricted(target, done + ts)
    ensures part.status == map t | t in old(part.status).Keys + ts :: if t in ts then mark else old(part.status)[t]
    ensures EdgesAgree(part.dependencies, part.dependents)
  {
    hide EdgesAgree, Restricted;
    var todo := ts;
    assert done + (ts - todo) == done;
    while todo != {}
      invariant todo <= ts && part.Valid()
      invariant part.dependencies == Restricted(target, done + (ts - todo))
      invariant part.status.Keys == old(part.status).Keys + (ts - todo)
      invariant forall t | t in part.status :: part.status[t] == if t in ts - todo then mark else old(part.status)[t]
      invariant EdgesAgree(part.dependencies, part.dependents)
      decreases todo
    {
      var t :| t in todo;
      AddAs(part, target, done + (ts - todo), t, payloads[t], mark);
      assert done + (ts - todo) + {t} == done + (ts - (todo - {t}));
      todo := todo - {t};
    }
    assert ts - {} == ts;
  }
}
