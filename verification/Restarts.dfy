/** How far a restart keeps the rebuilt state from the live one. */
module Restarts {
  import opened Digraphs
  import opened TaskGraphs
  import opened Values
  import opened WorkflowRuns
  import opened Recovery
  import RefusedResults

  /** After any number of starts, the rebuilt state equals the live one at a boundary exactly as far as the
      log has nothing left over from before: node status unless a task that had completed has now failed, retry
      counters unless a task counted before is not attempted yet, checkpoints unless there were some. */
  lemma RestartAgreesIff(w: Workflow, actions: seq<Action>)
    requires Staged(w) && Exec(w, actions).Some? && Boundary(Exec(w, actions).value.control)
    ensures
      var s, early := Exec(w, actions).value, BeforeStart(w, actions);
      var r := Rebuild(s.log);
      && (r.nodeStatus == s.live.nodeStatus <==> With(s.live, Failed) !! early.completed)
      && (r.retries == s.live.retries <==> early.retries.Keys <= s.live.retries.Keys)
      && (r.checkpoints == s.live.checkpoints <==> early.checkpoints == [])
      && r.assignments == s.live.assignments
  {
    var s, early := Exec(w, actions).value, BeforeStart(w, actions);
    RebuiltAgreesSinceStart(w, actions);
    StatusUnlessCompletedBefore(s.live, early);
    RetriesUnlessCountedBefore(s.live.retries, early.retries);
    CheckpointsUnlessSomeBefore(early.checkpoints, s.live.checkpoints);
  }

  lemma CheckpointsUnlessSomeBefore(early: seq<nat>, live: seq<nat>)
    ensures early + live == live <==> early == []
  {
    assert |early + live| == |early| + |live|;
  }

  lemma StatusUnlessCompletedBefore(live: Live, early: Rebuilt)
    ensures StatusSince(live, early) == live.nodeStatus <==> With(live, Failed) !! early.completed
  {
    if id :| id in With(live, Failed) && id in early.completed {
      assert StatusSince(live, early)[id] == Pending;
    } else {
      assert StatusSince(live, early) == live.nodeStatus;
    }
  }

  lemma RetriesUnlessCountedBefore(live: map<NodeId, nat>, early: map<NodeId, nat>)
    ensures early + live == live <==> early.Keys <= live.Keys
  {
    if early.Keys <= live.Keys {
      assert early + live == live;
    } else {
      var id :| id in early && id !in live;
      assert id in early + live;
    }
  }

  /** One task is started, its attempt is counted, the engine restarts: the log still knows the count. */
  lemma RetryCounterOutlivesRestart() returns (w: Workflow, actions: seq<Action>)
    ensures Staged(w) && Exec(w, actions).Some?
    ensures
      var s := Exec(w, actions).value;
      Boundary(s.control) && |s.grants| == 2 && Rebuild(s.log).retries != s.live.retries
  {
    var id := Name("task");
    w, actions := RefusedResults.OneTaskOpened(id);
    actions := TwoSteps(w, actions, Exec(w, actions).value, id);
    var s := Exec(w, actions).value;
    CountIsLogged(w, actions, s, id);
    ExecSnoc(w, actions, s, Start({}));
    RestartKeepsCount(w, actions, s, id);
    actions := actions + [Start({})];
  }

  /** The thread counts its attempt and announces it. */
  lemma TwoSteps(w: Workflow, actions: seq<Action>, s: State, id: NodeId) returns (more: seq<Action>)
    requires Exec(w, actions) == Some(s) && s.control == InBatch(0, map[id := Idle(0)]) && id in w.tasks
    ensures Exec(w, more).Some?
    ensures
      var t := Exec(w, more).value;
      && t.grants == s.grants && t.control.InBatch? && t.control.batch == 0
      && id in t.control.phases && t.control.phases[id] == Announced(1)
  {
    var a := Advance(id, Raise);
    ExecSnoc(w, actions, s, a);
    var between := Next(w, s, a);
    ExecSnoc(w, actions + [a], between, a);
    more := actions + [a] + [a];
  }

  lemma CountIsLogged(w: Workflow, actions: seq<Action>, s: State, id: NodeId)
    requires Staged(w) && Exec(w, actions) == Some(s) && s.control.InBatch? && id in w.tasks
    requires s.control.batch == 0 && id in s.control.phases && s.control.phases[id] == Announced(1)
    ensures id in Rebuild(s.log).retries
  {
    CoupledAlways(w, actions);
    RefusedResults.CoupledNode(w, s, Rebuild(s.log), BeforeStart(w, actions), id);
    assert PhaseOf(w, s.control, id) == Announced(1);
  }

  lemma RestartKeepsCount(w: Workflow, actions: seq<Action>, s: State, id: NodeId)
    requires Staged(w) && Exec(w, actions) == Some(s) && id in Rebuild(s.log).retries
    ensures
      var next := Next(w, s, Start({}));
      id in Rebuild(next.log).retries && next.live.retries == map[]
  {
    RebuildStep(w, s, Start({}));
  }

  // ---------------------------------------------------------------- checkpoints

  /** The batches this start has put behind it. */
  function BatchesBehind(c: Control, total: nat): nat {
    match c
    case AtBatch(k) => k
    case InBatch(k, _) => k
    case Paused(k, _) => k
    case Broken(k, _) => k
    case Closing => total
    case Closed => total
    case _ => 0
  }

  /** In every run there is one checkpoint for each batch the current start has finished, numbered from one. */
  lemma {:induction false} OneCheckpointPerBatch(w: Workflow, actions: seq<Action>)
    requires Exec(w, actions).Some? && w.plan.Ok?
    ensures
      var s := Exec(w, actions).value;
      && |s.live.checkpoints| == BatchesBehind(s.control, |w.plan.value|)
      && forall i :: 0 <= i < |s.live.checkpoints| ==> s.live.checkpoints[i] == i + 1
  {
    if actions != [] {
      var before := actions[..|actions| - 1];
      OneCheckpointPerBatch(w, before);
      CheckpointStep(w, Exec(w, before).value, actions[|actions| - 1]);
    }
  }

  lemma CheckpointStep(w: Workflow, s: State, a: Action)
    requires Enabled(w, s, a) && w.plan.Ok? && |s.live.checkpoints| == BatchesBehind(s.control, |w.plan.value|)
    ensures |Next(w, s, a).live.checkpoints| == BatchesBehind(Next(w, s, a).control, |w.plan.value|)
    ensures
      var before, after := s.live.checkpoints, Next(w, s, a).live.checkpoints;
      after == before || after == [] || after == before + [|before| + 1]
  {
  }
}
