/** When live and rebuilt results differ: the context store refused a value the runner returned. */
module RefusedResults {
  import opened Digraphs
  import opened TaskGraphs
  import opened Scheduling
  import opened Values
  import opened WorkflowRuns
  import opened Recovery
  import Confluence

  /** What the runner last returned for a node in the current start. */
  ghost function LastReturn(w: Workflow, actions: seq<Action>, n: NodeId): Option<Json>
    requires Exec(w, actions).Some?
  {
    if actions == [] then
      None
    else
      var before, a := actions[..|actions| - 1], actions[|actions| - 1];
      AfterAction(Exec(w, before).value, a, n, LastReturn(w, before, n))
  }

  function AfterAction(s: State, a: Action, n: NodeId, last: Option<Json>): Option<Json> {
    if a.Start? then
      None
    else if a.Advance? && a.node == n && a.outcome.Return?
            && s.control.InBatch? && n in s.control.phases && s.control.phases[n].Announced? then
      Some(a.outcome.value)
    else
      last
  }

  /** The runner's last value for this node is one the context store does not take. */
  ghost predicate WasRefused(w: Workflow, actions: seq<Action>, n: NodeId)
    requires Exec(w, actions).Some?
  {
    LastReturn(w, actions, n).Some? && !Storable(LastReturn(w, actions, n).value)
  }

  /** Until a node succeeds, every value returned for it was refused. */
  predicate Explained(ph: Phase, last: Option<Json>) {
    match ph
    case Returned(_, v) => last == Some(v)
    case Kept(_, v) => last == Some(v) && Storable(v)
    case Traced(_, v) => last == Some(v) && Storable(v)
    case Finished => last.Some? && Storable(last.value)
    case _ => last.Some? ==> !Storable(last.value)
  }

  lemma ExplainedThread(task: TaskNode, ph: Phase, o: Outcome, last: Option<Json>)
    requires Explained(ph, last)
    ensures Explained(NextPhase(task, ph, o), if ph.Announced? && o.Return? then Some(o.value) else last)
  {
  }

  lemma ExplainedStep(w: Workflow, s: State, a: Action, n: NodeId, last: Option<Json>)
    requires Staged(w) && Shape(w, s) && Enabled(w, s, a) && n in w.tasks
    requires Get(s.live.results, n) == last && Explained(PhaseOf(w, s.control, n), last)
    ensures
      var next, last' := Next(w, s, a), AfterAction(s, a, n, last);
      Get(next.live.results, n) == last' && Explained(PhaseOf(w, next.control, n), last')
  {
    Confluence.ResultsStep(w, s, a);
    PhaseMoves(w, s, a, n);
    if a.Advance? && a.node == n {
      ExplainedThread(w.tasks[n], s.control.phases[n], a.outcome, last);
    } else if a.OpenBatch? && n in Unapproved(w, s) {
      assert StagedAt(w, s.control.batch, n);
    }
  }

  /** The live result of every node is what its runner last returned. */
  lemma {:induction false} ResultsAreLastReturns(w: Workflow, actions: seq<Action>, n: NodeId)
    requires Staged(w) && Exec(w, actions).Some? && n in w.tasks
    ensures
      var s := Exec(w, actions).value;
      && Get(s.live.results, n) == LastReturn(w, actions, n)
      && Explained(PhaseOf(w, s.control, n), LastReturn(w, actions, n))
  {
    if actions != [] {
      var before := actions[..|actions| - 1];
      ResultsAreLastReturns(w, before, n);
      ShapeAlways(w, before);
      ExplainedStep(w, Exec(w, before).value, actions[|actions| - 1], n, LastReturn(w, before, n));
    }
  }

  lemma CoupledNode(w: Workflow, s: State, r: Rebuilt, early: Rebuilt, n: NodeId)
    requires Coupled(w, s, r, early) && s.grants != [] && n in w.tasks
    ensures Consistent(ViewOf(s.live, r, early, n), PhaseOf(w, s.control, n), OnlyStorable(w))
  {
  }

  lemma RefusedView(v: View, ph: Phase, clean: bool)
    requires Consistent(v, ph, clean) && (Settled(ph) || ph.Held?) && Explained(ph, v.liveResult)
    ensures v.liveResult.Some? && !Storable(v.liveResult.value) <==> v.liveResult.Some? && v.live == Some(Failed)
  {
  }

  /** At a boundary the nodes whose last value was refused are the failed nodes that hold a result. */
  lemma RefusedAreTheFailed(w: Workflow, actions: seq<Action>, n: NodeId)
    requires Staged(w) && Exec(w, actions).Some? && n in w.tasks && Boundary(Exec(w, actions).value.control)
    ensures
      var live := Exec(w, actions).value.live;
      WasRefused(w, actions, n) <==> n in live.results && Get(live.nodeStatus, n) == Some(Failed)
  {
    var s := Exec(w, actions).value;
    CoupledAlways(w, actions);
    if s.control.Broken? {
      BrokenIsSettled(w, actions);
    }
    BoundaryPhase(w, s, n);
    CoupledNode(w, s, Rebuild(s.log), BeforeStart(w, actions), n);
    ResultsAreLastReturns(w, actions, n);
    RefusedView(ViewOf(s.live, Rebuild(s.log), BeforeStart(w, actions), n), PhaseOf(w, s.control, n), OnlyStorable(w));
  }

  /** At a boundary, live and rebuilt results are equal exactly when no value the runner last returned for
      a node was refused. */
  lemma ResultsAgreeUnlessRefused(w: Workflow, actions: seq<Action>)
    requires Staged(w) && Exec(w, actions).Some?
    requires Boundary(Exec(w, actions).value.control) && |Exec(w, actions).value.grants| == 1
    ensures
      var s := Exec(w, actions).value;
      Rebuild(s.log).results == s.live.results <==> forall n :: n in w.tasks ==> !WasRefused(w, actions, n)
  {
    var s := Exec(w, actions).value;
    RebuiltAgreesWithLive(w, actions);
    LiveIsKeyed(w, actions);
    StandingUnlessFailed(s.live);
    forall n | n in w.tasks
      ensures WasRefused(w, actions, n) <==> n in s.live.results && Get(s.live.nodeStatus, n) == Some(Failed)
    {
      RefusedAreTheFailed(w, actions, n);
    }
  }

  lemma FailedResultIsLost(w: Workflow, actions: seq<Action>, n: NodeId)
    requires Staged(w) && Exec(w, actions).Some?
    requires Boundary(Exec(w, actions).value.control) && |Exec(w, actions).value.grants| == 1
    requires n in Exec(w, actions).value.live.results && Get(Exec(w, actions).value.live.nodeStatus, n) == Some(Failed)
    ensures Rebuild(Exec(w, actions).value.log).results != Exec(w, actions).value.live.results
  {
    RebuiltAgreesWithLive(w, actions);
    LiveIsKeyed(w, actions);
    StandingUnlessFailed(Exec(w, actions).value.live);
  }

  lemma LiveIsKeyed(w: Workflow, actions: seq<Action>)
    requires Staged(w) && Exec(w, actions).Some? && |Exec(w, actions).value.grants| == 1
    ensures Exec(w, actions).value.live.results.Keys <= Exec(w, actions).value.live.nodeStatus.Keys == w.tasks.Keys
  {
    CoupledAlways(w, actions);
  }

  lemma StandingUnlessFailed(live: Live)
    requires live.results.Keys <= live.nodeStatus.Keys
    ensures StandingResults(live) == live.results <==>
              forall id :: id in live.results && id in live.nodeStatus ==> live.nodeStatus[id] != Failed
  {
    if forall id :: id in live.results && id in live.nodeStatus ==> live.nodeStatus[id] != Failed {
      assert StandingResults(live) == live.results;
    } else {
      var id :| id in live.results && id in live.nodeStatus && live.nodeStatus[id] == Failed;
      assert id !in StandingResults(live);
    }
  }

  lemma SecretIsRefused(v: Json)
    requires v == Object([("secret", Text("x"))])
    ensures !Storable(v)
  {
    assert Lower("secret") == "secret";
    assert SensitiveKey(v.fields[0].0);
  }

  /** The phases of a thread whose only result is refused. */
  function RefusedPath(v: Json, i: nat): Phase {
    match i
    case 0 => Idle(0)
    case 1 => Counted(1)
    case 2 => Announced(1)
    case 3 => Returned(1, v)
    case 4 => Raised(1)
    case 5 => RaisedTraced(1)
    case 6 => RaisedLogged(1)
    case _ => Exhausted
  }

  ghost predicate RefusedSoFar(t: State, s: State, n: NodeId, v: Json, i: nat) {
    && t.grants == s.grants && t.control.InBatch? && t.control.phases == map[n := RefusedPath(v, i)]
    && (i > 2 ==> n in t.live.results && n in t.live.nodeStatus)
    && (i == 7 ==> t.live.nodeStatus[n] == Failed)
  }

  lemma RefusedStep(w: Workflow, t: State, s: State, n: NodeId, v: Json, i: nat)
    requires RefusedSoFar(t, s, n, v, i) && i < 7
    requires n in w.tasks && w.tasks[n].maxRetries == 0 && !Storable(v)
    requires forall inputs :: w.may(w.tasks[n], inputs, v)
    ensures Enabled(w, t, Advance(n, Return(v)))
    ensures RefusedSoFar(Next(w, t, Advance(n, Return(v))), s, n, v, i + 1)
  {
    RefusedPathStep(w.tasks[n], v, i);
    assert t.control.phases[n] == RefusedPath(v, i);
    assert map[n := RefusedPath(v, i)][n := RefusedPath(v, i + 1)] == map[n := RefusedPath(v, i + 1)];
  }

  lemma RefusedPathStep(task: TaskNode, v: Json, i: nat)
    requires i < 7 && task.maxRetries == 0 && !Storable(v)
    ensures NextPhase(task, RefusedPath(v, i), Return(v)) == RefusedPath(v, i + 1)
  {
  }

  /** The single attempt of a thread whose result is refused. */
  lemma RefusedAttempt(w: Workflow, acts: seq<Action>, s: State, n: NodeId, v: Json) returns (more: seq<Action>)
    requires Exec(w, acts) == Some(s) && s.control.InBatch? && s.control.phases == map[n := Idle(0)]
    requires n in w.tasks && w.tasks[n].maxRetries == 0 && !Storable(v)
    requires forall inputs :: w.may(w.tasks[n], inputs, v)
    ensures Exec(w, more).Some? && RefusedSoFar(Exec(w, more).value, s, n, v, 7)
  {
    more := acts;
    var t := s;
    var i := 0;
    while i < 7
      invariant 0 <= i <= 7
      invariant Exec(w, more) == Some(t) && RefusedSoFar(t, s, n, v, i)
    {
      RefusedStep(w, t, s, n, v, i);
      ExecSnoc(w, more, t, Advance(n, Return(v)));
      more, t := more + [Advance(n, Return(v))], Next(w, t, Advance(n, Return(v)));
      i := i + 1;
    }
  }

  /** A one-task workflow that accepts any result, started and with its only batch open. */
  lemma OneTaskOpened(id: NodeId) returns (w: Workflow, acts: seq<Action>)
    ensures Staged(w) && id in w.tasks && w.tasks[id].maxRetries == 0
    ensures forall t, inputs, v :: w.may(t, inputs, v)
    ensures Exec(w, acts).Some?
    ensures
      var s := Exec(w, acts).value;
      s.control == InBatch(0, map[id := Idle(0)]) && |s.grants| == 1
  {
    w := Workflow(map[id := TaskNode(id, "agent", [], 0, false)], Ok([[id]]), (t, inputs, v) => true);
    assert Before(w.plan.value, 0) == {} && Before(w.plan.value, 1) == {id};
    var s0 := Next(w, INITIAL, Start({}));
    ExecSnoc(w, [], INITIAL, Start({}));
    ExecSnoc(w, [] + [Start({})], s0, OpenBatch);
    acts := [] + [Start({})] + [OpenBatch];
    assert Unapproved(w, s0) == {};
  }

  /** A runner that returns a value under a sensitive key: the context store refuses it, the only
      attempt fails, and the live state keeps a result that the log cannot rebuild. */
  lemma RefusedResultIsNotRebuilt() returns (w: Workflow, actions: seq<Action>)
    ensures Staged(w) && Exec(w, actions).Some?
    ensures
      var s := Exec(w, actions).value;
      s.control.Broken? && |s.grants| == 1 && Rebuild(s.log).results != s.live.results
  {
    var id := Name("task");
    var secret := Object([("secret", Text("x"))]);
    SecretIsRefused(secret);
    w, actions := OneTaskOpened(id);
    actions := RefusedAttempt(w, actions, Exec(w, actions).value, id, secret);
    var s := Exec(w, actions).value;
    assert s.control.phases[id] == Exhausted;
    ExecSnoc(w, actions, s, GiveUp);
    actions := actions + [GiveUp];
    FailedResultIsLost(w, actions, id);
  }
}
