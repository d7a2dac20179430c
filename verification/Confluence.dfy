/** Every interleaving of every batch, with any pattern of retried failures, computes the
    same results: those of evaluating the task graph directly. */
module Confluence {
  import opened Digraphs
  import opened TaskGraphs
  import opened Scheduling
  import opened TopologicalOrder
  import opened Values
  import opened WorkflowRuns
  import opened CrashSafety

  /** The machine of a task graph that passed the constructor's checks. */
  ghost function WorkflowOf(nodes: seq<TaskNode>, may: (TaskNode, map<NodeId, Json>, Json) -> bool): Workflow {
    Workflow(ById(nodes), BatchesOf(nodes), may)
  }

  /** Scheduling a graph that passed the checks gives the machine what it relies on. */
  lemma EveryGraphIsStaged(nodes: seq<TaskNode>, may: (TaskNode, map<NodeId, Json>, Json) -> bool)
    requires WellFormed(nodes)
    ensures Staged(WorkflowOf(nodes, may))
  {
    var w := WorkflowOf(nodes, may);
    if w.plan.Ok? {
      var layers := w.plan.value;
      LayersOfGraph(nodes);
      VisitedCount(nodes, layers);
      forall k, id | 0 <= k < |layers| && id in layers[k] ensures StagedAt(w, k, id) {
        assert ReadyLayer(EdgesOf(nodes), layers[k], Before(layers, k));
        assert id in Elements(layers[k]);
      }
    }
  }

  type NodeFunction = (TaskNode, map<NodeId, Json>) -> Json

  /** Whenever the runner succeeds, its result is this function of the node and its dependency results. */
  ghost predicate Computes(w: Workflow, f: NodeFunction) {
    forall t, inputs, v :: w.may(t, inputs, v) ==> v == f(t, inputs)
  }

  lemma LayerFalls(w: Workflow, n: NodeId, d: NodeId)
    requires Staged(w) && w.plan.Ok? && n in w.tasks && d in w.tasks[n].dependencies
    ensures d in w.tasks && LayerOf(w.plan.value, d) < LayerOf(w.plan.value, n)
  {
    var b := w.plan.value;
    var k := LayerOf(b, n);
    assert StagedAt(w, k, n);
    assert d in Elements(w.tasks[n].dependencies);
    BeforeMonotone(b, k, |b|);
    var j := LayerOf(b, d);
    if k <= j {
      assert StagedAt(w, j, d);
      BeforeMonotone(b, k, j);
      assert false;
    }
  }

  /** Direct recursive evaluation of a task. */
  ghost function Evaluate(w: Workflow, f: NodeFunction, n: NodeId): Json
    requires Staged(w) && w.plan.Ok? && n in w.tasks
    decreases LayerOf(w.plan.value, n), 1
  {
    f(w.tasks[n], DependencyValues(w, f, n))
  }

  ghost function DependencyValues(w: Workflow, f: NodeFunction, n: NodeId): map<NodeId, Json>
    requires Staged(w) && w.plan.Ok? && n in w.tasks
    decreases LayerOf(w.plan.value, n), 0
  {
    map d | d in w.tasks[n].dependencies :: (LayerFalls(w, n, d); Evaluate(w, f, d))
  }

  ghost function EvaluateAll(w: Workflow, f: NodeFunction): map<NodeId, Json>
    requires Staged(w) && w.plan.Ok?
  {
    map n | n in w.tasks :: Evaluate(w, f, n)
  }

  predicate HasResult(ph: Phase) {
    ph.Returned? || ph.Kept? || ph.Traced? || ph.Finished?
  }

  /** Results written so far are the evaluated ones, and finished nodes have theirs. */
  ghost predicate Sound(w: Workflow, f: NodeFunction, s: State)
    requires Staged(w)
  {
    && (w.plan.Err? ==> s.live.results == map[])
    && (w.plan.Ok? ==> forall n :: n in s.live.results ==> n in w.tasks && s.live.results[n] == Evaluate(w, f, n))
    && (forall n :: n in w.tasks && HasResult(PhaseOf(w, s.control, n)) ==> n in s.live.results)
  }

  lemma RunnerResult(w: Workflow, f: NodeFunction, s: State, n: NodeId, v: Json)
    requires Staged(w) && Shape(w, s) && Computes(w, f) && Sound(w, f, s)
    requires CanAdvance(w, s, n, Return(v)) && s.control.phases[n].Announced?
    ensures v == Evaluate(w, f, n)
  {
    DependenciesFinished(w, s, n);
    var inputs := Inputs(w.tasks[n], s.live.results);
    var expected := DependencyValues(w, f, n);
    forall d | d in w.tasks[n].dependencies ensures d in inputs && inputs[d] == expected[d] {
      assert HasResult(PhaseOf(w, s.control, d));
    }
    assert inputs == expected;
  }

  /** Results change only at a start and when a runner returns. */
  lemma ResultsStep(w: Workflow, s: State, a: Action)
    requires Enabled(w, s, a)
    ensures
      var results := Next(w, s, a).live.results;
      if a.Start? then results == map[]
      else if a.Advance? && s.control.phases[a.node].Announced? && a.outcome.Return? then
        results == s.live.results[a.node := a.outcome.value]
      else results == s.live.results
  {
  }

  lemma HasResultStep(w: Workflow, s: State, a: Action, n: NodeId)
    requires Staged(w) && Shape(w, s) && Enabled(w, s, a) && n in w.tasks
    requires HasResult(PhaseOf(w, s.control, n)) ==> n in s.live.results
    requires HasResult(PhaseOf(w, Next(w, s, a).control, n))
    ensures n in Next(w, s, a).live.results
  {
    PhaseMoves(w, s, a, n);
    ResultsStep(w, s, a);
  }

  lemma SoundStep(w: Workflow, f: NodeFunction, s: State, a: Action)
    requires Staged(w) && Shape(w, s) && Computes(w, f) && Sound(w, f, s) && Enabled(w, s, a)
    ensures Sound(w, f, Next(w, s, a))
  {
    var next := Next(w, s, a);
    ResultsStep(w, s, a);
    if a.Advance? && s.control.phases[a.node].Announced? && a.outcome.Return? {
      RunnerResult(w, f, s, a.node, a.outcome.value);
    }
    forall n | n in w.tasks && HasResult(PhaseOf(w, next.control, n)) ensures n in next.live.results {
      HasResultStep(w, s, a, n);
    }
  }

  lemma {:induction false} SoundAlways(w: Workflow, f: NodeFunction, actions: seq<Action>)
    requires Staged(w) && Computes(w, f) && Exec(w, actions).Some?
    ensures Sound(w, f, Exec(w, actions).value)
  {
    if actions != [] {
      SoundAlways(w, f, actions[..|actions| - 1]);
      ShapeAlways(w, actions[..|actions| - 1]);
      SoundStep(w, f, Exec(w, actions[..|actions| - 1]).value, actions[|actions| - 1]);
    }
  }

  /** Whatever the interleaving and whichever attempts failed, a completed run holds exactly
      the directly evaluated result of every task. */
  lemma EveryInterleavingEvaluates(w: Workflow, f: NodeFunction, actions: seq<Action>)
    requires Staged(w) && Computes(w, f) && Exec(w, actions).Some?
    requires Exec(w, actions).value.control.Closed?
    ensures w.plan.Ok? && Exec(w, actions).value.live.results == EvaluateAll(w, f)
  {
    SoundAlways(w, f, actions);
    ShapeAlways(w, actions);
    var s := Exec(w, actions).value;
    forall n | n in w.tasks ensures n in s.live.results {
      assert HasResult(PhaseOf(w, s.control, n));
    }
  }

  // ---------------------------------------------------------------- bounded attempts

  predicate WithinLimit(ph: Phase, calls: nat, limit: nat) {
    match ph
    case Idle(a) => calls == a < limit
    case Counted(a) => calls + 1 == a <= limit
    case Announced(a) => calls + 1 == a <= limit
    case Returned(a, _) => 0 < calls == a <= limit
    case Kept(a, _) => 0 < calls == a <= limit
    case Traced(a, _) => 0 < calls == a <= limit
    case Raised(a) => 0 < calls == a <= limit
    case RaisedTraced(a) => 0 < calls == a <= limit
    case RaisedLogged(a) => 0 < calls == a <= limit
    case Finished => 0 < calls <= limit
    case Exhausted => calls == limit
    case Held => calls == 0
  }

  ghost predicate Bounded(w: Workflow, s: State) {
    forall n :: n in w.tasks ==>
      WithinLimit(PhaseOf(w, s.control, n), CallCount(s.calls, n), w.tasks[n].maxRetries + 1)
  }

  lemma LimitOfThread(task: TaskNode, ph: Phase, o: Outcome, calls: nat)
    requires WithinLimit(ph, calls, task.maxRetries + 1)
    requires ph.Idle? ==> ph.attempts <= task.maxRetries
    ensures WithinLimit(NextPhase(task, ph, o), calls + if ph.Announced? then 1 else 0, task.maxRetries + 1)
  {
  }

  lemma CallsStep(w: Workflow, s: State, a: Action, n: NodeId)
    requires Enabled(w, s, a) && n in w.tasks
    ensures CallCount(Next(w, s, a).calls, n)
         == if a.Start? then 0
            else CallCount(s.calls, n) + if a.Advance? && a.node == n && s.control.phases[n].Announced? then 1 else 0
  {
  }

  lemma BoundedStep(w: Workflow, s: State, a: Action)
    requires Staged(w) && Shape(w, s) && Bounded(w, s) && Enabled(w, s, a)
    ensures Bounded(w, Next(w, s, a))
  {
    var next := Next(w, s, a);
    forall n | n in w.tasks
      ensures WithinLimit(PhaseOf(w, next.control, n), CallCount(next.calls, n), w.tasks[n].maxRetries + 1)
    {
      PhaseMoves(w, s, a, n);
      CallsStep(w, s, a, n);
      if a.OpenBatch? && n in Unapproved(w, s) {
        assert StagedAt(w, s.control.batch, n);
      } else if a.Advance? && a.node == n {
        LimitOfThread(w.tasks[n], s.control.phases[n], a.outcome, CallCount(s.calls, n));
      }
    }
  }

  /** In one start a node is called at most `max_retries + 1` times; a finished node at
      least once, a failed one exactly that often. */
  lemma {:induction false} CallsAreBounded(w: Workflow, actions: seq<Action>)
    requires Staged(w) && Exec(w, actions).Some?
    ensures Bounded(w, Exec(w, actions).value)
    ensures forall n :: n in w.tasks ==> CallCount(Exec(w, actions).value.calls, n) <= w.tasks[n].maxRetries + 1
  {
    if actions != [] {
      CallsAreBounded(w, actions[..|actions| - 1]);
      ShapeAlways(w, actions[..|actions| - 1]);
      BoundedStep(w, Exec(w, actions[..|actions| - 1]).value, actions[|actions| - 1]);
    }
  }

  lemma ThreadCanMove(w: Workflow, s: State, n: NodeId)
    requires Staged(w) && Shape(w, s) && Bounded(w, s) && s.control.InBatch?
    requires n in s.control.phases && !s.control.phases[n].Finished? && !s.control.phases[n].Exhausted?
    ensures s.control.phases[n].Held? || CanAdvance(w, s, n, Raise)
  {
    assert n in w.plan.value[s.control.batch] && StagedAt(w, s.control.batch, n);
    assert PhaseOf(w, s.control, n) == s.control.phases[n];
  }

  ghost predicate NoneHeld(s: State) {
    s.control.InBatch? ==> forall n :: n in s.control.phases ==> !s.control.phases[n].Held?
  }

  lemma NoneHeldStep(w: Workflow, s: State, a: Action)
    requires NoneHeld(s) && Enabled(w, s, a)
    ensures NoneHeld(Next(w, s, a))
  {
  }

  lemma CanMove(w: Workflow, s: State) returns (a: Action)
    requires Staged(w) && Shape(w, s) && Bounded(w, s) && NoneHeld(s)
    requires s.control.AtBatch? || s.control.InBatch? || s.control.Closing?
    ensures !a.Start? && Enabled(w, s, a)
  {
    if s.control.AtBatch? {
      a := if s.control.batch == |w.plan.value| then ReportCompletion else OpenBatch;
    } else if s.control.Closing? {
      a := Close;
    } else if n :| n in s.control.phases && !s.control.phases[n].Finished? && !s.control.phases[n].Exhausted? {
      ThreadCanMove(w, s, n);
      a := Advance(n, Raise);
    } else if n :| n in s.control.phases && s.control.phases[n].Exhausted? {
      a := GiveUp;
    } else {
      a := SaveCheckpoint;
    }
  }

  lemma {:induction false} NoneHeldAlways(w: Workflow, actions: seq<Action>)
    requires Exec(w, actions).Some?
    ensures NoneHeld(Exec(w, actions).value)
  {
    if actions != [] {
      NoneHeldAlways(w, actions[..|actions| - 1]);
      NoneHeldStep(w, Exec(w, actions[..|actions| - 1]).value, actions[|actions| - 1]);
    }
  }

  /** The main thread or some thread can always move, until the run has paused, failed or closed. */
  lemma NeverStuck(w: Workflow, actions: seq<Action>) returns (a: Action)
    requires Staged(w) && Exec(w, actions).Some?
    requires
      var c := Exec(w, actions).value.control;
      c.AtBatch? || c.InBatch? || c.Closing?
    ensures !a.Start? && Enabled(w, Exec(w, actions).value, a)
  {
    ShapeAlways(w, actions);
    CallsAreBounded(w, actions);
    NoneHeldAlways(w, actions);
    a := CanMove(w, Exec(w, actions).value);
  }

  /** Evaluation depends on the graph alone, not on which runner executes it. */
  lemma {:induction false} EvaluateIgnoresRunner(w1: Workflow, w2: Workflow, f: NodeFunction, n: NodeId)
    requires Staged(w1) && Staged(w2) && w1.plan.Ok? && w1.plan == w2.plan && w1.tasks == w2.tasks && n in w1.tasks
    ensures Evaluate(w1, f, n) == Evaluate(w2, f, n)
    decreases LayerOf(w1.plan.value, n)
  {
    var v1, v2 := DependencyValues(w1, f, n), DependencyValues(w2, f, n);
    forall d | d in w1.tasks[n].dependencies ensures v1[d] == v2[d] {
      LayerFalls(w1, n, d);
      LayerFalls(w2, n, d);
      EvaluateIgnoresRunner(w1, w2, f, d);
    }
    assert v1 == v2;
  }
}
