/** Every start comes to an end: the steps it can take are bounded by the plan and the retry limits. */
module Progress {
  import opened Digraphs
  import opened TaskGraphs
  import opened Values
  import opened WorkflowRuns
  import Confluence

  const ATTEMPT_STEPS: nat := 7

  /** Steps that the attempts after number `a` can still take. */
  function Left(task: TaskNode, a: nat): nat {
    if a <= task.maxRetries then ATTEMPT_STEPS * (task.maxRetries + 1 - a) else 0
  }

  /** Steps a thread in this phase can still take. */
  function ThreadCost(task: TaskNode, ph: Phase): nat {
    match ph
    case Idle(a) => Left(task, a)
    case Counted(a) => Left(task, a) + 6
    case Announced(a) => Left(task, a) + 5
    case Returned(a, _) => Left(task, a) + 4
    case Kept(a, _) => Left(task, a) + 3
    case Traced(a, _) => Left(task, a) + 2
    case Raised(a) => Left(task, a) + 3
    case RaisedTraced(a) => Left(task, a) + 2
    case RaisedLogged(a) => Left(task, a) + 1
    case Finished => 0
    case Exhausted => 0
    case Held => 0
  }

  lemma ThreadCostFalls(task: TaskNode, ph: Phase, o: Outcome)
    requires !ph.Finished? && !ph.Exhausted? && !ph.Held?
    requires ph.Idle? ==> ph.attempts <= task.maxRetries
    ensures ThreadCost(task, NextPhase(task, ph, o)) < ThreadCost(task, ph)
  {
  }

  /** Steps the main thread can still take. */
  function MainCost(batches: nat, c: Control): nat {
    match c
    case AtBatch(k) => if k <= batches then 2 * (batches - k) + 2 else 0
    case InBatch(k, _) => if k <= batches then 2 * (batches - k) + 1 else 0
    case Closing => 1
    case _ => 0
  }

  ghost function NodesCost(w: Workflow, c: Control, ids: seq<NodeId>): nat
    requires forall id :: id in ids ==> id in w.tasks
  {
    if ids == [] then 0
    else NodesCost(w, c, ids[..|ids| - 1]) + ThreadCost(w.tasks[ids[|ids| - 1]], PhaseOf(w, c, ids[|ids| - 1]))
  }

  lemma {:induction false} NodesCostFalls(w: Workflow, before: Control, after: Control, ids: seq<NodeId>)
    requires forall id :: id in ids ==> id in w.tasks
    requires forall id :: id in ids ==>
      ThreadCost(w.tasks[id], PhaseOf(w, after, id)) <= ThreadCost(w.tasks[id], PhaseOf(w, before, id))
    ensures NodesCost(w, after, ids) <= NodesCost(w, before, ids)
    ensures (exists id :: id in ids &&
              ThreadCost(w.tasks[id], PhaseOf(w, after, id)) < ThreadCost(w.tasks[id], PhaseOf(w, before, id)))
            ==> NodesCost(w, after, ids) < NodesCost(w, before, ids)
  {
    if ids != [] {
      assert ids == ids[..|ids| - 1] + [ids[|ids| - 1]];
      NodesCostFalls(w, before, after, ids[..|ids| - 1]);
    }
  }

  // ---------------------------------------------------------------- every action but a start uses up a step

  function Batches(w: Workflow): nat {
    if w.plan.Ok? then |w.plan.value| else 0
  }

  ghost function Remaining(w: Workflow, c: Control, ids: seq<NodeId>): nat
    requires Elements(ids) == w.tasks.Keys
  {
    assert forall id :: id in ids ==> id in Elements(ids);
    MainCost(Batches(w), c) + NodesCost(w, c, ids)
  }

  lemma ThreadStep(w: Workflow, s: State, n: NodeId, o: Outcome, id: NodeId)
    requires Staged(w) && Shape(w, s) && Enabled(w, s, Advance(n, o)) && id in w.tasks
    ensures
      var c := Next(w, s, Advance(n, o)).control;
      if id == n then ThreadCost(w.tasks[id], PhaseOf(w, c, id)) < ThreadCost(w.tasks[id], PhaseOf(w, s.control, id))
      else PhaseOf(w, c, id) == PhaseOf(w, s.control, id)
  {
    PhaseWhenAdvanced(w, s, n, o, id);
    if id == n {
      ThreadCostFalls(w.tasks[n], s.control.phases[n], o);
    }
  }

  lemma AdvanceUsesAStep(w: Workflow, s: State, n: NodeId, o: Outcome, ids: seq<NodeId>)
    requires Staged(w) && Shape(w, s) && Enabled(w, s, Advance(n, o)) && Elements(ids) == w.tasks.Keys
    ensures Remaining(w, Next(w, s, Advance(n, o)).control, ids) < Remaining(w, s.control, ids)
  {
    var c := Next(w, s, Advance(n, o)).control;
    assert forall id :: id in ids <==> id in Elements(ids);
    forall id | id in w.tasks
      ensures ThreadCost(w.tasks[id], PhaseOf(w, c, id)) <= ThreadCost(w.tasks[id], PhaseOf(w, s.control, id))
      ensures id == n ==>
                ThreadCost(w.tasks[id], PhaseOf(w, c, id)) < ThreadCost(w.tasks[id], PhaseOf(w, s.control, id))
    {
      ThreadStep(w, s, n, o, id);
    }
    NodesCostFalls(w, s.control, c, ids);
  }

  lemma MainStep(w: Workflow, s: State, a: Action)
    requires Shape(w, s) && Enabled(w, s, a) && !a.Start? && !a.Advance?
    ensures MainCost(Batches(w), Next(w, s, a).control) < MainCost(Batches(w), s.control)
  {
  }

  lemma MainUsesAStep(w: Workflow, s: State, a: Action, ids: seq<NodeId>)
    requires Staged(w) && Shape(w, s) && Enabled(w, s, a) && !a.Start? && !a.Advance? && Elements(ids) == w.tasks.Keys
    ensures Remaining(w, Next(w, s, a).control, ids) < Remaining(w, s.control, ids)
  {
    var c := Next(w, s, a).control;
    assert forall id :: id in ids <==> id in Elements(ids);
    forall id | id in w.tasks
      ensures ThreadCost(w.tasks[id], PhaseOf(w, c, id)) <= ThreadCost(w.tasks[id], PhaseOf(w, s.control, id))
    {
      PhaseMoves(w, s, a, id);
    }
    NodesCostFalls(w, s.control, c, ids);
    MainStep(w, s, a);
  }

  // ---------------------------------------------------------------- the length of a start

  /** Seven steps for each attempt, two for each batch, two to finish. */
  ghost function StartBound(w: Workflow, ids: seq<NodeId>): nat
    requires Elements(ids) == w.tasks.Keys
  {
    assert forall id :: id in ids ==> id in Elements(ids);
    2 * Batches(w) + 2 + AttemptSteps(w, ids)
  }

  ghost function AttemptSteps(w: Workflow, ids: seq<NodeId>): nat
    requires forall id :: id in ids ==> id in w.tasks
  {
    if ids == [] then 0
    else AttemptSteps(w, ids[..|ids| - 1]) + ATTEMPT_STEPS * (w.tasks[ids[|ids| - 1]].maxRetries + 1)
  }

  lemma {:induction false} FreshNodesCost(w: Workflow, c: Control, ids: seq<NodeId>)
    requires forall id :: id in ids ==> id in w.tasks && PhaseOf(w, c, id) == Idle(0)
    ensures NodesCost(w, c, ids) == AttemptSteps(w, ids)
  {
    if ids != [] {
      FreshNodesCost(w, c, ids[..|ids| - 1]);
    }
  }

  lemma StartCosts(w: Workflow, s: State, approved: set<NodeId>, ids: seq<NodeId>)
    requires Staged(w) && Shape(w, s) && Elements(ids) == w.tasks.Keys
    ensures Remaining(w, Next(w, s, Start(approved)).control, ids) <= StartBound(w, ids)
  {
    var c := Next(w, s, Start(approved)).control;
    forall id | id in ids ensures id in w.tasks && PhaseOf(w, c, id) == Idle(0) {
      assert id in Elements(ids);
      PhaseMoves(w, s, Start(approved), id);
    }
    FreshNodesCost(w, c, ids);
  }

  /** However the threads interleave and the runner behaves, a start takes at most this many steps: its own
      length plus what it can still do never exceeds the bound.  `first` is the position of the start. */
  lemma {:induction false} StartsComeToAnEnd(w: Workflow, actions: seq<Action>, first: nat, ids: seq<NodeId>)
    requires Staged(w) && Exec(w, actions).Some? && Elements(ids) == w.tasks.Keys
    requires first < |actions| && actions[first].Start? && forall i :: first < i < |actions| ==> !actions[i].Start?
    ensures |actions| - (first + 1) + Remaining(w, Exec(w, actions).value.control, ids) <= StartBound(w, ids)
    decreases |actions|
  {
    var before, a := actions[..|actions| - 1], actions[|actions| - 1];
    var s := Exec(w, before).value;
    ShapeAlways(w, before);
    if first == |actions| - 1 {
      StartCosts(w, s, a.approved, ids);
    } else {
      StartsComeToAnEnd(w, before, first, ids);
      if a.Advance? {
        AdvanceUsesAStep(w, s, a.node, a.outcome, ids);
      } else {
        MainUsesAStep(w, s, a, ids);
      }
    }
  }

  /** So every start, wherever it stands, can run on until it has paused, failed or finished. */
  lemma {:induction false} EveryStartCanFinish(w: Workflow, actions: seq<Action>, first: nat, ids: seq<NodeId>)
    returns (more: seq<Action>)
    requires Staged(w) && Exec(w, actions).Some? && Elements(ids) == w.tasks.Keys
    requires first < |actions| && actions[first].Start? && forall i :: first < i < |actions| ==> !actions[i].Start?
    ensures actions <= more && (forall i :: |actions| <= i < |more| ==> !more[i].Start?) && Exec(w, more).Some?
    ensures
      var c := Exec(w, more).value.control;
      !c.AtBatch? && !c.InBatch? && !c.Closing?
    decreases StartBound(w, ids) + first - |actions|
  {
    var c := Exec(w, actions).value.control;
    if c.AtBatch? || c.InBatch? || c.Closing? {
      var a := Confluence.NeverStuck(w, actions);
      ExecSnoc(w, actions, Exec(w, actions).value, a);
      var longer := actions + [a];
      StartsComeToAnEnd(w, longer, first, ids);
      more := EveryStartCanFinish(w, longer, first, ids);
    } else {
      more := actions;
    }
  }

  // ---------------------------------------------------------------- which starts can still complete

  /** The thread has lost its last attempt, even if it has not yet said so. */
  predicate Spent(task: TaskNode, ph: Phase) {
    match ph
    case Returned(a, v) => a > task.maxRetries && !Storable(v)
    case Raised(a) => a > task.maxRetries
    case RaisedTraced(a) => a > task.maxRetries
    case RaisedLogged(a) => a > task.maxRetries
    case Exhausted => true
    case _ => false
  }

  ghost predicate NoneSpent(w: Workflow, c: Control) {
    c.InBatch? ==> forall n :: n in c.phases ==> n in w.tasks && !Spent(w.tasks[n], c.phases[n])
  }

  /** The current start was given every approval the tasks ask for. */
  ghost predicate AllApproved(w: Workflow, grants: seq<set<NodeId>>) {
    grants != [] && forall n :: n in w.tasks && w.tasks[n].requiresApproval ==> n in grants[|grants| - 1]
  }

  /** Whatever it is given, the runner may return this value, and the context store takes it. */
  ghost predicate Willing(w: Workflow, g: Confluence.NodeFunction) {
    forall t, inputs :: w.may(t, inputs, g(t, inputs)) && Storable(g(t, inputs))
  }

  ghost predicate UnderWay(c: Control) {
    c.AtBatch? || c.InBatch? || c.Closing?
  }

  ghost predicate OnCourse(w: Workflow, s: State) {
    AllApproved(w, s.grants) && NoneSpent(w, s.control) && (UnderWay(s.control) || s.control.Closed?)
  }

  /** The outcome that keeps a thread on course. */
  function Success(w: Workflow, s: State, g: Confluence.NodeFunction, n: NodeId): Outcome
    requires n in w.tasks
  {
    Return(g(w.tasks[n], Inputs(w.tasks[n], s.live.results)))
  }

  lemma ThreadStaysUnspent(task: TaskNode, ph: Phase, o: Outcome)
    requires !Spent(task, ph) && o.Return? && Storable(o.value)
    ensures !Spent(task, NextPhase(task, ph, o))
  {
  }

  lemma AdvanceStaysOnCourse(w: Workflow, s: State, g: Confluence.NodeFunction, n: NodeId)
    requires Staged(w) && Shape(w, s) && Confluence.Bounded(w, s) && Confluence.NoneHeld(s) && OnCourse(w, s)
    requires Willing(w, g) && s.control.InBatch? && n in s.control.phases && s.control.phases[n] != Finished
    ensures n in w.tasks && Enabled(w, s, Advance(n, Success(w, s, g, n)))
    ensures OnCourse(w, Next(w, s, Advance(n, Success(w, s, g, n))))
  {
    assert n in w.tasks && !Spent(w.tasks[n], s.control.phases[n]);
    Confluence.ThreadCanMove(w, s, n);
    ThreadStaysUnspent(w.tasks[n], s.control.phases[n], Success(w, s, g, n));
  }

  lemma OpeningStaysOnCourse(w: Workflow, s: State)
    requires Staged(w) && Shape(w, s) && OnCourse(w, s) && s.control.AtBatch? && s.control.batch < |w.plan.value|
    ensures Enabled(w, s, OpenBatch) && OnCourse(w, Next(w, s, OpenBatch))
  {
    var k := s.control.batch;
    assert Unapproved(w, s) == {};
    forall n | n in w.plan.value[k] ensures n in w.tasks {
      assert StagedAt(w, k, n);
    }
  }

  lemma StepOnCourse(w: Workflow, s: State, g: Confluence.NodeFunction) returns (a: Action)
    requires Staged(w) && Shape(w, s) && Confluence.Bounded(w, s) && Confluence.NoneHeld(s) && OnCourse(w, s)
    requires Willing(w, g) && UnderWay(s.control)
    ensures !a.Start? && Enabled(w, s, a) && OnCourse(w, Next(w, s, a))
  {
    if s.control.AtBatch? {
      if s.control.batch == |w.plan.value| {
        a := ReportCompletion;
      } else {
        OpeningStaysOnCourse(w, s);
        a := OpenBatch;
      }
    } else if s.control.Closing? {
      a := Close;
    } else if n :| n in s.control.phases && s.control.phases[n] != Finished {
      AdvanceStaysOnCourse(w, s, g, n);
      a := Advance(n, Success(w, s, g, n));
    } else {
      a := SaveCheckpoint;
    }
  }

  /** With all approvals given and a runner that may succeed, every point of a start at which no thread has
      lost its last attempt extends to a completed run. */
  lemma {:induction false} StartCanComplete(
    w: Workflow, actions: seq<Action>, first: nat, ids: seq<NodeId>, g: Confluence.NodeFunction)
    returns (more: seq<Action>)
    requires Staged(w) && Exec(w, actions).Some? && Elements(ids) == w.tasks.Keys && Willing(w, g)
    requires first < |actions| && actions[first].Start? && forall i :: first < i < |actions| ==> !actions[i].Start?
    requires OnCourse(w, Exec(w, actions).value)
    ensures actions <= more && (forall i :: |actions| <= i < |more| ==> !more[i].Start?)
    ensures Exec(w, more).Some? && Exec(w, more).value.control.Closed?
    decreases StartBound(w, ids) + first - |actions|
  {
    var s := Exec(w, actions).value;
    if UnderWay(s.control) {
      ShapeAlways(w, actions);
      Confluence.CallsAreBounded(w, actions);
      Confluence.NoneHeldAlways(w, actions);
      var a := StepOnCourse(w, s, g);
      ExecSnoc(w, actions, s, a);
      var longer := actions + [a];
      StartsComeToAnEnd(w, longer, first, ids);
      more := StartCanComplete(w, longer, first, ids, g);
    } else {
      more := actions;
    }
  }

  /** So every acyclic graph has a completed run: start it with all approvals. */
  lemma CompletedRunExists(w: Workflow, ids: seq<NodeId>, g: Confluence.NodeFunction) returns (more: seq<Action>)
    requires Staged(w) && w.plan.Ok? && Elements(ids) == w.tasks.Keys && Willing(w, g)
    ensures Exec(w, more).Some? && Exec(w, more).value.control.Closed?
  {
    var start := Start(w.tasks.Keys);
    ExecSnoc(w, [], INITIAL, start);
    assert [] + [start] == [start];
    more := StartCanComplete(w, [start], 0, ids, g);
  }

  /** Once a thread has lost its last attempt, the start never completes. */
  lemma {:induction false} SpentNeverCompletes(w: Workflow, actions: seq<Action>, more: seq<Action>, n: NodeId)
    requires Exec(w, actions).Some? && Exec(w, actions + more).Some? && forall i :: 0 <= i < |more| ==> !more[i].Start?
    requires Lost(w, Exec(w, actions).value.control, n)
    ensures Lost(w, Exec(w, actions + more).value.control, n)
    decreases |more|
  {
    if more == [] {
      assert actions + more == actions;
    } else {
      var init, a := more[..|more| - 1], more[|more| - 1];
      assert (actions + more)[..|actions + more| - 1] == actions + init;
      SpentNeverCompletes(w, actions, init, n);
      LostStays(w, Exec(w, actions + init).value, a, n);
    }
  }

  /** The batch of node `n` is open or broken, and its thread has lost its last attempt. */
  ghost predicate Lost(w: Workflow, c: Control, n: NodeId) {
    (c.InBatch? || c.Broken?) && n in c.phases && n in w.tasks && Spent(w.tasks[n], c.phases[n])
  }

  lemma LostStays(w: Workflow, s: State, a: Action, n: NodeId)
    requires Lost(w, s.control, n) && Enabled(w, s, a) && !a.Start?
    ensures Lost(w, Next(w, s, a).control, n)
  {
  }
}
