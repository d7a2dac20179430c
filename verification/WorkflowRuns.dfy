/** `MeshWorkflowEngine` as a state machine.

    Every action is one atomic step of the program: an update of the live `WorkflowState`, one
    append to the event log, or one call of the node runner.  The threads of a batch are
    the entries of `phases`; `Advance` moves any one of them by one step, so a list of actions is
    one interleaving.  `Start` is possible in every state: it is a restart after a crash at
    that point, which keeps the log and loses the live state. */
module WorkflowRuns {
  import opened Digraphs
  import opened TaskGraphs
  import opened Scheduling
  import opened Values

  /** The graph, the outcome of scheduling it, and which values the node runner may return. */
  datatype Workflow = Workflow(
    tasks: map<NodeId, TaskNode>,
    plan: Result<seq<seq<NodeId>>, GraphError>,
    may: (TaskNode, map<NodeId, Json>, Json) -> bool)

  datatype NodeStatus = Pending | AwaitingApproval | Completed | Failed

  datatype RunStatus = Unknown | Running | WaitingForApproval | Succeeded | RunFailed

  datatype Live = Live(
    status: RunStatus,
    nodeStatus: map<NodeId, NodeStatus>,
    results: map<NodeId, Json>,
    retries: map<NodeId, nat>,
    assignments: map<NodeId, string>,
    checkpoints: seq<nat>)

  datatype Event =
    | WorkflowStarted(tasks: map<NodeId, TaskNode>)
    | TaskStarted(node: NodeId, attempt: nat)
    | TaskTrace(node: NodeId)
    | TaskCompleted(node: NodeId, attempt: nat, result: Json)
    | TaskFailed(node: NodeId, attempt: nat)
    | ApprovalRequested(nodes: set<NodeId>)
    | ApprovalResolved(nodes: set<NodeId>)
    | CheckpointCreated(number: nat)
    | WorkflowTrace(status: RunStatus)
    | WorkflowCompleted

  /** Where one thread stands inside `_run_node_with_retries`. */
  datatype Phase =
    | Idle(attempts: nat)                     // loop head
    | Counted(attempt: nat)                   // retry counter written
    | Announced(attempt: nat)                 // task.started appended
    | Returned(attempt: nat, value: Json)     // runner returned; result and status written
    | Kept(attempt: nat, value: Json)         // context store accepted the result
    | Traced(attempt: nat, value: Json)       // task trace appended
    | Finished                                // task.completed appended
    | Raised(attempt: nat)                    // runner or context store raised
    | RaisedTraced(attempt: nat)
    | RaisedLogged(attempt: nat)              // task.failed appended
    | Exhausted                               // no attempt left; the thread raised
    | Held                                    // never started: waits for a human

  /** Where the main thread stands inside `start`. */
  datatype Control =
    | NotStarted
    | AtBatch(batch: nat)
    | InBatch(batch: nat, phases: map<NodeId, Phase>)
    | Paused(batch: nat, held: set<NodeId>)
    | Broken(batch: nat, phases: map<NodeId, Phase>)
    | Refused
    | Closing
    | Closed

  /** `grants` holds the approved-node set of each start so far, `calls` the runner calls of the current one. */
  datatype State = State(
    live: Live,
    log: seq<Event>,
    grants: seq<set<NodeId>>,
    control: Control,
    calls: map<NodeId, nat>)

  datatype Outcome = Return(value: Json) | Raise

  datatype Action =
    | Start(approved: set<NodeId>)
    | OpenBatch
    | Advance(node: NodeId, outcome: Outcome)
    | SaveCheckpoint
    | GiveUp
    | ReportCompletion
    | Close

  ghost const INITIAL := State(Live(Unknown, map[], map[], map[], map[], []), [], [], NotStarted, map[])

  // ---------------------------------------------------------------- one step

  ghost function Unapproved(w: Workflow, s: State): set<NodeId>
    requires s.control.AtBatch? && w.plan.Ok? && s.control.batch < |w.plan.value| && s.grants != []
  {
    set id | id in w.plan.value[s.control.batch] && id in w.tasks && w.tasks[id].requiresApproval
             && id !in s.grants[|s.grants| - 1]
  }

  function Inputs(task: TaskNode, results: map<NodeId, Json>): map<NodeId, Json> {
    map d | d in task.dependencies && d in results :: results[d]
  }

  /** A thread can stop only in these phases; an untouched one is a later node of a sequential batch. */
  predicate Settled(ph: Phase) {
    ph == Finished || ph == Exhausted || ph == Idle(0)
  }

  ghost predicate CanAdvance(w: Workflow, s: State, node: NodeId, outcome: Outcome) {
    && s.control.InBatch? && node in s.control.phases && node in w.tasks
    && match s.control.phases[node]
       case Idle(a) => a <= w.tasks[node].maxRetries
       case Announced(_) =>
         outcome.Return? ==> w.may(w.tasks[node], Inputs(w.tasks[node], s.live.results), outcome.value)
       case Finished => false
       case Exhausted => false
       case Held => false
       case _ => true
  }

  ghost predicate Enabled(w: Workflow, s: State, a: Action) {
    match a
    case Start(_) => true
    case OpenBatch => s.control.AtBatch? && w.plan.Ok? && s.control.batch < |w.plan.value| && s.grants != []
    case Advance(node, outcome) => CanAdvance(w, s, node, outcome)
    case SaveCheckpoint =>
      s.control.InBatch? && forall id :: id in s.control.phases ==> s.control.phases[id] == Finished
    case GiveUp =>
      && s.control.InBatch?
      && (forall id :: id in s.control.phases ==> Settled(s.control.phases[id]))
      && (exists id :: id in s.control.phases && s.control.phases[id] == Exhausted)
    case ReportCompletion => s.control.AtBatch? && w.plan.Ok? && s.control.batch == |w.plan.value|
    case Close => s.control.Closing?
  }

  /** The event an action appends, if any. */
  ghost function Emitted(w: Workflow, s: State, a: Action): seq<Event>
    requires Enabled(w, s, a)
  {
    match a
    case Start(_) => [WorkflowStarted(w.tasks)]
    case OpenBatch => if Unapproved(w, s) == {} then [] else [ApprovalRequested(Unapproved(w, s))]
    case Advance(node, _) => ThreadEvents(node, s.control.phases[node])
    case SaveCheckpoint => [CheckpointCreated(|s.live.checkpoints| + 1)]
    case GiveUp => []
    case ReportCompletion => [WorkflowTrace(Succeeded)]
    case Close => [WorkflowCompleted]
  }

  function ThreadEvents(node: NodeId, ph: Phase): seq<Event> {
    match ph
    case Counted(a) => [TaskStarted(node, a)]
    case Kept(_, _) => [TaskTrace(node)]
    case Traced(a, v) => [TaskCompleted(node, a, v)]
    case Raised(_) => [TaskTrace(node)]
    case RaisedTraced(a) => [TaskFailed(node, a)]
    case _ => []
  }

  function NextPhase(task: TaskNode, ph: Phase, outcome: Outcome): Phase {
    match ph
    case Idle(a) => Counted(a + 1)
    case Counted(a) => Announced(a)
    case Announced(a) => if outcome.Return? then Returned(a, outcome.value) else Raised(a)
    case Returned(a, v) => if Storable(v) then Kept(a, v) else Raised(a)
    case Kept(a, v) => Traced(a, v)
    case Traced(_, _) => Finished
    case Raised(a) => RaisedTraced(a)
    case RaisedTraced(a) => RaisedLogged(a)
    case RaisedLogged(a) => if a > task.maxRetries then Exhausted else Idle(a)
    case _ => ph
  }

  function ThreadLive(task: TaskNode, live: Live, node: NodeId, ph: Phase, outcome: Outcome): Live {
    match ph
    case Idle(a) => live.(retries := live.retries[node := a + 1])
    case Announced(_) =>
      if outcome.Return? then
        live.(results := live.results[node := outcome.value], nodeStatus := live.nodeStatus[node := Completed])
      else
        live
    case RaisedLogged(a) =>
      if a > task.maxRetries then
        live.(nodeStatus := live.nodeStatus[node := Failed], status := RunFailed)
      else
        live
    case _ => live
  }

  function CallCount(calls: map<NodeId, nat>, node: NodeId): nat {
    if node in calls then calls[node] else 0
  }

  ghost function Next(w: Workflow, s: State, a: Action): State
    requires Enabled(w, s, a)
  {
    var log := s.log + Emitted(w, s, a);
    match a
    case Start(approved) =>
      State(
        Live(Running, map id | id in w.tasks :: Pending, map[], map[], map id | id in w.tasks :: w.tasks[id].agent, []),
        log, s.grants + [approved], if w.plan.Ok? then AtBatch(0) else Refused, map[])
    case OpenBatch =>
      var k, held := s.control.batch, Unapproved(w, s);
      if held == {} then
        s.(log := log, control := InBatch(k, map id | id in w.plan.value[k] :: Idle(0)))
      else
        var nodeStatus := s.live.nodeStatus + map id | id in held :: AwaitingApproval;
        s.(log := log, control := Paused(k, held),
           live := s.live.(nodeStatus := nodeStatus, status := WaitingForApproval))
    case Advance(node, outcome) =>
      var task, ph := w.tasks[node], s.control.phases[node];
      var calls := if ph.Announced? then s.calls[node := CallCount(s.calls, node) + 1] else s.calls;
      State(ThreadLive(task, s.live, node, ph, outcome), log, s.grants,
            InBatch(s.control.batch, s.control.phases[node := NextPhase(task, ph, outcome)]), calls)
    case SaveCheckpoint =>
      s.(log := log, control := AtBatch(s.control.batch + 1),
         live := s.live.(checkpoints := s.live.checkpoints + [|s.live.checkpoints| + 1]))
    case GiveUp => s.(log := log, control := Broken(s.control.batch, s.control.phases))
    case ReportCompletion => s.(log := log, control := Closing, live := s.live.(status := Succeeded))
    case Close => s.(log := log, control := Closed)
  }

  // ---------------------------------------------------------------- runs

  /** The state an interleaving leads to, or nothing if some action is not possible when its turn comes. */
  ghost function Exec(w: Workflow, actions: seq<Action>): Option<State> {
    if actions == [] then
      Some(INITIAL)
    else
      match Exec(w, actions[..|actions| - 1])
      case None => None
      case Some(s) => if Enabled(w, s, actions[|actions| - 1]) then Some(Next(w, s, actions[|actions| - 1])) else None
  }

  lemma ExecSnoc(w: Workflow, actions: seq<Action>, s: State, a: Action)
    requires Exec(w, actions) == Some(s) && Enabled(w, s, a)
    ensures Exec(w, actions + [a]) == Some(Next(w, s, a))
  {
    assert (actions + [a])[..|actions + [a]| - 1] == actions;
  }

  // ---------------------------------------------------------------- facts about the plan

  /** What the machine relies on: the batches cover the tasks, and dependencies sit in earlier batches. */
  ghost predicate Staged(w: Workflow) {
    w.plan.Ok? ==>
      && Before(w.plan.value, |w.plan.value|) == w.tasks.Keys
      && forall k, id :: 0 <= k < |w.plan.value| && id in w.plan.value[k] ==> StagedAt(w, k, id)
  }

  ghost predicate StagedAt(w: Workflow, k: nat, id: NodeId)
    requires w.plan.Ok? && k < |w.plan.value|
  {
    && id in w.tasks && id !in Before(w.plan.value, k)
    && Elements(w.tasks[id].dependencies) <= Before(w.plan.value, k)
  }

  /** Progress of one node, whatever the main thread is doing. */
  ghost function PhaseOf(w: Workflow, c: Control, id: NodeId): Phase {
    match c
    case NotStarted => Idle(0)
    case AtBatch(k) => if Passed(w, k, id) then Finished else Idle(0)
    case InBatch(k, phases) => if Passed(w, k, id) then Finished else if id in phases then phases[id] else Idle(0)
    case Broken(k, phases) => if Passed(w, k, id) then Finished else if id in phases then phases[id] else Idle(0)
    case Paused(k, held) => if Passed(w, k, id) then Finished else if id in held then Held else Idle(0)
    case Refused => Idle(0)
    case Closing => Finished
    case Closed => Finished
  }

  ghost predicate Passed(w: Workflow, k: nat, id: NodeId) {
    w.plan.Ok? && k <= |w.plan.value| && id in Before(w.plan.value, k)
  }

  /** The main thread is inside the plan, and a running batch has one thread per node of it. */
  ghost predicate Shape(w: Workflow, s: State) {
    && (s.control.NotStarted? <==> s.grants == [])
    && match s.control
       case AtBatch(k) => w.plan.Ok? && k <= |w.plan.value|
       case InBatch(k, phases) => w.plan.Ok? && k < |w.plan.value| && phases.Keys == Elements(w.plan.value[k])
       case Broken(k, phases) => w.plan.Ok? && k < |w.plan.value| && phases.Keys == Elements(w.plan.value[k])
       case Paused(k, held) => w.plan.Ok? && k < |w.plan.value| && held <= Elements(w.plan.value[k])
       case Closing => w.plan.Ok?
       case Closed => w.plan.Ok?
       case Refused => w.plan.Err?
       case NotStarted => true
  }

  lemma ShapeKept(w: Workflow, s: State, a: Action)
    requires Shape(w, s) && Enabled(w, s, a)
    ensures Shape(w, Next(w, s, a))
  {
  }

  lemma {:induction false} ShapeAlways(w: Workflow, actions: seq<Action>)
    requires Exec(w, actions).Some?
    ensures Shape(w, Exec(w, actions).value)
  {
    if actions != [] {
      ShapeAlways(w, actions[..|actions| - 1]);
      ShapeKept(w, Exec(w, actions[..|actions| - 1]).value, actions[|actions| - 1]);
    }
  }

  lemma PhaseWhenOpened(w: Workflow, s: State, id: NodeId)
    requires Staged(w) && Shape(w, s) && Enabled(w, s, OpenBatch) && id in w.tasks
    ensures PhaseOf(w, Next(w, s, OpenBatch).control, id)
         == if id in Unapproved(w, s) then Held else PhaseOf(w, s.control, id)
  {
    if id in w.plan.value[s.control.batch] {
      assert StagedAt(w, s.control.batch, id);
    }
  }

  lemma PhaseWhenAdvanced(w: Workflow, s: State, n: NodeId, o: Outcome, id: NodeId)
    requires Staged(w) && Shape(w, s) && Enabled(w, s, Advance(n, o)) && id in w.tasks
    ensures
      var before, after := PhaseOf(w, s.control, id), PhaseOf(w, Next(w, s, Advance(n, o)).control, id);
      if id == n then before == s.control.phases[n] && after == NextPhase(w.tasks[n], before, o) else after == before
  {
    assert n in Elements(w.plan.value[s.control.batch]);
    assert StagedAt(w, s.control.batch, n);
  }

  lemma PhaseWhenSaved(w: Workflow, s: State, id: NodeId)
    requires Shape(w, s) && Enabled(w, s, SaveCheckpoint)
    ensures PhaseOf(w, Next(w, s, SaveCheckpoint).control, id) == PhaseOf(w, s.control, id)
  {
    assert Before(w.plan.value, s.control.batch + 1)
        == Before(w.plan.value, s.control.batch) + Elements(w.plan.value[s.control.batch]);
  }

  /** How one action moves the phases: only `Start` and the acting thread change anything but bookkeeping. */
  lemma PhaseMoves(w: Workflow, s: State, a: Action, id: NodeId)
    requires Staged(w) && Shape(w, s) && Enabled(w, s, a) && id in w.tasks
    ensures
      var before, after := PhaseOf(w, s.control, id), PhaseOf(w, Next(w, s, a).control, id);
      match a
      case Start(_) => after == Idle(0)
      case OpenBatch => after == if id in Unapproved(w, s) then Held else before
      case Advance(n, o) =>
        if id == n then before == s.control.phases[n] && after == NextPhase(w.tasks[n], before, o) else after == before
      case _ => after == before
  {
    match a
    case Start(_) =>
    case OpenBatch => PhaseWhenOpened(w, s, id);
    case Advance(n, o) => PhaseWhenAdvanced(w, s, n, o, id);
    case SaveCheckpoint => PhaseWhenSaved(w, s, id);
    case GiveUp =>
    case ReportCompletion =>
    case Close =>
  }
}
