/** Rebuilding workflow state from the event log, and what survives a crash. */
module Recovery {
  import opened TaskGraphs
  import opened Values
  import opened WorkflowRuns
  import O = SequenceOrder

  /** The dictionaries and sets `rebuild_workflow` fills. */
  datatype Rebuilt = Rebuilt(
    status: RunStatus,
    nodeStatus: map<NodeId, NodeStatus>,
    results: map<NodeId, Json>,
    retries: map<NodeId, nat>,
    assignments: map<NodeId, string>,
    checkpoints: seq<nat>,
    completed: set<NodeId>,
    failed: set<NodeId>,
    started: set<NodeId>,
    traces: seq<Event>)
  {
    function PendingIds(): set<NodeId> { nodeStatus.Keys - completed - failed }
    function FailedIds(): set<NodeId> { failed - completed }
    function FinalStatus(): RunStatus { if status == Unknown && started != {} then Running else status }
  }

  const BLANK := Rebuilt(Unknown, map[], map[], map[], map[], [], {}, {}, {}, [])

  /** The body of the event loop. */
  function Absorb(r: Rebuilt, e: Event): Rebuilt {
    match e
    case WorkflowStarted(tasks) =>
      r.(status := Running,
         nodeStatus := r.nodeStatus + map id | id in tasks :: Pending,
         assignments := r.assignments + map id | id in tasks :: tasks[id].agent)
    case TaskStarted(n, attempt) =>
      r.(started := r.started + {n}, retries := r.retries[n := attempt])
    case TaskTrace(_) => r
    case TaskCompleted(n, _, result) =>
      r.(completed := r.completed + {n}, failed := r.failed - {n},
         nodeStatus := r.nodeStatus[n := Completed], results := r.results[n := result], traces := r.traces + [e])
    case TaskFailed(n, attempt) =>
      var q := r.(retries := r.retries[n := attempt], traces := r.traces + [e]);
      if n in r.completed then q
      else q.(failed := r.failed + {n}, nodeStatus := r.nodeStatus[n := Failed])
    case ApprovalRequested(nodes) =>
      r.(status := WaitingForApproval, nodeStatus := r.nodeStatus + map id | id in nodes :: AwaitingApproval)
    case ApprovalResolved(nodes) =>
      r.(status := Running, nodeStatus := r.nodeStatus + map id | id in nodes :: Pending)
    case CheckpointCreated(number) => r.(checkpoints := r.checkpoints + [number])
    case WorkflowTrace(status) => if status == Succeeded then r.(status := Succeeded) else r
    case WorkflowCompleted => r.(status := Succeeded)
  }

  function Rebuild(log: seq<Event>): Rebuilt {
    if log == [] then BLANK else Absorb(Rebuild(log[..|log| - 1]), log[|log| - 1])
  }

  /** An event as the store hands it out, with its sequence number. */
  datatype Numbered = Numbered(sequence: int, event: Event)

  function SequenceOf(n: Numbered): int {
    n.sequence
  }

  function EventsOf(numbered: seq<Numbered>): seq<Event> {
    seq(|numbered|, i requires 0 <= i < |numbered| => numbered[i].event)
  }

  /** `StateRebuilder.rebuild_workflow`: events in any order; if their numbers differ, the result is the
      fold of the log they come from. */
  method RebuildWorkflow(events: seq<Numbered>) returns (r: Rebuilt)
    ensures r == Rebuild(EventsOf(O.SortBy(events, SequenceOf)))
    ensures forall ordered :: O.StrictBy(ordered, SequenceOf) && multiset(ordered) == multiset(events) ==>
              r == Rebuild(EventsOf(ordered))
  {
    var sorted := O.SortBy(events, SequenceOf);
    ghost var log := EventsOf(sorted);
    r := BLANK;
    for i := 0 to |sorted|
      invariant r == Rebuild(log[..i])
    {
      assert log[..i + 1][..|log[..i + 1]| - 1] == log[..i];
      r := Absorb(r, sorted[i].event);
    }
    assert log[..|log|] == log;
    forall ordered | O.StrictBy(ordered, SequenceOf) && multiset(ordered) == multiset(events)
      ensures r == Rebuild(EventsOf(ordered))
    {
      O.SortRestores(ordered, events, SequenceOf);
    }
  }

  /** A resolved approval sets its nodes back to pending and the run to running, and nothing else. */
  lemma ResolvedApproval(r: Rebuilt, nodes: set<NodeId>)
    ensures
      var after := Absorb(r, ApprovalResolved(nodes));
      && after.status == Running && after == r.(status := Running, nodeStatus := after.nodeStatus)
      && after.nodeStatus.Keys == r.nodeStatus.Keys + nodes
      && forall id :: id in after.nodeStatus ==>
           after.nodeStatus[id] == if id in nodes then Pending else r.nodeStatus[id]
  {
  }

  /** Of the workflow traces only one that says completed counts. */
  lemma WorkflowTraces(r: Rebuilt, status: RunStatus)
    ensures Absorb(r, WorkflowTrace(status)) == if status == Succeeded then r.(status := Succeeded) else r
  {
  }

  /** The finished attempts of a log. */
  function Outcomes(log: seq<Event>): seq<Event> {
    if log == [] then []
    else
      var e := log[|log| - 1];
      Outcomes(log[..|log| - 1]) + if e.TaskCompleted? || e.TaskFailed? then [e] else []
  }

  /** The rebuilt traces are the finished attempts, in order. */
  lemma {:induction false} TracesAreOutcomes(log: seq<Event>)
    ensures Rebuild(log).traces == Outcomes(log)
  {
    if log != [] {
      TracesAreOutcomes(log[..|log| - 1]);
      TraceOf(Rebuild(log[..|log| - 1]), log[|log| - 1]);
    }
  }

  lemma TraceOf(r: Rebuilt, e: Event)
    ensures Absorb(r, e).traces == r.traces + if e.TaskCompleted? || e.TaskFailed? then [e] else []
  {
    match e {
      case TaskCompleted(_, _, _) =>
      case TaskFailed(_, _) =>
      case _ => assert r.traces + [] == r.traces;
    }
  }

  /** Absorbing what one action emits (at most one event). */
  function AbsorbStep(r: Rebuilt, events: seq<Event>): Rebuilt {
    if |events| == 1 then Absorb(r, events[0]) else r
  }

  lemma RebuildStep(w: Workflow, s: State, a: Action)
    requires Enabled(w, s, a)
    ensures Rebuild(Next(w, s, a).log) == AbsorbStep(Rebuild(s.log), Emitted(w, s, a))
  {
    var e := Emitted(w, s, a);
    assert Next(w, s, a).log == s.log + e;
    if e == [] {
      assert s.log + e == s.log;
    } else {
      assert (s.log + e)[..|s.log + e| - 1] == s.log;
    }
  }

  // ---------------------------------------------------------------- live state against rebuilt state

  /** Everything the two sides record about one node. */
  datatype View = View(
    live: Option<NodeStatus>, liveResult: Option<Json>, liveRetry: Option<nat>,
    rebuilt: Option<NodeStatus>, result: Option<Json>, retry: Option<nat>,
    completed: bool, failed: bool,
    base: Base)

  /** What the log had recorded about the node before the current start, which does not erase it. */
  datatype Base = Base(completed: bool, failed: bool, result: Option<Json>, retry: Option<nat>)

  function Get<T>(m: map<NodeId, T>, id: NodeId): Option<T> {
    if id in m then Some(m[id]) else None
  }

  function ViewOf(live: Live, r: Rebuilt, early: Rebuilt, id: NodeId): View {
    View(Get(live.nodeStatus, id), Get(live.results, id), Get(live.retries, id),
         Get(r.nodeStatus, id), Get(r.results, id), Get(r.retries, id),
         id in r.completed, id in r.failed,
         Base(id in early.completed, id in early.failed, Get(early.results, id), Get(early.retries, id)))
  }

  /** The rebuilt side of a node with `n` failures logged in this start and attempt counter `retry`; a node that
      completed in an earlier start never counts as failed again. */
  predicate RebuiltAfter(v: View, n: nat, retry: nat) {
    && v.result == v.base.result && v.completed == v.base.completed
    && (v.failed <==> v.base.failed || (n > 0 && !v.base.completed))
    && v.rebuilt == Some(if n > 0 && !v.base.completed then Failed else Pending)
    && v.retry == if retry == 0 then v.base.retry else Some(retry)
  }

  function Counter(a: nat): Option<nat> {
    if a == 0 then None else Some(a)
  }

  /** How far the two sides may differ while a node is in a given phase.  With `clean`, only
      storable results were produced. */
  predicate Consistent(v: View, ph: Phase, clean: bool) {
    match ph
    case Idle(a) =>
      && RebuiltAfter(v, a, a) && v.liveRetry == Counter(a)
      && (a == 0 ==> v.live == Some(Pending) && v.liveResult == None)
      && (clean ==> v.liveResult == None)
      && (v.live == Some(Pending) || v.live == Some(Completed))
    case Counted(a) =>
      && a > 0 && RebuiltAfter(v, a - 1, a - 1) && v.liveRetry == Some(a) && (clean ==> v.liveResult == None)
      && (v.live == Some(Pending) || v.live == Some(Completed))
    case Announced(a) => Attempting(v, a) && (clean ==> v.liveResult == None)
    case Returned(a, x) => Attempting(v, a) && Produced(v, x) && (clean ==> Storable(x))
    case Kept(a, x) => Attempting(v, a) && Produced(v, x)
    case Traced(a, x) => Attempting(v, a) && Produced(v, x)
    case Finished =>
      && v.live == v.rebuilt == Some(Completed) && v.liveResult.Some? && v.liveResult == v.result
      && v.liveRetry.Some? && v.liveRetry == v.retry && v.completed && !v.failed
    case Raised(a) => Attempting(v, a) && (clean ==> v.liveResult == None)
    case RaisedTraced(a) => Attempting(v, a) && (clean ==> v.liveResult == None)
    case RaisedLogged(a) =>
      && a > 0 && RebuiltAfter(v, a, a) && v.liveRetry == Some(a) && (clean ==> v.liveResult == None)
      && (v.live == Some(Pending) || v.live == Some(Completed))
    case Exhausted =>
      && v.live == Some(Failed) && v.rebuilt == Some(if v.base.completed then Pending else Failed)
      && v.result == v.base.result && (clean ==> v.liveResult == None)
      && v.liveRetry.Some? && v.liveRetry == v.retry
      && v.completed == v.base.completed && (v.failed <==> v.base.failed || !v.base.completed)
    case Held =>
      && v.live == v.rebuilt == Some(AwaitingApproval) && v.liveResult == None && v.result == v.base.result
      && v.liveRetry == None && v.retry == v.base.retry
      && v.completed == v.base.completed && v.failed == v.base.failed
  }

  predicate Attempting(v: View, a: nat) {
    && a > 0 && RebuiltAfter(v, a - 1, a) && v.liveRetry == Some(a)
    && (v.live == Some(Pending) || v.live == Some(Completed))
  }

  predicate Produced(v: View, x: Json) {
    v.live == Some(Completed) && v.liveResult == Some(x)
  }

  ghost predicate OnlyStorable(w: Workflow) {
    forall t, inputs, v :: w.may(t, inputs, v) ==> Storable(v)
  }

  ghost predicate SameStatus(c: Control, live: RunStatus, rebuilt: RunStatus) {
    match c
    case AtBatch(_) => live == rebuilt == Running
    case InBatch(_, phases) =>
      rebuilt == Running && live == if Exhausted in phases.Values then RunFailed else Running
    case Paused(_, _) => live == rebuilt == WaitingForApproval
    case Broken(_, _) => live == RunFailed && rebuilt == Running
    case Refused => live == rebuilt == Running
    case Closing => live == rebuilt == Succeeded
    case Closed => live == rebuilt == Succeeded
    case NotStarted => live == rebuilt == Unknown
  }

  ghost predicate Keyed(w: Workflow, live: Live, r: Rebuilt, early: Rebuilt) {
    && live.nodeStatus.Keys == r.nodeStatus.Keys == w.tasks.Keys
    && live.results.Keys <= w.tasks.Keys && live.retries.Keys <= w.tasks.Keys
    && Inside(w, r) && Inside(w, early)
    && live.assignments == r.assignments
    && r.checkpoints == early.checkpoints + live.checkpoints
  }

  /** The rebuilt state speaks of tasks of this graph only. */
  ghost predicate Inside(w: Workflow, r: Rebuilt) {
    && r.nodeStatus.Keys <= w.tasks.Keys && r.results.Keys <= w.tasks.Keys && r.retries.Keys <= w.tasks.Keys
    && r.completed <= w.tasks.Keys && r.failed <= w.tasks.Keys && r.assignments.Keys <= w.tasks.Keys
  }

  /** Coupling of the live state and the rebuilt one at every step of every run; `early` is what the log said
      before the current start. */
  ghost predicate Coupled(w: Workflow, s: State, r: Rebuilt, early: Rebuilt) {
    && (s.grants == [] ==> r == BLANK && early == BLANK)
    && (s.grants != [] ==>
          && Keyed(w, s.live, r, early)
          && SameStatus(s.control, s.live.status, r.status)
          && forall id :: id in w.tasks ==>
               Consistent(ViewOf(s.live, r, early, id), PhaseOf(w, s.control, id), OnlyStorable(w)))
  }

  /** The acting thread keeps its own entries consistent: the steps of an attempt that succeeds ... */
  lemma SucceedingThread(
    live: Live, r: Rebuilt, early: Rebuilt, task: TaskNode, n: NodeId, ph: Phase, o: Outcome, clean: bool)
    requires ph.Idle? || ph.Counted? || ph.Announced? || ph.Returned? || ph.Kept? || ph.Traced?
    requires Consistent(ViewOf(live, r, early, n), ph, clean)
    requires clean && ph.Announced? && o.Return? ==> Storable(o.value)
    ensures Consistent(ViewOf(ThreadLive(task, live, n, ph, o), AbsorbStep(r, ThreadEvents(n, ph)), early, n),
                       NextPhase(task, ph, o), clean)
  {
    match ph {
      case Idle(_) =>
      case Counted(_) =>
      case Announced(_) =>
      case Returned(_, _) =>
      case Kept(_, _) =>
      case Traced(_, _) =>
    }
  }

  /** ... and of one that fails. */
  lemma FailingThread(
    live: Live, r: Rebuilt, early: Rebuilt, task: TaskNode, n: NodeId, ph: Phase, o: Outcome, clean: bool)
    requires ph.Raised? || ph.RaisedTraced? || ph.RaisedLogged?
    requires Consistent(ViewOf(live, r, early, n), ph, clean)
    ensures Consistent(ViewOf(ThreadLive(task, live, n, ph, o), AbsorbStep(r, ThreadEvents(n, ph)), early, n),
                       NextPhase(task, ph, o), clean)
  {
    match ph {
      case Raised(_) =>
      case RaisedTraced(a) => LoggedFailure(live, r, early, n, a, clean);
      case RaisedLogged(_) =>
    }
  }

  lemma LoggedFailure(live: Live, r: Rebuilt, early: Rebuilt, n: NodeId, a: nat, clean: bool)
    requires Consistent(ViewOf(live, r, early, n), RaisedTraced(a), clean)
    ensures Consistent(ViewOf(live, Absorb(r, TaskFailed(n, a)), early, n), RaisedLogged(a), clean)
  {
  }

  lemma ActingThread(
    live: Live, r: Rebuilt, early: Rebuilt, task: TaskNode, n: NodeId, ph: Phase, o: Outcome, clean: bool)
    requires !ph.Finished? && !ph.Exhausted? && !ph.Held?
    requires Consistent(ViewOf(live, r, early, n), ph, clean)
    requires clean && ph.Announced? && o.Return? ==> Storable(o.value)
    ensures Consistent(ViewOf(ThreadLive(task, live, n, ph, o), AbsorbStep(r, ThreadEvents(n, ph)), early, n),
                       NextPhase(task, ph, o), clean)
  {
    if ph.Raised? || ph.RaisedTraced? || ph.RaisedLogged? {
      FailingThread(live, r, early, task, n, ph, o, clean);
    } else {
      SucceedingThread(live, r, early, task, n, ph, o, clean);
    }
  }

  /** A thread step touches no other node. */
  lemma OtherThreads(
    live: Live, r: Rebuilt, early: Rebuilt, task: TaskNode, n: NodeId, ph: Phase, o: Outcome, id: NodeId)
    requires id != n
    ensures ViewOf(ThreadLive(task, live, n, ph, o), AbsorbStep(r, ThreadEvents(n, ph)), early, id)
        == ViewOf(live, r, early, id)
  {
    LiveElsewhere(live, task, n, ph, o, id);
    RebuiltElsewhere(r, n, ph, id);
  }

  lemma LiveElsewhere(live: Live, task: TaskNode, n: NodeId, ph: Phase, o: Outcome, id: NodeId)
    requires id != n
    ensures
      var after := ThreadLive(task, live, n, ph, o);
      && Get(after.nodeStatus, id) == Get(live.nodeStatus, id)
      && Get(after.results, id) == Get(live.results, id)
      && Get(after.retries, id) == Get(live.retries, id)
  {
  }

  lemma RebuiltElsewhere(r: Rebuilt, n: NodeId, ph: Phase, id: NodeId)
    requires id != n
    ensures
      var after := AbsorbStep(r, ThreadEvents(n, ph));
      && Get(after.nodeStatus, id) == Get(r.nodeStatus, id)
      && Get(after.results, id) == Get(r.results, id)
      && Get(after.retries, id) == Get(r.retries, id)
      && (id in after.completed <==> id in r.completed) && (id in after.failed <==> id in r.failed)
  {
    match ph {
      case Counted(_) =>
      case Traced(_, _) =>
      case RaisedTraced(_) =>
      case _ =>
    }
  }

  lemma ThreadKeepsStatus(r: Rebuilt, n: NodeId, ph: Phase)
    ensures AbsorbStep(r, ThreadEvents(n, ph)).status == r.status
  {
  }

  lemma KeyedThread(
    w: Workflow, live: Live, r: Rebuilt, early: Rebuilt, task: TaskNode, n: NodeId, ph: Phase, o: Outcome)
    requires Keyed(w, live, r, early) && n in w.tasks
    ensures Keyed(w, ThreadLive(task, live, n, ph, o), AbsorbStep(r, ThreadEvents(n, ph)), early)
  {
    KeyedLive(w, live, r, early, task, n, ph, o);
    KeyedRebuilt(w, ThreadLive(task, live, n, ph, o), r, early, n, ph);
  }

  lemma KeyedLive(w: Workflow, live: Live, r: Rebuilt, early: Rebuilt, task: TaskNode, n: NodeId, ph: Phase, o: Outcome)
    requires Keyed(w, live, r, early) && n in w.tasks
    ensures Keyed(w, ThreadLive(task, live, n, ph, o), r, early)
  {
  }

  lemma KeyedRebuilt(w: Workflow, live: Live, r: Rebuilt, early: Rebuilt, n: NodeId, ph: Phase)
    requires Keyed(w, live, r, early) && n in w.tasks
    ensures Keyed(w, live, AbsorbStep(r, ThreadEvents(n, ph)), early)
  {
    InsideStep(w, r, n, ph);
  }

  lemma InsideStep(w: Workflow, r: Rebuilt, n: NodeId, ph: Phase)
    requires Inside(w, r) && n in w.tasks && r.nodeStatus.Keys == w.tasks.Keys
    ensures
      var after := AbsorbStep(r, ThreadEvents(n, ph));
      && Inside(w, after) && after.nodeStatus.Keys == w.tasks.Keys
      && after.assignments == r.assignments && after.checkpoints == r.checkpoints
  {
    match ph {
      case Counted(_) =>
      case Traced(_, _) =>
      case RaisedTraced(_) =>
      case _ =>
    }
  }

  lemma StatusAfterThread(w: Workflow, s: State, n: NodeId, o: Outcome)
    requires CanAdvance(w, s, n, o)
    requires s.live.status == if Exhausted in s.control.phases.Values then RunFailed else Running
    ensures
      var next := Next(w, s, Advance(n, o));
      next.live.status == if Exhausted in next.control.phases.Values then RunFailed else Running
  {
    var next := Next(w, s, Advance(n, o));
    var before, after := s.control.phases, next.control.phases;
    if Exhausted in before.Values {
      var id :| id in before && before[id] == Exhausted;
      assert id in after && after[id] == Exhausted;
    }
    if after[n] == Exhausted {
      assert n in after && after[n] in after.Values;
    } else if Exhausted in after.Values {
      var id :| id in after && after[id] == Exhausted;
      assert id in before && before[id] == Exhausted;
    }
  }

  lemma CoupledAdvance(w: Workflow, s: State, r: Rebuilt, early: Rebuilt, n: NodeId, o: Outcome)
    requires Staged(w) && Shape(w, s) && Coupled(w, s, r, early) && Enabled(w, s, Advance(n, o))
    ensures Coupled(w, Next(w, s, Advance(n, o)), AbsorbStep(r, Emitted(w, s, Advance(n, o))), early)
  {
    if s.grants != [] {
      var next := Next(w, s, Advance(n, o));
      var task, ph := w.tasks[n], s.control.phases[n];
      KeyedThread(w, s.live, r, early, task, n, ph, o);
      StatusAfterThread(w, s, n, o);
      forall id | id in w.tasks
        ensures Consistent(ViewOf(next.live, AbsorbStep(r, ThreadEvents(n, ph)), early, id),
                           PhaseOf(w, next.control, id), OnlyStorable(w))
      {
        PhaseWhenAdvanced(w, s, n, o, id);
        if id == n {
          ActingThread(s.live, r, early, task, n, ph, o, OnlyStorable(w));
        } else {
          OtherThreads(s.live, r, early, task, n, ph, o, id);
        }
      }
      ThreadKeepsStatus(r, n, ph);
    }
  }

  lemma CoupledStart(w: Workflow, s: State, r: Rebuilt, early: Rebuilt, approved: set<NodeId>)
    requires Staged(w) && Shape(w, s) && Coupled(w, s, r, early)
    ensures Coupled(w, Next(w, s, Start(approved)), AbsorbStep(r, [WorkflowStarted(w.tasks)]), r)
  {
    StartState(w, s, approved);
    InsideAlways(w, s, r, early);
    StartedKeys(w, r, Next(w, s, Start(approved)).live);
    StartedNodes(w, s, r, approved);
  }

  lemma InsideAlways(w: Workflow, s: State, r: Rebuilt, early: Rebuilt)
    requires Coupled(w, s, r, early)
    ensures Inside(w, r)
  {
  }

  lemma StartedNodes(w: Workflow, s: State, r: Rebuilt, approved: set<NodeId>)
    requires Staged(w) && Shape(w, s)
    ensures
      var next := Next(w, s, Start(approved));
      forall id :: id in w.tasks ==>
        Consistent(ViewOf(next.live, Absorb(r, WorkflowStarted(w.tasks)), r, id), PhaseOf(w, next.control, id),
                   OnlyStorable(w))
  {
    var next := Next(w, s, Start(approved));
    StartState(w, s, approved);
    forall id | id in w.tasks
      ensures Consistent(ViewOf(next.live, Absorb(r, WorkflowStarted(w.tasks)), r, id), PhaseOf(w, next.control, id),
                         OnlyStorable(w))
    {
      PhaseMoves(w, s, Start(approved), id);
      StartedView(w, next.live, r, id, OnlyStorable(w));
    }
  }

  /** The live state with which every start begins. */
  lemma StartState(w: Workflow, s: State, approved: set<NodeId>)
    ensures
      var next := Next(w, s, Start(approved));
      var live := next.live;
      && next.grants == s.grants + [approved] && (next.control.AtBatch? || next.control.Refused?)
      && live.status == Running && live.results == map[] && live.retries == map[] && live.checkpoints == []
      && live.nodeStatus == (map id | id in w.tasks :: Pending)
      && live.assignments == map id | id in w.tasks :: w.tasks[id].agent
  {
  }

  lemma StartedView(w: Workflow, live: Live, r: Rebuilt, id: NodeId, clean: bool)
    requires id in w.tasks && Get(live.nodeStatus, id) == Some(Pending) && id !in live.results && id !in live.retries
    ensures Consistent(ViewOf(live, Absorb(r, WorkflowStarted(w.tasks)), r, id), Idle(0), clean)
  {
  }

  lemma StartedKeys(w: Workflow, r: Rebuilt, live: Live)
    requires Inside(w, r) && live.results == map[] && live.retries == map[] && live.checkpoints == []
    requires live.nodeStatus.Keys == w.tasks.Keys && live.assignments == map id | id in w.tasks :: w.tasks[id].agent
    ensures Keyed(w, live, Absorb(r, WorkflowStarted(w.tasks)), r)
  {
    var r' := Absorb(r, WorkflowStarted(w.tasks));
    SameAssignments(r.assignments, live.assignments);
    assert r'.nodeStatus.Keys == w.tasks.Keys;
    assert r.checkpoints + [] == r.checkpoints;
  }

  lemma SameAssignments(early: map<NodeId, string>, live: map<NodeId, string>)
    requires early.Keys <= live.Keys
    ensures early + live == live
  {
  }

  /** Holding a node that nobody touched marks it on both sides alike. */
  lemma HeldView(live: Live, r: Rebuilt, early: Rebuilt, held: set<NodeId>, id: NodeId, clean: bool)
    requires id in held ==> Consistent(ViewOf(live, r, early, id), Idle(0), clean)
    ensures
      var nodeStatus := live.nodeStatus + map n | n in held :: AwaitingApproval;
      var live' := live.(nodeStatus := nodeStatus, status := WaitingForApproval);
      var r' := Absorb(r, ApprovalRequested(held));
      if id in held then Consistent(ViewOf(live', r', early, id), Held, clean)
      else ViewOf(live', r', early, id) == ViewOf(live, r, early, id)
  {
  }

  lemma OpenedNode(w: Workflow, s: State, r: Rebuilt, early: Rebuilt, id: NodeId)
    requires Staged(w) && Shape(w, s) && Enabled(w, s, OpenBatch) && id in w.tasks
    requires Consistent(ViewOf(s.live, r, early, id), PhaseOf(w, s.control, id), OnlyStorable(w))
    ensures
      var next, r' := Next(w, s, OpenBatch), AbsorbStep(r, Emitted(w, s, OpenBatch));
      Consistent(ViewOf(next.live, r', early, id), PhaseOf(w, next.control, id), OnlyStorable(w))
  {
    var held := Unapproved(w, s);
    PhaseWhenOpened(w, s, id);
    if held != {} {
      if id in held {
        assert StagedAt(w, s.control.batch, id);
      }
      HeldView(s.live, r, early, held, id, OnlyStorable(w));
    }
  }

  lemma CoupledOpen(w: Workflow, s: State, r: Rebuilt, early: Rebuilt)
    requires Staged(w) && Shape(w, s) && Coupled(w, s, r, early) && Enabled(w, s, OpenBatch)
    ensures Coupled(w, Next(w, s, OpenBatch), AbsorbStep(r, Emitted(w, s, OpenBatch)), early)
  {
    if s.grants != [] {
      var next, r' := Next(w, s, OpenBatch), AbsorbStep(r, Emitted(w, s, OpenBatch));
      forall id | id in w.tasks
        ensures Consistent(ViewOf(next.live, r', early, id), PhaseOf(w, next.control, id), OnlyStorable(w))
      {
        OpenedNode(w, s, r, early, id);
      }
      OpenStatus(w, s, r, early);
    }
  }

  lemma OpenStatus(w: Workflow, s: State, r: Rebuilt, early: Rebuilt)
    requires Enabled(w, s, OpenBatch) && Keyed(w, s.live, r, early) && SameStatus(s.control, s.live.status, r.status)
    ensures
      var next, r' := Next(w, s, OpenBatch), AbsorbStep(r, Emitted(w, s, OpenBatch));
      Keyed(w, next.live, r', early) && SameStatus(next.control, next.live.status, r'.status)
  {
    var next := Next(w, s, OpenBatch);
    if Unapproved(w, s) == {} {
      forall ph | ph in next.control.phases.Values ensures ph == Idle(0) {
      }
    }
  }

  lemma BookkeepingView(w: Workflow, s: State, r: Rebuilt, early: Rebuilt, a: Action, id: NodeId)
    requires Enabled(w, s, a)
    requires a.SaveCheckpoint? || a.GiveUp? || a.ReportCompletion? || a.Close?
    ensures ViewOf(Next(w, s, a).live, AbsorbStep(r, Emitted(w, s, a)), early, id) == ViewOf(s.live, r, early, id)
  {
    match a {
      case SaveCheckpoint =>
      case GiveUp =>
      case ReportCompletion =>
      case Close =>
    }
  }

  lemma BookkeepingStatus(w: Workflow, s: State, r: Rebuilt, early: Rebuilt, a: Action)
    requires Enabled(w, s, a) && Keyed(w, s.live, r, early) && SameStatus(s.control, s.live.status, r.status)
    requires a.SaveCheckpoint? || a.GiveUp? || a.ReportCompletion? || a.Close?
    ensures
      var next, r' := Next(w, s, a), AbsorbStep(r, Emitted(w, s, a));
      Keyed(w, next.live, r', early) && SameStatus(next.control, next.live.status, r'.status)
  {
    match a {
      case SaveCheckpoint =>
        assert Exhausted !in s.control.phases.Values;
        OneMoreCheckpoint(early.checkpoints, s.live.checkpoints, |s.live.checkpoints| + 1);
      case GiveUp =>
        var id :| id in s.control.phases && s.control.phases[id] == Exhausted;
        assert s.control.phases[id] in s.control.phases.Values;
      case ReportCompletion =>
      case Close =>
    }
  }

  lemma OneMoreCheckpoint(early: seq<nat>, live: seq<nat>, number: nat)
    ensures (early + live) + [number] == early + (live + [number])
  {
  }

  lemma CoupledBookkeeping(w: Workflow, s: State, r: Rebuilt, early: Rebuilt, a: Action)
    requires Staged(w) && Shape(w, s) && Coupled(w, s, r, early) && Enabled(w, s, a)
    requires a.SaveCheckpoint? || a.GiveUp? || a.ReportCompletion? || a.Close?
    ensures Coupled(w, Next(w, s, a), AbsorbStep(r, Emitted(w, s, a)), early)
  {
    if s.grants != [] {
      var next, r' := Next(w, s, a), AbsorbStep(r, Emitted(w, s, a));
      forall id | id in w.tasks
        ensures Consistent(ViewOf(next.live, r', early, id), PhaseOf(w, next.control, id), OnlyStorable(w))
      {
        PhaseMoves(w, s, a, id);
        BookkeepingView(w, s, r, early, a, id);
      }
      BookkeepingStatus(w, s, r, early, a);
    }
  }

  /** What the log rebuilds to right before the current start. */
  ghost function BeforeStart(w: Workflow, actions: seq<Action>): Rebuilt
    requires Exec(w, actions).Some?
  {
    if actions == [] then
      BLANK
    else
      var before := actions[..|actions| - 1];
      if actions[|actions| - 1].Start? then Rebuild(Exec(w, before).value.log) else BeforeStart(w, before)
  }

  lemma {:induction false} CoupledAlways(w: Workflow, actions: seq<Action>)
    requires Staged(w) && Exec(w, actions).Some?
    ensures Shape(w, Exec(w, actions).value)
    ensures Coupled(w, Exec(w, actions).value, Rebuild(Exec(w, actions).value.log), BeforeStart(w, actions))
  {
    if actions != [] {
      CoupledAlways(w, actions[..|actions| - 1]);
      var s, a := Exec(w, actions[..|actions| - 1]).value, actions[|actions| - 1];
      ShapeKept(w, s, a);
      RebuildStep(w, s, a);
      CoupledStep(w, s, Rebuild(s.log), BeforeStart(w, actions[..|actions| - 1]), a);
    }
  }

  lemma CoupledStep(w: Workflow, s: State, r: Rebuilt, early: Rebuilt, a: Action)
    requires Staged(w) && Shape(w, s) && Coupled(w, s, r, early) && Enabled(w, s, a)
    ensures Coupled(w, Next(w, s, a), AbsorbStep(r, Emitted(w, s, a)), if a.Start? then r else early)
  {
    match a {
      case Start(approved) => CoupledStart(w, s, r, early, approved);
      case OpenBatch => CoupledOpen(w, s, r, early);
      case Advance(n, o) => CoupledAdvance(w, s, r, early, n, o);
      case _ => CoupledBookkeeping(w, s, r, early, a);
    }
  }

  /** The first start finds nothing in the log. */
  lemma {:induction false} FirstStartIsBlank(w: Workflow, actions: seq<Action>)
    requires Staged(w) && Exec(w, actions).Some? && |Exec(w, actions).value.grants| <= 1
    ensures BeforeStart(w, actions) == BLANK
  {
    if actions != [] {
      var before := actions[..|actions| - 1];
      FirstStartIsBlank(w, before);
      if actions[|actions| - 1].Start? {
        NothingBeforeTheFirstStart(w, before);
      }
    }
  }

  lemma {:induction false} NothingBeforeTheFirstStart(w: Workflow, actions: seq<Action>)
    requires Exec(w, actions).Some? && Exec(w, actions).value.grants == []
    ensures Exec(w, actions).value.log == []
  {
    ShapeAlways(w, actions);
    if actions != [] {
      NothingBeforeTheFirstStart(w, actions[..|actions| - 1]);
      ShapeAlways(w, actions[..|actions| - 1]);
    }
  }

  // ---------------------------------------------------------------- agreement at batch boundaries

  ghost predicate Boundary(c: Control) {
    !c.NotStarted? && !c.InBatch?
  }

  /** Results of nodes that did not fail. */
  function StandingResults(live: Live): map<NodeId, Json> {
    map id | id in live.results && id in live.nodeStatus && live.nodeStatus[id] != Failed :: live.results[id]
  }

  /** Agreement of a run with one start. */
  ghost predicate Agree(live: Live, r: Rebuilt) {
    && r.nodeStatus == live.nodeStatus
    && r.retries == live.retries
    && r.assignments == live.assignments
    && r.checkpoints == live.checkpoints
    && r.results == StandingResults(live)
    && r.completed == With(live, Completed)
    && r.FailedIds() == With(live, Failed)
    && r.PendingIds() == With(live, Pending) + With(live, AwaitingApproval)
    && r.FinalStatus() == if live.status == RunFailed then Running else live.status
  }

  ghost function With(live: Live, status: NodeStatus): set<NodeId> {
    set id | id in live.nodeStatus && live.nodeStatus[id] == status
  }

  /** Node status as rebuilt: a failure of a task that completed in an earlier start is not recorded. */
  ghost function StatusSince(live: Live, early: Rebuilt): map<NodeId, NodeStatus> {
    map id | id in live.nodeStatus ::
      if live.nodeStatus[id] == Failed && id in early.completed then Pending else live.nodeStatus[id]
  }

  function CompletedResults(live: Live): map<NodeId, Json> {
    map id | id in live.results && id in live.nodeStatus && live.nodeStatus[id] == Completed :: live.results[id]
  }

  /** Agreement of a run with any number of starts: what this start did lies over what the log said before it. */
  ghost predicate AgreeSince(live: Live, r: Rebuilt, early: Rebuilt) {
    && r.nodeStatus == StatusSince(live, early)
    && r.retries == early.retries + live.retries
    && r.assignments == live.assignments
    && r.checkpoints == early.checkpoints + live.checkpoints
    && r.results == early.results + CompletedResults(live)
    && r.completed == early.completed + With(live, Completed)
    && r.failed == (early.failed - With(live, Completed)) + (With(live, Failed) - early.completed)
    && r.FinalStatus() == if live.status == RunFailed then Running else live.status
  }

  /** Nothing is left to reconcile between the two sides of this node. */
  predicate Reconciled(v: View) {
    && v.live.Some?
    && v.rebuilt == (if v.live == Some(Failed) && v.base.completed then Some(Pending) else v.live)
    && v.retry == (if v.liveRetry.Some? then v.liveRetry else v.base.retry)
    && v.result == (if v.live == Some(Completed) then v.liveResult else v.base.result)
    && (v.live == Some(Completed) ==> v.liveResult.Some?)
    && (v.live != Some(Completed) && v.live != Some(Failed) ==> v.liveResult == None)
    && (v.completed <==> v.base.completed || v.live == Some(Completed))
    && (v.failed <==> v.live != Some(Completed) && (v.base.failed || (v.live == Some(Failed) && !v.base.completed)))
  }

  lemma BoundaryPhase(w: Workflow, s: State, id: NodeId)
    requires Boundary(s.control)
    requires s.control.Broken? ==> forall n :: n in s.control.phases ==> Settled(s.control.phases[n])
    ensures Settled(PhaseOf(w, s.control, id)) || PhaseOf(w, s.control, id).Held?
  {
  }

  lemma SettledView(v: View, ph: Phase, clean: bool)
    requires Consistent(v, ph, clean) && (Settled(ph) || ph.Held?)
    ensures Reconciled(v) && (clean && v.live == Some(Failed) ==> v.liveResult == None)
  {
  }

  lemma {:induction false} BrokenIsSettled(w: Workflow, actions: seq<Action>)
    requires Exec(w, actions).Some? && Exec(w, actions).value.control.Broken?
    ensures
      var c := Exec(w, actions).value.control;
      forall n :: n in c.phases ==> Settled(c.phases[n])
  {
  }

  lemma SameMaps<T>(a: map<NodeId, T>, b: map<NodeId, T>, keys: set<NodeId>)
    requires a.Keys <= keys && b.Keys <= keys
    requires forall id :: id in keys ==> Get(a, id) == Get(b, id)
    ensures a == b
  {
    forall id | id in keys ensures id in a <==> id in b {
      assert Get(a, id) == Get(b, id);
    }
    forall id | id in a ensures a[id] == b[id] {
      assert Get(a, id) == Get(b, id);
    }
  }

  /** The two sides of every task are reconciled. */
  ghost predicate AllReconciled(w: Workflow, live: Live, r: Rebuilt, early: Rebuilt) {
    forall id :: id in w.tasks ==> Reconciled(ViewOf(live, r, early, id))
  }

  lemma ReconciledMaps(w: Workflow, live: Live, r: Rebuilt, early: Rebuilt)
    requires Keyed(w, live, r, early) && AllReconciled(w, live, r, early)
    ensures r.nodeStatus == StatusSince(live, early)
    ensures r.retries == early.retries + live.retries
    ensures r.results == early.results + CompletedResults(live)
  {
    forall id | id in w.tasks
      ensures Get(r.nodeStatus, id) == Get(StatusSince(live, early), id)
      ensures Get(r.retries, id) == Get(early.retries + live.retries, id)
      ensures Get(r.results, id) == Get(early.results + CompletedResults(live), id)
    {
      assert Reconciled(ViewOf(live, r, early, id));
      ReconciledEntries(live, r, early, id);
    }
    SameMaps(r.nodeStatus, StatusSince(live, early), w.tasks.Keys);
    SameMaps(r.retries, early.retries + live.retries, w.tasks.Keys);
    SameMaps(r.results, early.results + CompletedResults(live), w.tasks.Keys);
  }

  lemma ReconciledEntries(live: Live, r: Rebuilt, early: Rebuilt, id: NodeId)
    requires Reconciled(ViewOf(live, r, early, id))
    ensures Get(r.nodeStatus, id) == Get(StatusSince(live, early), id)
    ensures Get(r.retries, id) == Get(early.retries + live.retries, id)
    ensures Get(r.results, id) == Get(early.results + CompletedResults(live), id)
  {
  }

  lemma ReconciledSets(w: Workflow, live: Live, r: Rebuilt, early: Rebuilt)
    requires Keyed(w, live, r, early) && AllReconciled(w, live, r, early)
    ensures r.completed == early.completed + With(live, Completed)
    ensures r.failed == (early.failed - With(live, Completed)) + (With(live, Failed) - early.completed)
  {
    forall id | id in w.tasks
      ensures id in r.completed <==> id in early.completed + With(live, Completed)
      ensures id in r.failed <==> id in (early.failed - With(live, Completed)) + (With(live, Failed) - early.completed)
    {
      assert Reconciled(ViewOf(live, r, early, id));
    }
  }

  lemma BoundaryReconciled(w: Workflow, s: State, r: Rebuilt, early: Rebuilt)
    requires Boundary(s.control) && s.grants != [] && Coupled(w, s, r, early)
    requires s.control.Broken? ==> forall n :: n in s.control.phases ==> Settled(s.control.phases[n])
    ensures AllReconciled(w, s.live, r, early)
    ensures OnlyStorable(w) ==> forall id :: id in s.live.results ==> Get(s.live.nodeStatus, id) == Some(Completed)
    ensures r.FinalStatus() == if s.live.status == RunFailed then Running else s.live.status
  {
    forall id | id in w.tasks
      ensures Reconciled(ViewOf(s.live, r, early, id))
      ensures OnlyStorable(w) && Get(s.live.nodeStatus, id) == Some(Failed) ==> id !in s.live.results
    {
      BoundaryPhase(w, s, id);
      SettledView(ViewOf(s.live, r, early, id), PhaseOf(w, s.control, id), OnlyStorable(w));
    }
    forall id | id in s.live.results && OnlyStorable(w) ensures Get(s.live.nodeStatus, id) == Some(Completed) {
      assert Reconciled(ViewOf(s.live, r, early, id));
    }
  }

  /** At every batch boundary of every run, after any number of starts, the log rebuilds the live state of the
      current start laid over what it rebuilt to before that start. */
  lemma RebuiltAgreesSinceStart(w: Workflow, actions: seq<Action>)
    requires Staged(w) && Exec(w, actions).Some? && Boundary(Exec(w, actions).value.control)
    ensures
      var s := Exec(w, actions).value;
      AgreeSince(s.live, Rebuild(s.log), BeforeStart(w, actions))
    ensures
      var s, early := Exec(w, actions).value, BeforeStart(w, actions);
      && AllReconciled(w, s.live, Rebuild(s.log), early)
      && (OnlyStorable(w) ==> CompletedResults(s.live) == s.live.results)
  {
    var s := Exec(w, actions).value;
    CoupledAlways(w, actions);
    if s.control.Broken? {
      BrokenIsSettled(w, actions);
    }
    CoupledAgrees(w, s, Rebuild(s.log), BeforeStart(w, actions));
  }

  lemma CoupledAgrees(w: Workflow, s: State, r: Rebuilt, early: Rebuilt)
    requires Boundary(s.control) && s.grants != [] && Coupled(w, s, r, early)
    requires s.control.Broken? ==> forall n :: n in s.control.phases ==> Settled(s.control.phases[n])
    ensures AgreeSince(s.live, r, early) && AllReconciled(w, s.live, r, early)
    ensures OnlyStorable(w) ==> CompletedResults(s.live) == s.live.results
  {
    BoundaryReconciled(w, s, r, early);
    ReconciledMaps(w, s.live, r, early);
    ReconciledSets(w, s.live, r, early);
  }

  lemma AgreeOnBlank(w: Workflow, live: Live, r: Rebuilt)
    requires AgreeSince(live, r, BLANK) && AllReconciled(w, live, r, BLANK)
    requires live.results.Keys <= live.nodeStatus.Keys == w.tasks.Keys
    ensures Agree(live, r)
  {
    assert StatusSince(live, BLANK) == live.nodeStatus;
    assert BLANK.retries + live.retries == live.retries && [] + live.checkpoints == live.checkpoints;
    StandingAreCompleted(w, live, r);
    assert BLANK.results + CompletedResults(live) == CompletedResults(live);
    SetsOnBlank(live, r);
  }

  lemma StandingAreCompleted(w: Workflow, live: Live, r: Rebuilt)
    requires AllReconciled(w, live, r, BLANK) && live.results.Keys <= live.nodeStatus.Keys == w.tasks.Keys
    ensures CompletedResults(live) == StandingResults(live)
  {
    forall id | id in live.results ensures live.nodeStatus[id] == Completed || live.nodeStatus[id] == Failed {
      assert Reconciled(ViewOf(live, r, BLANK, id));
    }
  }

  lemma SetsOnBlank(live: Live, r: Rebuilt)
    requires r.nodeStatus.Keys == live.nodeStatus.Keys
    requires r.completed == BLANK.completed + With(live, Completed)
    requires r.failed == (BLANK.failed - With(live, Completed)) + (With(live, Failed) - BLANK.completed)
    ensures r.completed == With(live, Completed) && r.FailedIds() == With(live, Failed)
    ensures r.PendingIds() == With(live, Pending) + With(live, AwaitingApproval)
  {
    assert r.failed == With(live, Failed);
    forall id | id in live.nodeStatus
      ensures id in r.PendingIds() <==> live.nodeStatus[id] == Pending || live.nodeStatus[id] == AwaitingApproval
    {
    }
  }

  /** With one start that is: same node status, retry counters, assignments, checkpoints and results, up to
      results that failed nodes leave behind. */
  lemma RebuiltAgreesWithLive(w: Workflow, actions: seq<Action>)
    requires Staged(w) && Exec(w, actions).Some?
    ensures
      var s := Exec(w, actions).value;
      Boundary(s.control) && |s.grants| == 1 ==>
        && Agree(s.live, Rebuild(s.log))
        && (OnlyStorable(w) ==> Rebuild(s.log).results == s.live.results)
  {
    var s := Exec(w, actions).value;
    if Boundary(s.control) && |s.grants| == 1 {
      RebuiltAgreesSinceStart(w, actions);
      FirstStartIsBlank(w, actions);
      CoupledAlways(w, actions);
      AgreeOnBlank(w, s.live, Rebuild(s.log));
    }
  }

  /** Right after every start, whatever came before, the run is rebuilt as running with every task pending
      and assigned to its agent. */
  lemma EveryStartBeginsAfresh(w: Workflow, actions: seq<Action>)
    requires Exec(w, actions).Some? && actions != [] && actions[|actions| - 1].Start?
    ensures
      var r := Rebuild(Exec(w, actions).value.log);
      r.status == Running && forall id :: id in w.tasks ==>
        Get(r.nodeStatus, id) == Some(Pending) && Get(r.assignments, id) == Some(w.tasks[id].agent)
    ensures
      var live := Exec(w, actions).value.live;
      && live.status == Running && live.results == map[] && live.retries == map[] && live.checkpoints == []
      && live.nodeStatus.Keys == live.assignments.Keys == w.tasks.Keys
      && forall id :: id in w.tasks ==> live.nodeStatus[id] == Pending && live.assignments[id] == w.tasks[id].agent
  {
    var s, approved := Exec(w, actions[..|actions| - 1]).value, actions[|actions| - 1].approved;
    StartState(w, s, approved);
    RebuildStep(w, s, Start(approved));
  }
}
