/** What the event log guarantees at every crash point, over any number of restarts. */
module CrashSafety {
  import opened Digraphs
  import opened TaskGraphs
  import opened Scheduling
  import opened WorkflowRuns
  import opened Recovery

  // ---------------------------------------------------------------- completed tasks

  /** Completed tasks have their result on record, and so do all their dependencies. */
  ghost predicate ClosedCompleted(w: Workflow, r: Rebuilt) {
    forall n :: n in r.completed ==>
      n in w.tasks && n in r.results && Elements(w.tasks[n].dependencies) <= r.completed
  }

  ghost predicate Recorded(w: Workflow, s: State, r: Rebuilt) {
    && ClosedCompleted(w, r)
    && forall n :: n in w.tasks && PhaseOf(w, s.control, n).Finished? ==> n in r.completed
  }

  lemma DependenciesFinished(w: Workflow, s: State, n: NodeId)
    requires Staged(w) && Shape(w, s) && s.control.InBatch? && n in s.control.phases
    ensures n in w.tasks
    ensures forall d :: d in w.tasks[n].dependencies ==> d in w.tasks && PhaseOf(w, s.control, d).Finished?
  {
    var b, k := w.plan.value, s.control.batch;
    assert n in b[k];
    assert StagedAt(w, k, n);
    BeforeMonotone(b, k, |b|);
    forall d | d in w.tasks[n].dependencies ensures d in w.tasks && PhaseOf(w, s.control, d).Finished? {
      assert d in Elements(w.tasks[n].dependencies);
    }
  }

  lemma {:induction false} BeforeMonotone(layers: seq<seq<NodeId>>, j: nat, k: nat)
    requires j <= k <= |layers|
    ensures Before(layers, j) <= Before(layers, k)
    decreases k
  {
    if j < k {
      BeforeMonotone(layers, j, k - 1);
    }
  }

  /** Only the last step of a successful attempt adds to the completed set. */
  lemma CompletionStep(w: Workflow, s: State, r: Rebuilt, a: Action)
    requires Enabled(w, s, a)
    ensures
      var r' := AbsorbStep(r, Emitted(w, s, a));
      if a.Advance? && s.control.phases[a.node].Traced? then
        r'.completed == r.completed + {a.node} && r'.results.Keys == r.results.Keys + {a.node}
      else
        r'.completed == r.completed && r'.results == r.results
  {
    match a {
      case Advance(n, _) =>
        match s.control.phases[n] {
          case Traced(_, _) =>
          case RaisedTraced(_) =>
          case _ =>
        }
      case _ =>
    }
  }

  lemma RecordedStep(w: Workflow, s: State, r: Rebuilt, a: Action)
    requires Staged(w) && Shape(w, s) && Enabled(w, s, a) && Recorded(w, s, r)
    ensures Recorded(w, Next(w, s, a), AbsorbStep(r, Emitted(w, s, a)))
  {
    var c', r' := Next(w, s, a).control, AbsorbStep(r, Emitted(w, s, a));
    CompletionStep(w, s, r, a);
    if a.Advance? && s.control.phases[a.node].Traced? {
      DependenciesFinished(w, s, a.node);
    }
    forall n | n in w.tasks && PhaseOf(w, c', n).Finished? ensures n in r'.completed {
      FinishStep(w, s, a, n);
    }
  }

  lemma FinishStep(w: Workflow, s: State, a: Action, n: NodeId)
    requires Staged(w) && Shape(w, s) && Enabled(w, s, a) && n in w.tasks
    requires PhaseOf(w, Next(w, s, a).control, n).Finished?
    ensures PhaseOf(w, s.control, n).Finished? || (a.Advance? && a.node == n && s.control.phases[n].Traced?)
  {
    PhaseMoves(w, s, a, n);
  }

  lemma {:induction false} RecordedAlways(w: Workflow, actions: seq<Action>)
    requires Staged(w) && Exec(w, actions).Some?
    ensures Recorded(w, Exec(w, actions).value, Rebuild(Exec(w, actions).value.log))
  {
    if actions != [] {
      var s, a := Exec(w, actions[..|actions| - 1]).value, actions[|actions| - 1];
      ShapeAlways(w, actions[..|actions| - 1]);
      RecordedAlways(w, actions[..|actions| - 1]);
      RecordedStep(w, s, Rebuild(s.log), a);
      RebuildStep(w, s, a);
    }
  }

  lemma LogGrowsByAtMostOne(w: Workflow, s: State, a: Action)
    requires Enabled(w, s, a)
    ensures s.log <= Next(w, s, a).log && |Next(w, s, a).log| <= |s.log| + 1
  {
    assert Next(w, s, a).log == s.log + Emitted(w, s, a);
    assert |Emitted(w, s, a)| <= 1;
  }

  /** At every crash point, that is after every prefix of the log of every run with any
      number of restarts, the completed set is closed under dependencies and every
      completed task has its result. */
  lemma {:induction false} CompletedSetIsClosed(w: Workflow, actions: seq<Action>, crash: nat)
    requires Staged(w) && Exec(w, actions).Some? && crash <= |Exec(w, actions).value.log|
    ensures ClosedCompleted(w, Rebuild(Exec(w, actions).value.log[..crash]))
    decreases |actions|
  {
    var log := Exec(w, actions).value.log;
    if crash == |log| {
      assert log[..crash] == log;
      RecordedAlways(w, actions);
    } else {
      var s := Exec(w, actions[..|actions| - 1]).value;
      LogGrowsByAtMostOne(w, s, actions[|actions| - 1]);
      CompletedSetIsClosed(w, actions[..|actions| - 1], crash);
      assert log[..crash] == s.log[..crash];
    }
  }

  // ---------------------------------------------------------------- human approval

  ghost function TaskEdges(w: Workflow): Edges {
    map id | id in w.tasks :: Elements(w.tasks[id].dependencies)
  }

  /** Every task on which `n` rests, itself included, has the approval it needs. */
  ghost predicate Cleared(w: Workflow, n: NodeId, granted: set<NodeId>) {
    forall p :: Walk(TaskEdges(w), p) && p[0] == n && w.tasks[p[|p| - 1]].requiresApproval ==> p[|p| - 1] in granted
  }

  lemma ClearedFromDependencies(w: Workflow, n: NodeId, granted: set<NodeId>)
    requires n in w.tasks && (w.tasks[n].requiresApproval ==> n in granted)
    requires forall d :: d in w.tasks[n].dependencies ==> Cleared(w, d, granted)
    ensures Cleared(w, n, granted)
  {
    var edges := TaskEdges(w);
    forall p | Walk(edges, p) && p[0] == n && w.tasks[p[|p| - 1]].requiresApproval
      ensures p[|p| - 1] in granted
    {
      if |p| > 1 {
        Subwalk(edges, p, 1, |p|);
        var tail := p[1..];
        assert tail[0] == p[1] && p[1] in edges[n];
        assert Cleared(w, p[1], granted);
        assert tail[|tail| - 1] == p[|p| - 1];
      }
    }
  }

  /** How many runs the log has seen. */
  function StartCount(log: seq<Event>): nat {
    if log == [] then 0 else StartCount(log[..|log| - 1]) + if log[|log| - 1].WorkflowStarted? then 1 else 0
  }

  /** Every started task was cleared by the approvals given to the very run that started it. */
  ghost predicate StartsCleared(w: Workflow, log: seq<Event>, grants: seq<set<NodeId>>) {
    forall i :: 0 <= i < |log| && log[i].TaskStarted? ==> ClearedStart(w, log[i].node, StartCount(log[..i]), grants)
  }

  /** The approvals given to run number `run` clear node `n`. */
  ghost predicate ClearedStart(w: Workflow, n: NodeId, run: nat, grants: seq<set<NodeId>>) {
    0 < run <= |grants| && Cleared(w, n, grants[run - 1])
  }

  /** First batch the current run has not yet been allowed to enter. */
  function Opened(c: Control): nat {
    match c
    case AtBatch(k) => k
    case Paused(k, _) => k
    case InBatch(k, _) => k + 1
    case Broken(k, _) => k + 1
    case _ => 0
  }

  ghost predicate Guarded(w: Workflow, s: State) {
    && StartCount(s.log) == |s.grants|
    && StartsCleared(w, s.log, s.grants)
    && OpenedCleared(w, Opened(s.control), s.grants)
  }

  ghost predicate OpenedCleared(w: Workflow, entered: nat, grants: seq<set<NodeId>>) {
    grants != [] ==> BatchesCleared(w, entered, grants[|grants| - 1])
  }

  ghost predicate BatchesCleared(w: Workflow, k: nat, granted: set<NodeId>) {
    w.plan.Ok? && k <= |w.plan.value| ==>
      forall n :: n in Before(w.plan.value, k) ==> Cleared(w, n, granted)
  }

  lemma BatchCleared(w: Workflow, s: State)
    requires Staged(w) && Shape(w, s) && Guarded(w, s) && Enabled(w, s, OpenBatch) && Unapproved(w, s) == {}
    ensures BatchesCleared(w, s.control.batch + 1, s.grants[|s.grants| - 1])
  {
    var k, granted := s.control.batch, s.grants[|s.grants| - 1];
    forall n | n in w.plan.value[k] ensures Cleared(w, n, granted) {
      assert StagedAt(w, k, n);
      assert n !in Unapproved(w, s);
      forall d | d in w.tasks[n].dependencies ensures Cleared(w, d, granted) {
        assert d in Elements(w.tasks[n].dependencies);
      }
      ClearedFromDependencies(w, n, granted);
    }
  }

  lemma StartsClearedAppend(w: Workflow, log: seq<Event>, grants: seq<set<NodeId>>, e: Event, grants': seq<set<NodeId>>)
    requires StartsCleared(w, log, grants) && grants <= grants'
    requires e.TaskStarted? ==> ClearedStart(w, e.node, StartCount(log), grants')
    ensures StartsCleared(w, log + [e], grants')
  {
    var log' := log + [e];
    forall i | 0 <= i < |log'| && log'[i].TaskStarted?
      ensures ClearedStart(w, log'[i].node, StartCount(log'[..i]), grants')
    {
      PrefixOfAppend(log, e, i);
    }
  }

  lemma PrefixOfAppend(log: seq<Event>, e: Event, i: nat)
    requires i <= |log|
    ensures (log + [e])[..i] == log[..i]
    ensures i < |log| ==> (log + [e])[i] == log[i]
    ensures i == |log| ==> log[..i] == log && (log + [e])[i] == e
  {
  }

  lemma StartCountAppend(log: seq<Event>, e: Event)
    ensures StartCount(log + [e]) == StartCount(log) + if e.WorkflowStarted? then 1 else 0
  {
    assert (log + [e])[..|log + [e]| - 1] == log;
  }

  lemma GuardedLog(w: Workflow, s: State, a: Action)
    requires Staged(w) && Shape(w, s) && Guarded(w, s) && Enabled(w, s, a)
    ensures StartsCleared(w, Next(w, s, a).log, Next(w, s, a).grants)
    ensures StartCount(Next(w, s, a).log) == |Next(w, s, a).grants|
  {
    var es, grants' := Emitted(w, s, a), Next(w, s, a).grants;
    assert Next(w, s, a).log == s.log + es;
    if es == [] {
      assert s.log + es == s.log;
    } else {
      StartEvent(w, s, a);
      StartCountAppend(s.log, es[0]);
      StartsClearedAppend(w, s.log, s.grants, es[0], grants');
      assert s.log + es == s.log + [es[0]];
    }
  }

  /** What the emitted event says about starts. */
  lemma StartEvent(w: Workflow, s: State, a: Action)
    requires Staged(w) && Shape(w, s) && Guarded(w, s) && Enabled(w, s, a) && Emitted(w, s, a) != []
    ensures |Emitted(w, s, a)| == 1
    ensures Emitted(w, s, a)[0].WorkflowStarted? <==> a.Start?
    ensures Emitted(w, s, a)[0].TaskStarted? ==>
              s.grants != [] && Cleared(w, Emitted(w, s, a)[0].node, s.grants[|s.grants| - 1])
  {
    EventSource(w, s, a);
    if Emitted(w, s, a)[0].TaskStarted? {
      RunningNodeCleared(w, s, a.node);
    }
  }

  lemma EventSource(w: Workflow, s: State, a: Action)
    requires Enabled(w, s, a) && Emitted(w, s, a) != []
    ensures |Emitted(w, s, a)| == 1
    ensures Emitted(w, s, a)[0].WorkflowStarted? <==> a.Start?
    ensures Emitted(w, s, a)[0].TaskStarted? ==> a.Advance? && a.node == Emitted(w, s, a)[0].node
  {
  }

  lemma RunningNodeCleared(w: Workflow, s: State, n: NodeId)
    requires Shape(w, s) && s.control.InBatch? && n in s.control.phases
    requires OpenedCleared(w, Opened(s.control), s.grants)
    ensures s.grants != [] && Cleared(w, n, s.grants[|s.grants| - 1])
  {
    assert n in Elements(w.plan.value[s.control.batch]);
    assert n in Before(w.plan.value, s.control.batch + 1);
  }

  /** Only opening a batch lets the run further in. */
  lemma OpenedStep(w: Workflow, s: State, a: Action)
    requires Enabled(w, s, a)
    ensures
      var next := Next(w, s, a);
      || Opened(next.control) == 0
      || (next.grants == s.grants && Opened(next.control) == Opened(s.control))
      || (a.OpenBatch? && Unapproved(w, s) == {} && next.grants == s.grants
        && Opened(next.control) == s.control.batch + 1)
  {
  }

  lemma GuardedOpened(w: Workflow, s: State, a: Action)
    requires Staged(w) && Shape(w, s) && Guarded(w, s) && Enabled(w, s, a)
    ensures OpenedCleared(w, Opened(Next(w, s, a).control), Next(w, s, a).grants)
  {
    var entered, grants := Opened(Next(w, s, a).control), Next(w, s, a).grants;
    OpenedStep(w, s, a);
    if entered == 0 {
      NothingOpened(w, grants);
    } else if entered != Opened(s.control) {
      assert entered == s.control.batch + 1 && grants == s.grants;
      BatchCleared(w, s);
    } else {
      assert grants == s.grants;
    }
  }

  lemma NothingOpened(w: Workflow, grants: seq<set<NodeId>>)
    ensures OpenedCleared(w, 0, grants)
  {
  }

  lemma GuardedStep(w: Workflow, s: State, a: Action)
    requires Staged(w) && Shape(w, s) && Guarded(w, s) && Enabled(w, s, a)
    ensures Guarded(w, Next(w, s, a))
  {
    GuardedLog(w, s, a);
    GuardedOpened(w, s, a);
  }

  /** In every run with any number of restarts: no task that needs approval, and no task
      that depends on one, has started unless the run that started it was given that approval. */
  lemma {:induction false} NothingStartsUnapproved(w: Workflow, actions: seq<Action>)
    requires Staged(w) && Exec(w, actions).Some?
    ensures StartsCleared(w, Exec(w, actions).value.log, Exec(w, actions).value.grants)
    ensures Guarded(w, Exec(w, actions).value)
  {
    if actions != [] {
      NothingStartsUnapproved(w, actions[..|actions| - 1]);
      ShapeAlways(w, actions[..|actions| - 1]);
      GuardedStep(w, Exec(w, actions[..|actions| - 1]).value, actions[|actions| - 1]);
    }
  }
}
