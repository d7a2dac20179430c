/** Which nodes a pause for human approval holds. */
module Pauses {
  import opened TaskGraphs
  import opened Values
  import opened WorkflowRuns
  import opened Recovery

  /** The node is in the batch, asks for approval and has not been given it in this start. */
  ghost predicate LacksApproval(w: Workflow, s: State, k: nat, id: NodeId) {
    && w.plan.Ok? && k < |w.plan.value| && id in w.plan.value[k] && id in w.tasks && w.tasks[id].requiresApproval
    && s.grants != [] && id !in s.grants[|s.grants| - 1]
  }

  lemma AwaitingStep(w: Workflow, s: State, a: Action, id: NodeId)
    requires Enabled(w, s, a)
    requires Get(s.live.nodeStatus, id) == Some(AwaitingApproval) ==> s.control.Paused?
    ensures Get(Next(w, s, a).live.nodeStatus, id) == Some(AwaitingApproval) ==> Next(w, s, a).control.Paused?
  {
    match a {
      case Advance(n, o) =>
        match s.control.phases[n] {
          case Announced(_) =>
          case RaisedLogged(_) =>
          case _ =>
        }
      case _ =>
    }
  }

  /** Outside a pause no node waits for approval. */
  lemma {:induction false} AwaitingOnlyInPauses(w: Workflow, actions: seq<Action>, id: NodeId)
    requires Exec(w, actions).Some?
    ensures
      var s := Exec(w, actions).value;
      Get(s.live.nodeStatus, id) == Some(AwaitingApproval) ==> s.control.Paused?
  {
    if actions != [] {
      AwaitingOnlyInPauses(w, actions[..|actions| - 1], id);
      AwaitingStep(w, Exec(w, actions[..|actions| - 1]).value, actions[|actions| - 1], id);
    }
  }

  /** A run pauses by trying to open a batch. */
  lemma PausedByOpening(w: Workflow, s: State, a: Action)
    requires Enabled(w, s, a) && Next(w, s, a).control.Paused?
    ensures a == OpenBatch && Next(w, s, a).grants == s.grants && Next(w, s, a).control.batch == s.control.batch
    ensures Next(w, s, a).log == s.log + [ApprovalRequested(Next(w, s, a).control.held)]
    ensures forall id :: id in Next(w, s, a).control.held <==> LacksApproval(w, s, s.control.batch, id)
    ensures Next(w, s, a).live.nodeStatus
         == s.live.nodeStatus + map id | id in Next(w, s, a).control.held :: AwaitingApproval
  {
  }

  /** In every paused run exactly the unapproved nodes of the batch that ask for approval are held: they are
      awaiting it, no other node is, and the last event of the log requests approval of just these. */
  lemma PauseHoldsTheUnapproved(w: Workflow, actions: seq<Action>)
    requires Exec(w, actions).Some? && Exec(w, actions).value.control.Paused?
    ensures
      var s := Exec(w, actions).value;
      var k := s.control.batch;
      && (forall id :: Get(s.live.nodeStatus, id) == Some(AwaitingApproval) <==> LacksApproval(w, s, k, id))
      && s.log != [] && s.log[|s.log| - 1].ApprovalRequested?
      && (forall id :: id in s.log[|s.log| - 1].nodes <==> LacksApproval(w, s, k, id))
  {
    var before, a := actions[..|actions| - 1], actions[|actions| - 1];
    var s, s' := Exec(w, before).value, Exec(w, actions).value;
    PausedByOpening(w, s, a);
    forall id
      ensures Get(s'.live.nodeStatus, id) == Some(AwaitingApproval) <==> LacksApproval(w, s', s'.control.batch, id)
    {
      AwaitingOnlyInPauses(w, before, id);
      assert id in s'.control.held <==> LacksApproval(w, s, s.control.batch, id);
    }
  }
}
