/** The sequential engine of agentfabric/phase3/workflow.py: nodes in queue order, retries
    per node, and a cache that makes a run idempotent per workflow id and key. */
module SequentialEngine {
  import opened Digraphs
  import opened TaskGraphs
  import opened Scheduling
  import opened TopologicalOrder
  import opened DependencyGraphs
  import opened Values
  import opened WorkflowRuns
  import opened Confluence

  /** Outcome of calling the runner on a node for the n-th time; `None` is an exception. */
  type Runner = (TaskNode, map<NodeId, Json>, nat) -> Option<Json>

  /** A successful call returns this function of the node and its dependency results. */
  ghost predicate Steady(runner: Runner, f: NodeFunction) {
    forall t, inputs, attempt :: runner(t, inputs, attempt).Some? ==> runner(t, inputs, attempt).value == f(t, inputs)
  }

  /** Some attempt within the retry limit succeeds. */
  ghost predicate Succeeds(runner: Runner, task: TaskNode, inputs: map<NodeId, Json>) {
    exists attempt :: 1 <= attempt <= task.maxRetries + 1 && runner(task, inputs, attempt).Some?
  }

  datatype Output = Output(workflowId: string, key: string, results: map<NodeId, Json>)

  datatype RunError = BadGraph(error: GraphError) | NodeFailed(node: NodeId)

  function CacheKey(workflowId: string, key: string): string {
    workflowId + ":" + key
  }

  /** The graph of a run as the mesh engine would see it, with a runner that computes `f`. */
  ghost function Reference(nodes: seq<TaskNode>, f: NodeFunction): Workflow {
    WorkflowOf(nodes, (t, inputs, v) => v == f(t, inputs))
  }

  // ---------------------------------------------------------------- the order respects dependencies

  lemma {:induction false} FlattenPosition(layers: seq<seq<NodeId>>, k: nat, i: nat) returns (layer: nat)
    requires k <= |layers| && i < |Flatten(layers[..k])|
    ensures layer < k && Flatten(layers[..k])[i] in layers[layer]
    ensures Before(layers, layer) <= Elements(Flatten(layers[..k])[..i])
    decreases k
  {
    var front, last := Flatten(layers[..k - 1]), layers[k - 1];
    assert layers[..k] == layers[..k - 1] + [last];
    FlattenSnoc(layers[..k - 1], last);
    var all := Flatten(layers[..k]);
    if i < |front| {
      layer := FlattenPosition(layers, k - 1, i);
      assert all[..i] == front[..i];
    } else {
      layer := k - 1;
      assert all[i] == last[i - |front|];
      FlattenCovers(layers, k - 1);
      assert front <= all[..i];
      assert Elements(front) <= Elements(all[..i]);
    }
  }

  lemma {:induction false} FlattenCovers(layers: seq<seq<NodeId>>, k: nat)
    requires k <= |layers|
    ensures Elements(Flatten(layers[..k])) == Before(layers, k)
  {
    if k == 0 {
      assert layers[..0] == [];
    } else {
      FlattenCovers(layers, k - 1);
      FlattenSnoc(layers[..k - 1], layers[k - 1]);
      assert layers[..k] == layers[..k - 1] + [layers[k - 1]];
      var front := Flatten(layers[..k - 1]);
      assert Elements(front + layers[k - 1]) == Elements(front) + Elements(layers[k - 1]);
    }
  }

  lemma OrderRespectsDependencies(w: Workflow, i: nat)
    requires Staged(w) && w.plan.Ok? && i < |Flatten(w.plan.value)|
    ensures
      var order := Flatten(w.plan.value);
      order[i] in w.tasks && Elements(w.tasks[order[i]].dependencies) <= Elements(order[..i])
  {
    var b := w.plan.value;
    assert b[..|b|] == b;
    var k := FlattenPosition(b, |b|, i);
    assert StagedAt(w, k, Flatten(b)[i]);
  }

  // ---------------------------------------------------------------- the engine

  /** The evaluated results of the first `i` nodes of the order. */
  ghost function Evaluated(w: Workflow, f: NodeFunction, order: seq<NodeId>): map<NodeId, Json>
    requires Staged(w) && w.plan.Ok? && forall n :: n in order ==> n in w.tasks
  {
    map n | n in order :: Evaluate(w, f, n)
  }

  lemma InputsAreEvaluated(w: Workflow, f: NodeFunction, i: nat, results: map<NodeId, Json>)
    requires Staged(w) && w.plan.Ok? && i < |Flatten(w.plan.value)|
    requires forall n :: n in Flatten(w.plan.value)[..i] ==> n in w.tasks
    requires results == Evaluated(w, f, Flatten(w.plan.value)[..i])
    ensures Flatten(w.plan.value)[i] in w.tasks
    ensures
      var n := Flatten(w.plan.value)[i];
      Inputs(w.tasks[n], results) == DependencyValues(w, f, n)
  {
    var order := Flatten(w.plan.value);
    var n := order[i];
    OrderRespectsDependencies(w, i);
    var inputs, expected := Inputs(w.tasks[n], results), DependencyValues(w, f, n);
    forall d | d in w.tasks[n].dependencies ensures d in inputs && inputs[d] == expected[d] {
      assert d in Elements(w.tasks[n].dependencies);
      LayerFalls(w, n, d);
    }
    assert inputs == expected;
  }

  /** The first successful attempt from number `attempt` on, within the limit. */
  function FirstSuccess(runner: Runner, task: TaskNode, inputs: map<NodeId, Json>, attempt: nat): Option<Json>
    decreases task.maxRetries + 2 - attempt
  {
    if attempt > task.maxRetries + 1 then None
    else if runner(task, inputs, attempt).Some? then runner(task, inputs, attempt)
    else FirstSuccess(runner, task, inputs, attempt + 1)
  }

  lemma {:induction false} FirstSuccessFinds(runner: Runner, task: TaskNode, inputs: map<NodeId, Json>, attempt: nat)
    requires 1 <= attempt
    ensures FirstSuccess(runner, task, inputs, attempt).Some? <==>
              exists k :: attempt <= k <= task.maxRetries + 1 && runner(task, inputs, k).Some?
    decreases task.maxRetries + 2 - attempt
  {
    if attempt <= task.maxRetries + 1 {
      FirstSuccessFinds(runner, task, inputs, attempt + 1);
    }
  }

  lemma {:induction false} FirstSuccessSteady(
    runner: Runner, f: NodeFunction, task: TaskNode, inputs: map<NodeId, Json>, attempt: nat)
    requires Steady(runner, f) && FirstSuccess(runner, task, inputs, attempt).Some?
    ensures FirstSuccess(runner, task, inputs, attempt) == Some(f(task, inputs))
    decreases task.maxRetries + 2 - attempt
  {
    if runner(task, inputs, attempt).None? {
      FirstSuccessSteady(runner, f, task, inputs, attempt + 1);
    }
  }

  /** Results after running the listed nodes in order, or the first node that fails for good. */
  function RunOrder(byId: map<NodeId, TaskNode>, order: seq<NodeId>, runner: Runner): Result<map<NodeId, Json>, NodeId>
    requires forall n :: n in order ==> n in byId
  {
    if order == [] then
      Ok(map[])
    else
      var n := order[|order| - 1];
      match RunOrder(byId, order[..|order| - 1], runner)
      case Err(e) => Err(e)
      case Ok(results) =>
        match FirstSuccess(runner, byId[n], Inputs(byId[n], results), 1)
        case None => Err(n)
        case Some(v) => Ok(results[n := v])
  }

  lemma {:induction false} FailureIsFinal(byId: map<NodeId, TaskNode>, order: seq<NodeId>, runner: Runner, i: nat)
    requires i <= |order| && (forall n :: n in order ==> n in byId)
    requires forall n :: n in order[..i] ==> n in byId
    requires RunOrder(byId, order[..i], runner).Err?
    ensures RunOrder(byId, order, runner) == RunOrder(byId, order[..i], runner)
    decreases |order|
  {
    if i == |order| {
      assert order[..i] == order;
    } else {
      var init := order[..|order| - 1];
      assert init[..i] == order[..i];
      FailureIsFinal(byId, init, runner, i);
    }
  }

  /** Every attempt the node has comes to nothing on these inputs. */
  ghost predicate Fails(task: TaskNode, inputs: map<NodeId, Json>, runner: Runner) {
    forall k :: 1 <= k <= task.maxRetries + 1 ==> runner(task, inputs, k).None?
  }

  /** The nodes before it in the order succeed, and this one fails on their results. */
  ghost predicate Blamed(byId: map<NodeId, TaskNode>, order: seq<NodeId>, runner: Runner, n: NodeId)
    requires forall m :: m in order ==> m in byId
  {
    exists i, results :: 0 <= i < |order| && order[i] == n
                         && RunOrder(byId, order[..i], runner) == Ok(results)
                         && Fails(byId[n], Inputs(byId[n], results), runner)
  }

  /** The retry loop of one node, with at most `max_retries + 1` calls. */
  method RunNode(task: TaskNode, inputs: map<NodeId, Json>, runner: Runner) returns (r: Option<Json>, attempts: nat)
    ensures r == FirstSuccess(runner, task, inputs, 1)
    ensures attempts <= task.maxRetries + 1
    ensures r.Some? ==> 1 <= attempts && r == runner(task, inputs, attempts)
    ensures r.None? ==> attempts == task.maxRetries + 1
    ensures forall k :: 1 <= k <= attempts && (k < attempts || r.None?) ==> runner(task, inputs, k).None?
  {
    attempts := 0;
    while attempts <= task.maxRetries
      invariant attempts <= task.maxRetries + 1
      invariant forall k :: 1 <= k <= attempts ==> runner(task, inputs, k).None?
      invariant FirstSuccess(runner, task, inputs, 1) == FirstSuccess(runner, task, inputs, attempts + 1)
    {
      attempts := attempts + 1;
      r := runner(task, inputs, attempts);
      if r.Some? {
        return;
      }
    }
    r := None;
  }

  /** The loop over the ordered nodes, leaving it at the first node that fails for good. */
  method RunNodes(byId: map<NodeId, TaskNode>, order: seq<NodeId>, runner: Runner)
    returns (r: Result<map<NodeId, Json>, NodeId>)
    requires forall n :: n in order ==> n in byId
    ensures r == RunOrder(byId, order, runner)
    ensures r.Err? ==> Blamed(byId, order, runner, r.error)
    ensures r.Ok? ==> r.value.Keys == Elements(order)
  {
    var results := map[];
    var i := 0;
    while i < |order|
      invariant i <= |order|
      invariant forall n :: n in order[..i] ==> n in byId
      invariant RunOrder(byId, order[..i], runner) == Ok(results)
      invariant results.Keys == Elements(order[..i])
    {
      var n := order[i];
      assert Elements(order[..i + 1]) == Elements(order[..i]) + {n} by {
        assert order[..i + 1] == order[..i] + [n];
      }
      assert order[..i + 1][..|order[..i + 1]| - 1] == order[..i];
      var outcome, attempts := RunNode(byId[n], Inputs(byId[n], results), runner);
      if outcome.None? {
        FailureIsFinal(byId, order, runner, i + 1);
        assert Fails(byId[n], Inputs(byId[n], results), runner);
        return Err(n);
      }
      results := results[n := outcome.value];
      i := i + 1;
    }
    assert order[..i] == order;
    r := Ok(results);
  }

  /** What `run` computes when nothing is cached. */
  ghost function RunResult(nodes: seq<TaskNode>, runner: Runner): Result<map<NodeId, Json>, RunError> {
    match SortOf(nodes)
    case Err(e) => Err(BadGraph(e))
    case Ok(order) =>
      OrderIsKnown(nodes);
      match RunOrder(ById(nodes), order, runner)
      case Err(n) => Err(NodeFailed(n))
      case Ok(results) => Ok(results)
  }

  lemma OrderIsKnown(nodes: seq<TaskNode>)
    requires SortOf(nodes).Ok?
    ensures Elements(SortOf(nodes).value) == ById(nodes).Keys
    ensures forall n :: n in SortOf(nodes).value ==> n in ById(nodes)
  {
    SortsAgree(nodes);
    BatchesTheorem(nodes);
    forall n | n in SortOf(nodes).value ensures n in ById(nodes) {
      assert n in Elements(SortOf(nodes).value);
    }
  }

  class WorkflowEngine {
    var cache: map<string, Output>

    constructor ()
      ensures cache == map[]
    {
      cache := map[];
    }

    /** A cached run is returned untouched and calls nothing; a new run is cached only when it succeeds. */
    method Run(workflowId: string, key: string, nodes: seq<TaskNode>, runner: Runner)
      returns (r: Result<Output, RunError>)
      modifies this
      ensures CacheKey(workflowId, key) in old(cache) ==>
                r == Ok(old(cache)[CacheKey(workflowId, key)]) && cache == old(cache)
      ensures CacheKey(workflowId, key) !in old(cache) ==>
        match RunResult(nodes, runner)
        case Err(e) => r == Err(e) && cache == old(cache)
        case Ok(results) =>
          && r == Ok(Output(workflowId, key, results)) && results.Keys == ById(nodes).Keys
          && cache == old(cache)[CacheKey(workflowId, key) := r.value]
    {
      var cacheKey := CacheKey(workflowId, key);
      if cacheKey in cache {
        return Ok(cache[cacheKey]);
      }
      var order := TopologicalSort(nodes);
      if order.Err? {
        return Err(BadGraph(order.error));
      }
      OrderIsKnown(nodes);
      var results := RunNodes(ById(nodes), order.value, runner);
      if results.Err? {
        return Err(NodeFailed(results.error));
      }
      var output := Output(workflowId, key, results.value);
      cache := cache[cacheKey := output];
      r := Ok(output);
    }
  }

  // ---------------------------------------------------------------- what the engine computes

  /** Every node has an attempt that succeeds on its evaluated inputs. */
  ghost predicate AllSucceed(w: Workflow, f: NodeFunction, runner: Runner, ids: set<NodeId>)
    requires Staged(w) && w.plan.Ok? && ids <= w.tasks.Keys
  {
    forall n :: n in ids ==> Succeeds(runner, w.tasks[n], DependencyValues(w, f, n))
  }

  lemma NodeEvaluates(w: Workflow, f: NodeFunction, runner: Runner, i: nat, results: map<NodeId, Json>)
    requires Staged(w) && w.plan.Ok? && Steady(runner, f) && i < |Flatten(w.plan.value)|
    requires forall n :: n in Flatten(w.plan.value)[..i] ==> n in w.tasks
    requires results == Evaluated(w, f, Flatten(w.plan.value)[..i])
    ensures Flatten(w.plan.value)[i] in w.tasks
    ensures
      var n := Flatten(w.plan.value)[i];
      var outcome := FirstSuccess(runner, w.tasks[n], Inputs(w.tasks[n], results), 1);
      && (outcome.Some? <==> Succeeds(runner, w.tasks[n], DependencyValues(w, f, n)))
      && (outcome.Some? ==> outcome.value == Evaluate(w, f, n))
  {
    InputsAreEvaluated(w, f, i, results);
    var task := w.tasks[Flatten(w.plan.value)[i]];
    var inputs := Inputs(task, results);
    FirstSuccessFinds(runner, task, inputs, 1);
    if FirstSuccess(runner, task, inputs, 1).Some? {
      FirstSuccessSteady(runner, f, task, inputs, 1);
    }
  }

  lemma {:induction false} RunOrderEvaluates(w: Workflow, f: NodeFunction, runner: Runner, order: seq<NodeId>, i: nat)
    requires Staged(w) && w.plan.Ok? && Steady(runner, f)
    requires order == Flatten(w.plan.value) && i <= |order|
    requires forall n :: n in order[..i] ==> n in w.tasks
    ensures RunOrder(w.tasks, order[..i], runner).Ok? <==> AllSucceed(w, f, runner, Elements(order[..i]))
    ensures RunOrder(w.tasks, order[..i], runner).Ok? ==>
              RunOrder(w.tasks, order[..i], runner).value == Evaluated(w, f, order[..i])
  {
    if i > 0 {
      PrefixSplit(order, i);
      RunOrderEvaluates(w, f, runner, order, i - 1);
      var before := RunOrder(w.tasks, order[..i - 1], runner);
      RunOneMore(w.tasks, order, i, runner);
      SucceedOneMore(w, f, runner, order, i);
      if before.Ok? {
        NodeEvaluates(w, f, runner, i - 1, before.value);
        EvaluatedOneMore(w, f, order, i);
      }
    }
  }

  lemma RunOneMore(byId: map<NodeId, TaskNode>, order: seq<NodeId>, i: nat, runner: Runner)
    requires 0 < i <= |order| && forall n :: n in order[..i] ==> n in byId
    requires forall n :: n in order[..i - 1] ==> n in byId
    requires order[i - 1] in byId
    ensures
      var n, before, after := order[i - 1], RunOrder(byId, order[..i - 1], runner), RunOrder(byId, order[..i], runner);
      && (before.Err? ==> after.Err?)
      && (before.Ok? ==>
            var outcome := FirstSuccess(runner, byId[n], Inputs(byId[n], before.value), 1);
            if outcome.None? then after.Err? else after == Ok(before.value[n := outcome.value]))
  {
    assert order[..i][..i - 1] == order[..i - 1];
  }

  lemma SucceedOneMore(w: Workflow, f: NodeFunction, runner: Runner, order: seq<NodeId>, i: nat)
    requires Staged(w) && w.plan.Ok? && 0 < i <= |order| && Elements(order[..i]) <= w.tasks.Keys
    requires Elements(order[..i]) == Elements(order[..i - 1]) + {order[i - 1]}
    ensures AllSucceed(w, f, runner, Elements(order[..i])) <==>
              AllSucceed(w, f, runner, Elements(order[..i - 1]))
              && Succeeds(runner, w.tasks[order[i - 1]], DependencyValues(w, f, order[i - 1]))
  {
  }

  lemma EvaluatedOneMore(w: Workflow, f: NodeFunction, order: seq<NodeId>, i: nat)
    requires Staged(w) && w.plan.Ok? && 0 < i <= |order| && forall n :: n in order[..i] ==> n in w.tasks
    requires forall n :: n in order[..i - 1] ==> n in w.tasks
    requires forall n :: n in order[..i] <==> n in order[..i - 1] || n == order[i - 1]
    ensures Evaluated(w, f, order[..i]) == Evaluated(w, f, order[..i - 1])[order[i - 1] := Evaluate(w, f, order[i - 1])]
  {
  }

  lemma PrefixSplit(order: seq<NodeId>, i: nat)
    requires 0 < i <= |order|
    ensures order[..i][..i - 1] == order[..i - 1]
    ensures forall n :: n in order[..i] <==> n in order[..i - 1] || n == order[i - 1]
    ensures Elements(order[..i]) == Elements(order[..i - 1]) + {order[i - 1]}
  {
    assert order[..i] == order[..i - 1] + [order[i - 1]];
  }

  /** On a graph that can be scheduled, a run succeeds exactly when every node has a succeeding
      attempt within its limit, and then its results are the direct evaluation of the graph. */
  lemma SequentialRunEvaluates(nodes: seq<TaskNode>, runner: Runner, f: NodeFunction)
    requires SortOf(nodes).Ok? && Steady(runner, f)
    ensures Staged(Reference(nodes, f)) && BatchesOf(nodes).Ok?
    ensures RunResult(nodes, runner).Ok? <==> AllSucceed(Reference(nodes, f), f, runner, ById(nodes).Keys)
    ensures RunResult(nodes, runner).Ok? ==> RunResult(nodes, runner).value == EvaluateAll(Reference(nodes, f), f)
  {
    var w := Reference(nodes, f);
    SortsAgree(nodes);
    EveryGraphIsStaged(nodes, w.may);
    OrderIsKnown(nodes);
    var order := SortOf(nodes).value;
    assert order[..|order|] == order;
    RunOrderEvaluates(w, f, runner, order, |order|);
    assert RunResult(nodes, runner).Ok? ==> Evaluated(w, f, order) == EvaluateAll(w, f);
  }

  /** Any completed run of the mesh engine, under any interleaving and any pattern of retried
      failures, holds the results of a completed run of the sequential engine. */
  lemma EnginesAgree(nodes: seq<TaskNode>, w: Workflow, runner: Runner, f: NodeFunction, actions: seq<Action>)
    requires WellFormed(nodes) && w == WorkflowOf(nodes, w.may) && Computes(w, f) && Steady(runner, f)
    requires Exec(w, actions).Some? && Exec(w, actions).value.control.Closed?
    requires RunResult(nodes, runner).Ok?
    ensures Exec(w, actions).value.live.results == RunResult(nodes, runner).value
  {
    var v := Reference(nodes, f);
    EveryGraphIsStaged(nodes, w.may);
    SequentialRunEvaluates(nodes, runner, f);
    EveryInterleavingEvaluates(w, f, actions);
    SameValues(w, v, f);
  }

  lemma SameValues(w: Workflow, v: Workflow, f: NodeFunction)
    requires Staged(w) && Staged(v) && w.plan.Ok? && v.plan == w.plan && v.tasks == w.tasks
    ensures EvaluateAll(w, f) == EvaluateAll(v, f)
  {
    forall n | n in w.tasks ensures Evaluate(w, f, n) == Evaluate(v, f, n) {
      EvaluateIgnoresRunner(w, v, f, n);
    }
  }

  /** Joining id and key with a colon is ambiguous ... */
  lemma CacheKeysCollide()
    ensures CacheKey("a:b", "c") == CacheKey("a", "b:c") && ("a:b", "c") != ("a", "b:c")
  {
  }

  /** ... exactly as far as ids contain colons: two different pairs share a key only if one
      id extends the other across a colon. */
  lemma CacheKeyCollisions(id1: string, key1: string, id2: string, key2: string)
    requires |id1| <= |id2|
    ensures CacheKey(id1, key1) == CacheKey(id2, key2) <==>
      (id1 == id2 && key1 == key2) || (|id1| < |id2| && id1 + ":" <= id2 && key1 == id2[|id1| + 1..] + ":" + key2)
  {
    var a, b := CacheKey(id1, key1), CacheKey(id2, key2);
    var n := |id1|;
    assert a[..n] == id1 && a[n] == ':' && a[n + 1..] == key1;
    if |id1| == |id2| {
      assert b[..n] == id2 && b[n + 1..] == key2;
    } else {
      assert b[..n] == id2[..n] && b[n] == id2[n] && b[n + 1..] == id2[n + 1..] + ":" + key2;
      if a == b {
        assert id2[..n + 1] == id1 + ":";
      }
      if id1 + ":" <= id2 && key1 == id2[n + 1..] + ":" + key2 {
        assert id2 == id1 + ":" + id2[n + 1..];
        assert a == b;
      }
    }
  }
}
