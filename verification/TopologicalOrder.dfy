/** What the two topological sorts promise: a graph is refused exactly when it is cyclic,
    the batch of a node is the length of its longest dependency chain, and both sorts
    produce the same order. */
module TopologicalOrder {
  import opened Digraphs
  import opened TaskGraphs
  import opened Scheduling
  import opened QueueOrder

  // ---------------------------------------------------------------- specification of the two calls

  /** What `DependencyGraph(graph).topological_batches()` returns or raises. */
  ghost function BatchesOf(nodes: seq<TaskNode>): Result<seq<seq<NodeId>>, GraphError> {
    if !DistinctIds(nodes) then
      Err(DuplicateId)
    else if !KnownDependencies(nodes) then
      Err(UnknownDependency)
    else
      var layers := Layers(nodes, InitialFrontier(nodes));
      if |Flatten(layers)| != |nodes| then Err(ContainsCycle) else Ok(layers)
  }

  /** What `WorkflowEngine._topological_sort` returns or raises. */
  ghost function SortOf(nodes: seq<TaskNode>): Result<seq<NodeId>, GraphError> {
    if !DistinctIds(nodes) then
      Err(DuplicateId)
    else if !KnownDependencies(nodes) then
      Err(UnknownDependency)
    else
      var order := Fifo(nodes, InitialFrontier(nodes));
      if |order| != |nodes| then Err(ContainsCycle) else Ok(order)
  }

  /** The batches split the nodes, and a node's batch number is the length of its longest chain. */
  ghost predicate IsSchedule(nodes: seq<TaskNode>, batches: seq<seq<NodeId>>) {
    && Distinct(Flatten(batches))
    && Elements(Flatten(batches)) == ById(nodes).Keys
    && forall k, id :: 0 <= k < |batches| && id in batches[k] ==> LongestChain(EdgesOf(nodes), id, k)
  }

  // ---------------------------------------------------------------- flattening

  lemma {:induction false} FlattenSnoc(layers: seq<seq<NodeId>>, last: seq<NodeId>)
    ensures Flatten(layers + [last]) == Flatten(layers) + last
  {
    if layers == [] {
      assert layers + [last] == [last];
      assert [last][1..] == [];
      assert Flatten([last]) == last + [];
    } else {
      FlattenSnoc(layers[1..], last);
      assert (layers + [last])[1..] == layers[1..] + [last];
      assert (layers + [last])[0] == layers[0];
      assert layers[0] + (Flatten(layers[1..]) + last) == (layers[0] + Flatten(layers[1..])) + last;
    }
  }

  lemma {:induction false} FlattenReady(edges: Edges, layers: seq<seq<NodeId>>, k: nat)
    requires ReadyLayers(edges, layers) && k <= |layers|
    ensures Distinct(Flatten(layers[..k])) && Elements(Flatten(layers[..k])) == Before(layers, k)
  {
    if k > 0 {
      FlattenReady(edges, layers, k - 1);
      var front, last := Flatten(layers[..k - 1]), layers[k - 1];
      assert layers[..k] == layers[..k - 1] + [last];
      FlattenSnoc(layers[..k - 1], last);
      assert ReadyLayer(edges, last, Before(layers, k - 1));
      DistinctConcat(front, last);
    }
  }

  // ---------------------------------------------------------------- levels

  lemma {:induction false} BeforeMember(layers: seq<seq<NodeId>>, k: nat, id: NodeId)
    requires k <= |layers|
    ensures id in Before(layers, k) <==> exists j :: 0 <= j < k && id in layers[j]
  {
    if k > 0 {
      BeforeMember(layers, k - 1, id);
    }
  }

  /** Index of the only layer that holds `id`. */
  ghost function LayerOf(layers: seq<seq<NodeId>>, id: NodeId): (k: nat)
    requires id in Before(layers, |layers|)
    ensures k < |layers| && id in layers[k]
  {
    BeforeMember(layers, |layers|, id);
    var k :| 0 <= k < |layers| && id in layers[k];
    k
  }

  lemma OneLayer(edges: Edges, layers: seq<seq<NodeId>>, id: NodeId, j: nat, k: nat)
    requires ReadyLayers(edges, layers)
    requires j < |layers| && k < |layers| && id in layers[j] && id in layers[k]
    ensures j == k
  {
    assert ReadyLayer(edges, layers[j], Before(layers, j)) && ReadyLayer(edges, layers[k], Before(layers, k));
    assert id in Elements(layers[j]) && id in Elements(layers[k]);
    BeforeMember(layers, j, id);
    BeforeMember(layers, k, id);
  }

  /** All dependencies of a node sit in earlier layers. */
  lemma DependencyBelow(edges: Edges, layers: seq<seq<NodeId>>, id: NodeId, d: NodeId)
    requires ReadyLayers(edges, layers)
    requires id in Before(layers, |layers|) && id in edges && d in edges[id]
    ensures d in Before(layers, |layers|) && LayerOf(layers, d) < LayerOf(layers, id)
  {
    var k := LayerOf(layers, id);
    assert ReadyLayer(edges, layers[k], Before(layers, k));
    assert id in Elements(layers[k]);
    BeforeMember(layers, k, d);
    var j :| 0 <= j < k && d in layers[j];
    BeforeMember(layers, |layers|, d);
    OneLayer(edges, layers, d, j, LayerOf(layers, d));
  }

  /** A node of a later layer has a dependency in the layer just before it. */
  lemma DependencyJustBelow(edges: Edges, layers: seq<seq<NodeId>>, k: nat, id: NodeId) returns (d: NodeId)
    requires ReadyLayers(edges, layers) && 0 < k < |layers| && id in layers[k]
    ensures id in edges && d in edges[id] && d in layers[k - 1]
  {
    assert ReadyLayer(edges, layers[k], Before(layers, k));
    assert ReadyLayer(edges, layers[k - 1], Before(layers, k - 1));
    assert id in Elements(layers[k]);
    assert id !in Elements(layers[k - 1]);
    assert !(edges[id] <= Before(layers, k - 1));
    d :| d in edges[id] && d !in Before(layers, k - 1);
    assert d in Elements(layers[k - 1]);
  }

  lemma {:induction false} ChainDown(edges: Edges, layers: seq<seq<NodeId>>, k: nat, id: NodeId)
    returns (p: seq<NodeId>)
    requires ReadyLayers(edges, layers) && k < |layers| && id in layers[k]
    ensures Walk(edges, p) && p[0] == id && |p| == k + 1
    decreases k
  {
    if k == 0 {
      assert ReadyLayer(edges, layers[0], Before(layers, 0));
      assert id in Elements(layers[0]);
      p := [id];
    } else {
      var d := DependencyJustBelow(edges, layers, k, id);
      var rest := ChainDown(edges, layers, k - 1, d);
      WalkCons(edges, id, rest);
      p := [id] + rest;
    }
  }

  ghost function LayerRank(layers: seq<seq<NodeId>>): map<NodeId, nat> {
    map id | id in Before(layers, |layers|) :: LayerOf(layers, id)
  }

  lemma LayersRank(edges: Edges, layers: seq<seq<NodeId>>)
    requires ReadyLayers(edges, layers) && Before(layers, |layers|) == edges.Keys
    ensures Ranking(edges, LayerRank(layers))
  {
    forall n, d | n in edges && d in edges[n] && d in edges
      ensures LayerRank(layers)[d] < LayerRank(layers)[n]
    {
      DependencyBelow(edges, layers, n, d);
    }
  }

  lemma LayerIsLongestChain(edges: Edges, layers: seq<seq<NodeId>>, k: nat, id: NodeId)
    requires ReadyLayers(edges, layers) && Before(layers, |layers|) == edges.Keys
    requires k < |layers| && id in layers[k]
    ensures LongestChain(edges, id, k)
  {
    var longest := ChainDown(edges, layers, k, id);
    LayersRank(edges, layers);
    BeforeMember(layers, |layers|, id);
    OneLayer(edges, layers, id, k, LayerOf(layers, id));
    forall p | Walk(edges, p) && p[0] == id ensures |p| <= k + 1 {
      RankFallsAlongWalk(edges, LayerRank(layers), p);
    }
  }

  /** Nodes that never become ready wait for each other. */
  lemma LeftoverIsCyclic(edges: Edges, layers: seq<seq<NodeId>>)
    requires CompleteLayers(edges, layers)
    requires forall n, d :: n in edges && d in edges[n] ==> d in edges
    requires exists n :: n in edges && n !in Before(layers, |layers|)
    ensures Cyclic(edges)
  {
    var done := Before(layers, |layers|);
    var stuck := set n | n in edges && n !in done;
    forall n | n in stuck ensures edges[n] * stuck != {} {
      assert n !in Ready(edges, done);
      var d :| d in edges[n] && d !in done;
      assert d in edges[n] * stuck;
    }
    var some :| some in edges && some !in done;
    assert some in stuck;
    StuckSetIsCyclic(edges, stuck);
  }

  // ---------------------------------------------------------------- main results

  lemma LayersOfGraph(nodes: seq<TaskNode>)
    requires WellFormed(nodes)
    ensures CompleteLayers(EdgesOf(nodes), Layers(nodes, InitialFrontier(nodes)))
  {
    InitialCounting(nodes);
    var all := Layers(nodes, InitialFrontier(nodes));
    assert [] + all == all;
    LayersAreReady(nodes, [], InitialFrontier(nodes), all);
  }

  lemma {:induction false} LayersStayInside(edges: Edges, layers: seq<seq<NodeId>>, k: nat)
    requires ReadyLayers(edges, layers) && k <= |layers|
    ensures Before(layers, k) <= edges.Keys
  {
    if k > 0 {
      LayersStayInside(edges, layers, k - 1);
      assert ReadyLayer(edges, layers[k - 1], Before(layers, k - 1));
    }
  }

  lemma VisitedCount(nodes: seq<TaskNode>, layers: seq<seq<NodeId>>)
    requires WellFormed(nodes) && CompleteLayers(EdgesOf(nodes), layers)
    ensures Distinct(Flatten(layers)) && Elements(Flatten(layers)) == Before(layers, |layers|)
    ensures |Flatten(layers)| == |nodes| <==> Before(layers, |layers|) == EdgesOf(nodes).Keys
  {
    var edges := EdgesOf(nodes);
    FlattenReady(edges, layers, |layers|);
    assert layers[..|layers|] == layers;
    DistinctCardinality(Flatten(layers));
    SizeDetectsDuplicates(nodes);
    assert edges.Keys == ById(nodes).Keys;
    LayersStayInside(edges, layers, |layers|);
    var seen := Before(layers, |layers|);
    assert |edges.Keys| == |seen| + |edges.Keys - seen|;
  }

  lemma DependenciesAreVertices(nodes: seq<TaskNode>)
    requires WellFormed(nodes)
    ensures forall n, d :: n in EdgesOf(nodes) && d in EdgesOf(nodes)[n] ==> d in EdgesOf(nodes)
  {
    ByIdMembers(nodes);
  }

  /** The layered sort refuses a graph exactly when it has a cycle, and what it returns is a schedule. */
  lemma BatchesTheorem(nodes: seq<TaskNode>)
    requires WellFormed(nodes)
    ensures BatchesOf(nodes).Err? <==> Cyclic(EdgesOf(nodes))
    ensures BatchesOf(nodes).Ok? ==> IsSchedule(nodes, BatchesOf(nodes).value)
  {
    var edges := EdgesOf(nodes);
    var layers := Layers(nodes, InitialFrontier(nodes));
    LayersOfGraph(nodes);
    VisitedCount(nodes, layers);
    if BatchesOf(nodes).Ok? {
      LayersRank(edges, layers);
      RankedIsAcyclic(edges, LayerRank(layers));
      forall k, id | 0 <= k < |layers| && id in layers[k] ensures LongestChain(edges, id, k) {
        LayerIsLongestChain(edges, layers, k, id);
      }
    } else {
      LayersStayInside(edges, layers, |layers|);
      DependenciesAreVertices(nodes);
      LeftoverIsCyclic(edges, layers);
    }
  }

  /** Both sorts list the nodes in queue order, whether or not they reach all of them. */
  lemma OrderTheorem(nodes: seq<TaskNode>)
    ensures SortOf(nodes).Ok? ==> InQueueOrder(nodes, SortOf(nodes).value)
    ensures BatchesOf(nodes).Ok? ==> InQueueOrder(nodes, Flatten(BatchesOf(nodes).value))
  {
    SortsAgree(nodes);
    if WellFormed(nodes) {
      FifoInQueueOrder(nodes);
    }
  }

  /** The nodes without dependencies, as the graph lists them. */
  function Independent(nodes: seq<TaskNode>): seq<NodeId> {
    if nodes == [] then
      []
    else
      Independent(nodes[..|nodes| - 1])
      + if nodes[|nodes| - 1].dependencies == [] then [nodes[|nodes| - 1].id] else []
  }

  lemma {:induction false} RootsAreIndependent(nodes: seq<TaskNode>, indegree: map<NodeId, int>)
    requires forall n :: n in nodes ==> n.id in indegree && indegree[n.id] == |n.dependencies|
    ensures Roots(nodes, indegree) == Independent(nodes)
  {
    if nodes != [] {
      RootsAreIndependent(nodes[..|nodes| - 1], indegree);
      assert nodes[|nodes| - 1] in nodes;
    }
  }

  /** The first batch is the nodes without dependencies, in graph order. */
  lemma FirstBatch(nodes: seq<TaskNode>)
    requires BatchesOf(nodes).Ok?
    ensures nodes == [] ==> BatchesOf(nodes).value == []
    ensures nodes != [] ==> BatchesOf(nodes).value != [] && BatchesOf(nodes).value[0] == Independent(nodes)
  {
    ByIdMembers(nodes);
    RootsAreIndependent(nodes, InitialDegrees(nodes));
  }

  /** The queue sort accepts the same graphs, and its order is the concatenation of the batches. */
  lemma SortsAgree(nodes: seq<TaskNode>)
    ensures BatchesOf(nodes).Ok? <==> SortOf(nodes).Ok?
    ensures BatchesOf(nodes).Ok? ==> SortOf(nodes).value == Flatten(BatchesOf(nodes).value)
    ensures BatchesOf(nodes).Err? ==> SortOf(nodes) == Err(BatchesOf(nodes).error)
  {
    if WellFormed(nodes) {
      LayersFlattenToFifo(nodes, InitialFrontier(nodes));
    }
  }
}
