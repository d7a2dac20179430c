/** The two sorts as the program runs them: tables filled by nested loops, counters
    decremented in place, nodes queued when a counter reaches zero. */
module DependencyGraphs {
  import opened Digraphs
  import opened TaskGraphs
  import opened Scheduling
  import opened TopologicalOrder
  import opened QueueOrder

  type Table = map<NodeId, seq<NodeId>>

  /** A `defaultdict(list)` lookup. */
  function Lookup(children: Table, d: NodeId): seq<NodeId> {
    if d in children then children[d] else []
  }

  ghost predicate ChildrenTable(nodes: seq<TaskNode>, children: Table) {
    forall d {:trigger Lookup(children, d)} :: Lookup(children, d) == Children(nodes, d)
  }

  datatype Tables = Tables(children: Table, indegree: map<NodeId, int>)

  /** One pass of the inner loop body: node `id` lists `dep`. */
  function Enter(t: Tables, id: NodeId, dep: NodeId): Tables
    requires id in t.indegree
  {
    Tables(t.children[dep := Lookup(t.children, dep) + [id]], t.indegree[id := t.indegree[id] + 1])
  }

  function EnterAll(t: Tables, id: NodeId, deps: seq<NodeId>): (u: Tables)
    requires id in t.indegree
    ensures u.indegree.Keys == t.indegree.Keys
  {
    if deps == [] then t else Enter(EnterAll(t, id, deps[..|deps| - 1]), id, deps[|deps| - 1])
  }

  /** Every node has its counter. */
  ghost predicate Covered(t: Tables, nodes: seq<TaskNode>) {
    forall i :: 0 <= i < |nodes| ==> nodes[i].id in t.indegree
  }

  /** The tables after the first `i` nodes. */
  function EnterNodes(t: Tables, nodes: seq<TaskNode>, i: nat): (u: Tables)
    requires i <= |nodes| && Covered(t, nodes)
    ensures u.indegree.Keys == t.indegree.Keys
  {
    if i == 0 then t else EnterAll(EnterNodes(t, nodes, i - 1), nodes[i - 1].id, nodes[i - 1].dependencies)
  }

  lemma {:induction false} EnterAllChildren(t: Tables, id: NodeId, deps: seq<NodeId>, d: NodeId)
    requires id in t.indegree
    ensures Lookup(EnterAll(t, id, deps).children, d) == Lookup(t.children, d) + Repeat(id, Count(d, deps))
  {
    if deps == [] {
      assert Lookup(t.children, d) + [] == Lookup(t.children, d);
    } else {
      var init := deps[..|deps| - 1];
      EnterAllChildren(t, id, init, d);
      var front, back := Lookup(t.children, d), Repeat(id, Count(d, init));
      OneMoreKid(front, back, id);
    }
  }

  lemma OneMoreKid(front: seq<NodeId>, back: seq<NodeId>, id: NodeId)
    ensures (front + back) + [id] == front + (back + [id])
  {
  }

  lemma {:induction false} EnterAllDegrees(t: Tables, id: NodeId, deps: seq<NodeId>, k: NodeId)
    requires id in t.indegree && k in t.indegree
    ensures EnterAll(t, id, deps).indegree[k] == t.indegree[k] + if k == id then |deps| else 0
  {
    if deps != [] {
      EnterAllDegrees(t, id, deps[..|deps| - 1], k);
    }
  }

  lemma ChildrenStep(nodes: seq<TaskNode>, i: nat, d: NodeId)
    requires i < |nodes|
    ensures Children(nodes[..i + 1], d)
        == Children(nodes[..i], d) + Repeat(nodes[i].id, Count(d, nodes[i].dependencies))
  {
    assert nodes[..i + 1][..|nodes[..i + 1]| - 1] == nodes[..i];
  }

  lemma {:induction false} EnterNodesChildren(t: Tables, nodes: seq<TaskNode>, i: nat, d: NodeId)
    requires i <= |nodes| && t.children == map[] && Covered(t, nodes)
    ensures Lookup(EnterNodes(t, nodes, i).children, d) == Children(nodes[..i], d)
  {
    if i == 0 {
      assert nodes[..0] == [];
    } else {
      EnterNodesChildren(t, nodes, i - 1, d);
      ChildrenStep(nodes, i - 1, d);
      EnterAllChildren(EnterNodes(t, nodes, i - 1), nodes[i - 1].id, nodes[i - 1].dependencies, d);
    }
  }

  lemma {:induction false} EnterNodesDegrees(t: Tables, nodes: seq<TaskNode>, i: nat, k: nat)
    requires i <= |nodes| && k < |nodes| && DistinctIds(nodes) && Covered(t, nodes) && t.indegree[nodes[k].id] == 0
    ensures EnterNodes(t, nodes, i).indegree[nodes[k].id] == if k < i then |nodes[k].dependencies| else 0
  {
    if i > 0 {
      EnterNodesDegrees(t, nodes, i - 1, k);
      DegreeStep(t, nodes, i - 1, k);
    }
  }

  lemma DegreeStep(t: Tables, nodes: seq<TaskNode>, i: nat, k: nat)
    requires i < |nodes| && k < |nodes| && DistinctIds(nodes) && Covered(t, nodes)
    ensures EnterNodes(t, nodes, i + 1).indegree[nodes[k].id]
         == EnterNodes(t, nodes, i).indegree[nodes[k].id] + if k == i then |nodes[k].dependencies| else 0
  {
    EnterAllDegrees(EnterNodes(t, nodes, i), nodes[i].id, nodes[i].dependencies, nodes[k].id);
    assert nodes[i].id == nodes[k].id <==> i == k;
  }

  function EmptyTables(nodes: seq<TaskNode>): Tables {
    Tables(map[], map id | id in ById(nodes) :: 0)
  }

  lemma TablesComplete(nodes: seq<TaskNode>, empty: Tables)
    requires DistinctIds(nodes) && empty == EmptyTables(nodes)
    requires Covered(empty, nodes)
    ensures ChildrenTable(nodes, EnterNodes(empty, nodes, |nodes|).children)
    ensures EnterNodes(empty, nodes, |nodes|).indegree == InitialDegrees(nodes)
  {
    assert nodes[..|nodes|] == nodes;
    forall d ensures Lookup(EnterNodes(empty, nodes, |nodes|).children, d) == Children(nodes, d) {
      EnterNodesChildren(empty, nodes, |nodes|, d);
    }
    DegreesComplete(nodes, empty);
  }

  lemma DegreesComplete(nodes: seq<TaskNode>, empty: Tables)
    requires DistinctIds(nodes) && empty == EmptyTables(nodes) && Covered(empty, nodes)
    ensures EnterNodes(empty, nodes, |nodes|).indegree == InitialDegrees(nodes)
  {
    ByIdMembers(nodes);
    var indegree := EnterNodes(empty, nodes, |nodes|).indegree;
    forall id | id in ById(nodes) ensures indegree[id] == InitialDegrees(nodes)[id] {
      var k :| 0 <= k < |nodes| && nodes[k] == ById(nodes)[id];
      EnterNodesDegrees(empty, nodes, |nodes|, k);
    }
  }

  /** The inner loop: enter the dependencies of one node, stopping at the first unknown one. */
  method AddNode(node: TaskNode, byId: map<NodeId, TaskNode>, t: Tables) returns (known: bool, u: Tables)
    requires node.id in t.indegree
    ensures known <==> Elements(node.dependencies) <= byId.Keys
    ensures known ==> u == EnterAll(t, node.id, node.dependencies)
  {
    var deps := node.dependencies;
    known, u := true, t;
    var j := 0;
    while j < |deps|
      invariant j <= |deps|
      invariant u == EnterAll(t, node.id, deps[..j])
      invariant forall k :: 0 <= k < j ==> deps[k] in byId
    {
      if deps[j] !in byId {
        assert deps[j] in Elements(deps);
        known := false;
        return;
      }
      assert deps[..j + 1][..|deps[..j + 1]| - 1] == deps[..j];
      u := Tables(u.children[deps[j] := Lookup(u.children, deps[j]) + [node.id]],
                  u.indegree[node.id := u.indegree[node.id] + 1]);
      j := j + 1;
    }
    assert deps[..j] == deps;
  }

  /** The outer loop. */
  method AddNodes(nodes: seq<TaskNode>, byId: map<NodeId, TaskNode>, empty: Tables) returns (known: bool, t: Tables)
    requires Covered(empty, nodes)
    ensures known <==> KnownUpTo(nodes, |nodes|, byId)
    ensures known ==> t == EnterNodes(empty, nodes, |nodes|)
  {
    known, t := true, empty;
    var i := 0;
    while i < |nodes|
      invariant i <= |nodes|
      invariant t == EnterNodes(empty, nodes, i)
      invariant KnownUpTo(nodes, i, byId)
    {
      known, t := AddNode(nodes[i], byId, t);
      if !known {
        return;
      }
      i := i + 1;
    }
  }

  /** The table-building half of both constructors: fails on repeated ids or unknown dependencies. */
  method BuildTables(nodes: seq<TaskNode>) returns (r: Result<Tables, GraphError>)
    ensures r.Ok? <==> WellFormed(nodes)
    ensures r.Ok? ==> ChildrenTable(nodes, r.value.children) && r.value.indegree == InitialDegrees(nodes)
    ensures r.Err? ==> r.error == if !DistinctIds(nodes) then DuplicateId else UnknownDependency
  {
    var byId := ById(nodes);
    ByIdMembers(nodes);
    SizeDetectsDuplicates(nodes);
    if |byId| != |nodes| {
      return Err(DuplicateId);
    }
    var empty := EmptyTables(nodes);
    assert forall i :: 0 <= i < |nodes| ==> nodes[i] in nodes;
    var known, t := AddNodes(nodes, byId, empty);
    KnownByIndex(nodes);
    if !known {
      return Err(UnknownDependency);
    }
    TablesComplete(nodes, empty);
    r := Ok(t);
  }

  ghost predicate KnownUpTo(nodes: seq<TaskNode>, i: nat, byId: map<NodeId, TaskNode>) {
    forall k :: 0 <= k < i && k < |nodes| ==> Elements(nodes[k].dependencies) <= byId.Keys
  }

  lemma KnownByIndex(nodes: seq<TaskNode>)
    ensures KnownUpTo(nodes, |nodes|, ById(nodes)) <==> KnownDependencies(nodes)
  {
    if KnownUpTo(nodes, |nodes|, ById(nodes)) {
      forall n, d | n in nodes && d in n.dependencies ensures d in ById(nodes) {
        assert d in Elements(n.dependencies);
      }
    } else {
      var i :| 0 <= i < |nodes| && !(Elements(nodes[i].dependencies) <= ById(nodes).Keys);
      var d :| d in Elements(nodes[i].dependencies) && d !in ById(nodes);
      assert nodes[i] in nodes;
    }
  }

  /** Decrement the children of one processed node, queueing those that reach zero. */
  method ReleaseChildren(kids: seq<NodeId>, degrees: map<NodeId, int>, waiting: seq<NodeId>)
    returns (indegree: map<NodeId, int>, queue: seq<NodeId>)
    requires forall c :: c in kids ==> c in degrees
    ensures Frontier(indegree, queue) == Release(Frontier(degrees, waiting), kids)
  {
    indegree, queue := degrees, waiting;
    var j := 0;
    while j < |kids|
      invariant j <= |kids|
      invariant forall c :: c in kids[..j] ==> c in degrees
      invariant Frontier(indegree, queue) == Release(Frontier(degrees, waiting), kids[..j])
    {
      var child := kids[j];
      assert kids[..j + 1][..|kids[..j + 1]| - 1] == kids[..j];
      indegree := indegree[child := indegree[child] - 1];
      if indegree[child] == 0 {
        queue := queue + [child];
      }
      j := j + 1;
    }
    assert kids[..j] == kids;
  }

  /** agentfabric/collaboration/dependency_graph.py */
  class DependencyGraph {
    const nodes: seq<TaskNode>
    var children: Table
    var indegree: map<NodeId, int>

    ghost predicate Valid()
      reads this
    {
      WellFormed(nodes) && ChildrenTable(nodes, children) && indegree == InitialDegrees(nodes)
    }

    constructor (nodes: seq<TaskNode>, children: Table, indegree: map<NodeId, int>)
      requires WellFormed(nodes) && ChildrenTable(nodes, children) && indegree == InitialDegrees(nodes)
      ensures this.nodes == nodes && Valid()
    {
      this.nodes, this.children, this.indegree := nodes, children, indegree;
    }

    /** Refuses exactly the cyclic graphs; otherwise every batch is the set of nodes whose
        longest dependency chain has that length. */
    method TopologicalBatches() returns (r: Result<seq<seq<NodeId>>, GraphError>)
      requires Valid()
      ensures r == BatchesOf(nodes)
      ensures r.Err? <==> Cyclic(EdgesOf(nodes))
      ensures r.Ok? ==> IsSchedule(nodes, r.value) && InQueueOrder(nodes, Flatten(r.value))
    {
      ByIdMembers(nodes);
      var degrees := indegree;
      var queue := Roots(nodes, degrees);
      var batches := [];
      var visited := 0;
      ghost var expected := Layers(nodes, InitialFrontier(nodes));
      assert [] + expected == expected;
      while queue != []
        invariant degrees.Keys == ById(nodes).Keys
        invariant batches + Layers(nodes, Frontier(degrees, queue)) == expected
        invariant visited == |Flatten(batches)|
        decreases Potential(Frontier(degrees, queue))
      {
        var current := queue;
        ghost var f := Frontier(degrees, queue);
        LayersUnfold(nodes, batches, f);
        FlattenSnoc(batches, current);
        queue := [];
        batches := batches + [current];
        var i := 0;
        while i < |current|
          invariant i <= |current|
          invariant degrees.Keys == ById(nodes).Keys
          invariant visited == |Flatten(batches)| - |current| + i
          invariant ReleaseAll(nodes, Frontier(degrees, queue), current[i..]) == NextLayer(nodes, f)
        {
          visited := visited + 1;
          var kids := Lookup(children, current[i]);
          ChildrenKnown(nodes, current[i]);
          assert current[i..][1..] == current[i + 1..];
          degrees, queue := ReleaseChildren(kids, degrees, queue);
          i := i + 1;
        }
      }
      assert batches == expected;
      BatchesTheorem(nodes);
      OrderTheorem(nodes);
      SizeDetectsDuplicates(nodes);
      if visited != |ById(nodes)| {
        return Err(ContainsCycle);
      }
      r := Ok(batches);
    }
  }

  method BuildGraph(nodes: seq<TaskNode>) returns (r: Result<DependencyGraph, GraphError>)
    ensures r.Ok? <==> WellFormed(nodes)
    ensures r.Ok? ==> fresh(r.value) && r.value.nodes == nodes && r.value.Valid()
    ensures r.Err? ==> r.error == if !DistinctIds(nodes) then DuplicateId else UnknownDependency
  {
    var tables := BuildTables(nodes);
    match tables
    case Err(e) =>
      return Err(e);
    case Ok(t) =>
      var graph := new DependencyGraph(nodes, t.children, t.indegree);
      return Ok(graph);
  }

  lemma FifoUnfold(nodes: seq<TaskNode>, order: seq<NodeId>, f: Frontier)
    requires Covers(nodes, f) && f.queue != []
    ensures order + Fifo(nodes, f) == (order + [f.queue[0]]) + Fifo(nodes, PopFront(nodes, f))
  {
    var rest := Fifo(nodes, PopFront(nodes, f));
    assert Fifo(nodes, f) == [f.queue[0]] + rest;
    ConcatAssociates(order, f.queue[0], rest);
  }

  lemma ConcatAssociates(order: seq<NodeId>, id: NodeId, rest: seq<NodeId>)
    ensures order + ([id] + rest) == (order + [id]) + rest
  {
  }

  /** The queue loop of the sequential sort. */
  method DrainQueue(nodes: seq<TaskNode>, children: Table, start: map<NodeId, int>) returns (order: seq<NodeId>)
    requires WellFormed(nodes) && ChildrenTable(nodes, children) && start == InitialDegrees(nodes)
    ensures order == Fifo(nodes, InitialFrontier(nodes))
  {
    ByIdMembers(nodes);
    var degrees := start;
    var queue := Roots(nodes, degrees);
    order := [];
    ghost var expected := Fifo(nodes, InitialFrontier(nodes));
    assert order + expected == expected;
    while queue != []
      invariant degrees.Keys == ById(nodes).Keys
      invariant order + Fifo(nodes, Frontier(degrees, queue)) == expected
      decreases Potential(Frontier(degrees, queue))
    {
      FifoUnfold(nodes, order, Frontier(degrees, queue));
      var node := queue[0];
      order := order + [node];
      ChildrenKnown(nodes, node);
      degrees, queue := ReleaseChildren(Lookup(children, node), degrees, queue[1..]);
    }
    assert order + [] == order;
  }

  /** `WorkflowEngine._topological_sort`: refuses the same graphs as the layered sort and
      lists the nodes in the order of its batches. */
  method TopologicalSort(nodes: seq<TaskNode>) returns (r: Result<seq<NodeId>, GraphError>)
    ensures r == SortOf(nodes)
    ensures r.Ok? ==> BatchesOf(nodes).Ok? && r.value == Flatten(BatchesOf(nodes).value)
    ensures r.Err? ==> BatchesOf(nodes) == Err(r.error)
    ensures r.Ok? <==> WellFormed(nodes) && !Cyclic(EdgesOf(nodes))
    ensures r.Ok? ==>
      Distinct(r.value) && Elements(r.value) == ById(nodes).Keys && InQueueOrder(nodes, r.value)
  {
    SortsAgree(nodes);
    OrderTheorem(nodes);
    if WellFormed(nodes) {
      BatchesTheorem(nodes);
    }
    var tables := BuildTables(nodes);
    if tables.Err? {
      return Err(tables.error);
    }
    var order := DrainQueue(nodes, tables.value.children, tables.value.indegree);
    if |order| != |nodes| {
      return Err(ContainsCycle);
    }
    r := Ok(order);
  }
}
