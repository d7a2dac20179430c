/** Task graphs as the engines receive them, and the two derived tables both topological
    sorts start from: who waits for a node (`Children`) and how many dependency
    entries of a node are still unmet (`Unmet`). */
module TaskGraphs {
  import opened Digraphs

  type NodeId = Name

  datatype TaskNode = TaskNode(
    id: NodeId,
    agent: string,
    dependencies: seq<NodeId>,
    maxRetries: nat,
    requiresApproval: bool)

  datatype GraphError = DuplicateId | UnknownDependency | ContainsCycle

  datatype Result<+T, +E> = Ok(value: T) | Err(error: E)

  /** The dictionary keyed by node id; a later node with the same id replaces an earlier one. */
  function ById(nodes: seq<TaskNode>): map<NodeId, TaskNode> {
    if nodes == [] then map[] else ById(nodes[..|nodes| - 1])[nodes[|nodes| - 1].id := nodes[|nodes| - 1]]
  }

  ghost predicate DistinctIds(nodes: seq<TaskNode>) {
    forall i, j :: 0 <= i < j < |nodes| ==> nodes[i].id != nodes[j].id
  }

  ghost predicate KnownDependencies(nodes: seq<TaskNode>) {
    forall n, d :: n in nodes && d in n.dependencies ==> d in ById(nodes)
  }

  /** What the constructors of both engines insist on. */
  ghost predicate WellFormed(nodes: seq<TaskNode>) {
    DistinctIds(nodes) && KnownDependencies(nodes)
  }

  function EdgesOf(nodes: seq<TaskNode>): Edges {
    var byId := ById(nodes);
    map id | id in byId :: Elements(byId[id].dependencies)
  }

  lemma {:induction false} ByIdMembers(nodes: seq<TaskNode>)
    ensures forall id :: id in ById(nodes) ==> ById(nodes)[id] in nodes && ById(nodes)[id].id == id
    ensures forall n :: n in nodes ==> n.id in ById(nodes)
    ensures DistinctIds(nodes) ==> forall n :: n in nodes ==> ById(nodes)[n.id] == n
  {
    if nodes != [] {
      var init, last := nodes[..|nodes| - 1], nodes[|nodes| - 1];
      ByIdMembers(init);
      assert nodes == init + [last];
    }
  }

  function Ids(nodes: seq<TaskNode>): seq<NodeId> {
    seq(|nodes|, i requires 0 <= i < |nodes| => nodes[i].id)
  }

  lemma IdsAreKeys(nodes: seq<TaskNode>)
    ensures ById(nodes).Keys == Elements(Ids(nodes))
  {
    ByIdMembers(nodes);
    forall id | id in Ids(nodes) ensures id in ById(nodes) {
      var i :| 0 <= i < |Ids(nodes)| && Ids(nodes)[i] == id;
      assert nodes[i] in nodes;
    }
    forall id | id in ById(nodes) ensures id in Ids(nodes) {
      var i :| 0 <= i < |nodes| && nodes[i] == ById(nodes)[id];
      assert Ids(nodes)[i] == id;
    }
  }

  /** The size test at the head of both constructors detects exactly the repeated ids. */
  lemma SizeDetectsDuplicates(nodes: seq<TaskNode>)
    ensures |ById(nodes)| <= |nodes|
    ensures |ById(nodes)| == |nodes| <==> DistinctIds(nodes)
  {
    IdsAreKeys(nodes);
    DistinctCardinality(Ids(nodes));
    assert |ById(nodes)| == |ById(nodes).Keys|;
    assert DistinctIds(nodes) <==> Distinct(Ids(nodes)) by {
      assert forall i :: 0 <= i < |nodes| ==> Ids(nodes)[i] == nodes[i].id;
    }
  }

  function Count(x: NodeId, s: seq<NodeId>): nat {
    if s == [] then 0 else Count(x, s[..|s| - 1]) + if s[|s| - 1] == x then 1 else 0
  }

  lemma {:induction false} CountZero(x: NodeId, s: seq<NodeId>)
    ensures Count(x, s) == 0 <==> x !in s
  {
    if s != [] {
      CountZero(x, s[..|s| - 1]);
      assert s == s[..|s| - 1] + [s[|s| - 1]];
    }
  }

  lemma {:induction false} CountConcat(x: NodeId, a: seq<NodeId>, b: seq<NodeId>)
    ensures Count(x, a + b) == Count(x, a) + Count(x, b)
  {
    if b == [] {
      assert a + b == a;
    } else {
      CountConcat(x, a, b[..|b| - 1]);
      assert (a + b)[..|a + b| - 1] == a + b[..|b| - 1];
    }
  }

  /** Dependency entries (with multiplicity) that are not in `done`. */
  function Unmet(dependencies: seq<NodeId>, done: set<NodeId>): nat {
    if dependencies == [] then
      0
    else
      Unmet(dependencies[..|dependencies| - 1], done)
      + if dependencies[|dependencies| - 1] in done then 0 else 1
  }

  lemma {:induction false} UnmetZero(dependencies: seq<NodeId>, done: set<NodeId>)
    ensures Unmet(dependencies, done) == 0 <==> Elements(dependencies) <= done
  {
    if dependencies != [] {
      var init := dependencies[..|dependencies| - 1];
      UnmetZero(init, done);
      assert dependencies == init + [dependencies[|dependencies| - 1]];
      assert Elements(dependencies) == Elements(init) + {dependencies[|dependencies| - 1]};
    }
  }

  lemma {:induction false} UnmetStep(dependencies: seq<NodeId>, done: set<NodeId>, x: NodeId)
    requires x !in done
    ensures Unmet(dependencies, done + {x}) == Unmet(dependencies, done) - Count(x, dependencies)
  {
    if dependencies != [] {
      UnmetStep(dependencies[..|dependencies| - 1], done, x);
    }
  }

  function Repeat(x: NodeId, n: nat): seq<NodeId> {
    if n == 0 then [] else Repeat(x, n - 1) + [x]
  }

  /** The nodes that list `d`, in graph order, once for every time they list it. */
  function Children(nodes: seq<TaskNode>, d: NodeId): seq<NodeId> {
    if nodes == [] then
      []
    else
      Children(nodes[..|nodes| - 1], d)
      + Repeat(nodes[|nodes| - 1].id, Count(d, nodes[|nodes| - 1].dependencies))
  }

  lemma {:induction false} CountRepeat(x: NodeId, y: NodeId, n: nat)
    ensures Count(x, Repeat(y, n)) == if x == y then n else 0
  {
    if n > 0 {
      CountRepeat(x, y, n - 1);
      assert Repeat(y, n)[..|Repeat(y, n)| - 1] == Repeat(y, n - 1);
    }
  }

  /** A child occurs among the children of `d` exactly as often as it lists `d`. */
  lemma {:induction false} ChildrenCount(nodes: seq<TaskNode>, d: NodeId, c: NodeId)
    requires DistinctIds(nodes)
    ensures Count(c, Children(nodes, d)) == if c in ById(nodes) then Count(d, ById(nodes)[c].dependencies) else 0
  {
    if nodes != [] {
      var init, last := nodes[..|nodes| - 1], nodes[|nodes| - 1];
      ChildrenCount(init, d, c);
      CountConcat(c, Children(init, d), Repeat(last.id, Count(d, last.dependencies)));
      CountRepeat(c, last.id, Count(d, last.dependencies));
      ByIdMembers(init);
    }
  }

  lemma ChildrenKnown(nodes: seq<TaskNode>, d: NodeId)
    requires DistinctIds(nodes)
    ensures forall c :: c in Children(nodes, d) ==> c in ById(nodes)
  {
    forall c | c in Children(nodes, d) ensures c in ById(nodes) {
      ChildrenCount(nodes, d, c);
      CountZero(c, Children(nodes, d));
    }
  }
}
