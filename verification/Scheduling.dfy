/** Both topological sorts of the repository, as functions of the task graph.

    `Layers` is the layered sort of agentfabric/collaboration/dependency_graph.py, `Fifo` the
    queue sort of agentfabric/phase3/workflow.py.  `Frontier` is the state they share: the
    counters of unmet dependency entries and the queue of released nodes. */
module Scheduling {
  import opened Digraphs
  import opened TaskGraphs

  datatype Frontier = Frontier(indegree: map<NodeId, int>, queue: seq<NodeId>)

  /** Decrement every listed child once; a counter that reaches zero puts its node on the queue. */
  function Release(f: Frontier, kids: seq<NodeId>): Frontier
    requires forall c :: c in kids ==> c in f.indegree
    ensures Release(f, kids).indegree.Keys == f.indegree.Keys
  {
    if kids == [] then
      f
    else
      var g := Release(f, kids[..|kids| - 1]);
      ReleaseOne(g, kids[|kids| - 1])
  }

  function ReleaseOne(f: Frontier, c: NodeId): Frontier
    requires c in f.indegree
    ensures ReleaseOne(f, c).indegree.Keys == f.indegree.Keys
  {
    var left := f.indegree[c] - 1;
    Frontier(f.indegree[c := left], if left == 0 then f.queue + [c] else f.queue)
  }

  ghost predicate Covers(nodes: seq<TaskNode>, f: Frontier) {
    DistinctIds(nodes) && f.indegree.Keys == ById(nodes).Keys
  }

  function ReleaseAll(nodes: seq<TaskNode>, f: Frontier, current: seq<NodeId>): Frontier
    requires Covers(nodes, f)
    ensures Covers(nodes, ReleaseAll(nodes, f, current))
    decreases |current|
  {
    if current == [] then
      f
    else
      ChildrenKnown(nodes, current[0]);
      ReleaseAll(nodes, Release(f, Children(nodes, current[0])), current[1..])
  }

  // ---------------------------------------------------------------- termination

  function Positive(f: Frontier): set<NodeId> {
    set n | n in f.indegree && f.indegree[n] > 0
  }

  /** Nodes still blocked plus nodes queued; releasing children only moves nodes across. */
  function Potential(f: Frontier): nat {
    |Positive(f)| + |f.queue|
  }

  lemma ReleaseOneKeepsPotential(f: Frontier, c: NodeId)
    requires c in f.indegree
    ensures Potential(ReleaseOne(f, c)) == Potential(f)
  {
    var g := ReleaseOne(f, c);
    if f.indegree[c] == 1 {
      assert Positive(g) == Positive(f) - {c};
    } else {
      assert Positive(g) == Positive(f);
    }
  }

  lemma {:induction false} ReleaseKeepsPotential(f: Frontier, kids: seq<NodeId>)
    requires forall c :: c in kids ==> c in f.indegree
    ensures Potential(Release(f, kids)) == Potential(f)
  {
    if kids != [] {
      ReleaseKeepsPotential(f, kids[..|kids| - 1]);
      ReleaseOneKeepsPotential(Release(f, kids[..|kids| - 1]), kids[|kids| - 1]);
    }
  }

  lemma {:induction false} ReleaseAllKeepsPotential(nodes: seq<TaskNode>, f: Frontier, current: seq<NodeId>)
    requires Covers(nodes, f)
    ensures Potential(ReleaseAll(nodes, f, current)) == Potential(f)
    decreases |current|
  {
    if current != [] {
      ChildrenKnown(nodes, current[0]);
      ReleaseKeepsPotential(f, Children(nodes, current[0]));
      ReleaseAllKeepsPotential(nodes, Release(f, Children(nodes, current[0])), current[1..]);
    }
  }

  // ---------------------------------------------------------------- the two sorts

  function NextLayer(nodes: seq<TaskNode>, f: Frontier): (g: Frontier)
    requires Covers(nodes, f)
    ensures Covers(nodes, g) && Potential(g) == Potential(f) - |f.queue|
  {
    ReleaseAllKeepsPotential(nodes, f.(queue := []), f.queue);
    assert Positive(f.(queue := [])) == Positive(f);
    ReleaseAll(nodes, f.(queue := []), f.queue)
  }

  function Layers(nodes: seq<TaskNode>, f: Frontier): seq<seq<NodeId>>
    requires Covers(nodes, f)
    decreases Potential(f)
  {
    if f.queue == [] then [] else [f.queue] + Layers(nodes, NextLayer(nodes, f))
  }

  function PopFront(nodes: seq<TaskNode>, f: Frontier): (g: Frontier)
    requires Covers(nodes, f) && f.queue != []
    ensures Covers(nodes, g) && Potential(g) == Potential(f) - 1
  {
    ChildrenKnown(nodes, f.queue[0]);
    ReleaseKeepsPotential(f.(queue := f.queue[1..]), Children(nodes, f.queue[0]));
    assert Positive(f.(queue := f.queue[1..])) == Positive(f);
    Release(f.(queue := f.queue[1..]), Children(nodes, f.queue[0]))
  }

  function Fifo(nodes: seq<TaskNode>, f: Frontier): seq<NodeId>
    requires Covers(nodes, f)
    decreases Potential(f)
  {
    if f.queue == [] then [] else [f.queue[0]] + Fifo(nodes, PopFront(nodes, f))
  }

  /** Ids whose counter is zero, in graph order. */
  function Roots(nodes: seq<TaskNode>, indegree: map<NodeId, int>): seq<NodeId>
    requires forall n :: n in nodes ==> n.id in indegree
  {
    if nodes == [] then
      []
    else
      Roots(nodes[..|nodes| - 1], indegree)
      + if indegree[nodes[|nodes| - 1].id] == 0 then [nodes[|nodes| - 1].id] else []
  }

  function InitialDegrees(nodes: seq<TaskNode>): map<NodeId, int> {
    var byId := ById(nodes);
    map id | id in byId :: |byId[id].dependencies|
  }

  function InitialFrontier(nodes: seq<TaskNode>): (f: Frontier)
    ensures f.indegree.Keys == ById(nodes).Keys
  {
    ByIdMembers(nodes);
    Frontier(InitialDegrees(nodes), Roots(nodes, InitialDegrees(nodes)))
  }

  function Flatten(layers: seq<seq<NodeId>>): seq<NodeId> {
    if layers == [] then [] else layers[0] + Flatten(layers[1..])
  }

  // ---------------------------------------------------------------- layered order = queue order

  lemma ReleaseOneBehindPrefix(f: Frontier, front: seq<NodeId>, c: NodeId)
    requires c in f.indegree
    ensures ReleaseOne(Frontier(f.indegree, front + f.queue), c)
         == Frontier(ReleaseOne(f, c).indegree, front + ReleaseOne(f, c).queue)
  {
    assert front + (f.queue + [c]) == (front + f.queue) + [c];
  }

  lemma {:induction false} ReleaseBehindPrefix(f: Frontier, front: seq<NodeId>, kids: seq<NodeId>)
    requires forall c :: c in kids ==> c in f.indegree
    ensures Release(Frontier(f.indegree, front + f.queue), kids)
         == Frontier(Release(f, kids).indegree, front + Release(f, kids).queue)
  {
    if kids != [] {
      ReleaseBehindPrefix(f, front, kids[..|kids| - 1]);
      ReleaseOneBehindPrefix(Release(f, kids[..|kids| - 1]), front, kids[|kids| - 1]);
    }
  }

  lemma PopBehindLayer(nodes: seq<TaskNode>, f: Frontier, x: NodeId, rest: seq<NodeId>, whole: Frontier, g: Frontier)
    requires Covers(nodes, f) && whole == Frontier(f.indegree, [x] + (rest + f.queue))
    requires forall c :: c in Children(nodes, x) ==> c in f.indegree
    requires g == Release(f, Children(nodes, x))
    ensures Covers(nodes, whole) && PopFront(nodes, whole) == Frontier(g.indegree, rest + g.queue)
  {
    assert whole.queue[0] == x && whole.queue[1..] == rest + f.queue;
    ReleaseBehindPrefix(f, rest, Children(nodes, x));
  }

  lemma FifoStep(nodes: seq<TaskNode>, whole: Frontier, x: NodeId, next: Frontier)
    requires Covers(nodes, whole) && whole.queue != [] && whole.queue[0] == x && next == PopFront(nodes, whole)
    ensures Fifo(nodes, whole) == [x] + Fifo(nodes, next)
  {
  }

  lemma ConsConcat(x: NodeId, rest: seq<NodeId>, tail: seq<NodeId>)
    ensures [x] + (rest + tail) == ([x] + rest) + tail
  {
  }

  /** Running the queue sort through a whole layer emits that layer and leaves the next one queued. */
  lemma {:induction false} FifoThroughLayer(nodes: seq<TaskNode>, f: Frontier, current: seq<NodeId>)
    requires Covers(nodes, f)
    ensures Fifo(nodes, Frontier(f.indegree, current + f.queue)) == current + Fifo(nodes, ReleaseAll(nodes, f, current))
    decreases |current|
  {
    if current == [] {
      assert current + f.queue == f.queue;
    } else {
      var x, rest := current[0], current[1..];
      assert current == [x] + rest;
      ChildrenKnown(nodes, x);
      var g := Release(f, Children(nodes, x));
      var whole := Frontier(f.indegree, [x] + (rest + f.queue));
      PopBehindLayer(nodes, f, x, rest, whole, g);
      FifoStep(nodes, whole, x, Frontier(g.indegree, rest + g.queue));
      FifoThroughLayer(nodes, g, rest);
      ConsConcat(x, rest, f.queue);
      ConsConcat(x, rest, Fifo(nodes, ReleaseAll(nodes, f, current)));
    }
  }

  lemma {:induction false} LayersFlattenToFifo(nodes: seq<TaskNode>, f: Frontier)
    requires Covers(nodes, f)
    ensures Flatten(Layers(nodes, f)) == Fifo(nodes, f)
    decreases Potential(f)
  {
    if f.queue != [] {
      var cleared := f.(queue := []);
      assert f == Frontier(cleared.indegree, f.queue + cleared.queue);
      FifoThroughLayer(nodes, cleared, f.queue);
      LayersFlattenToFifo(nodes, NextLayer(nodes, f));
      assert Layers(nodes, f)[1..] == Layers(nodes, NextLayer(nodes, f));
    }
  }

  // ---------------------------------------------------------------- what the counters mean

  /** Vertices outside `done` whose dependencies all lie inside it. */
  ghost function Ready(edges: Edges, done: set<NodeId>): set<NodeId> {
    set id | id in edges && id !in done && edges[id] <= done
  }

  /** The counters count entries outside `done`; `todo` and the queue hold exactly the ready nodes, once each. */
  ghost predicate Counting(nodes: seq<TaskNode>, f: Frontier, todo: seq<NodeId>, done: set<NodeId>) {
    && WellFormed(nodes)
    && CountersExact(nodes, f, done)
    && Distinct(todo + f.queue)
    && Elements(todo + f.queue) == Ready(EdgesOf(nodes), done)
    && Closed(EdgesOf(nodes), done)
  }

  ghost predicate CountersExact(nodes: seq<TaskNode>, f: Frontier, done: set<NodeId>) {
    && Covers(nodes, f)
    && forall id :: id in f.indegree ==> f.indegree[id] == Unmet(ById(nodes)[id].dependencies, done)
  }

  ghost predicate Closed(edges: Edges, done: set<NodeId>) {
    forall id :: id in done ==> id in edges && edges[id] <= done
  }

  /** Net effect of releasing a list of children: counters fall by the number of
      occurrences, and exactly those that were positive and are no longer get queued. */
  ghost predicate Effect(f: Frontier, kids: seq<NodeId>, g: Frontier, added: seq<NodeId>) {
    && g.indegree.Keys == f.indegree.Keys
    && g.queue == f.queue + added
    && (forall n :: n in f.indegree ==> g.indegree[n] == f.indegree[n] - Count(n, kids))
    && Distinct(added)
    && (forall n :: n in added <==> n in f.indegree && f.indegree[n] > 0 >= g.indegree[n])
  }

  lemma EffectOfOne(f: Frontier, kids: seq<NodeId>, g: Frontier, before: seq<NodeId>) returns (added: seq<NodeId>)
    requires kids != [] && kids[|kids| - 1] in f.indegree
    requires Effect(f, kids[..|kids| - 1], g, before)
    ensures Effect(f, kids, ReleaseOne(g, kids[|kids| - 1]), added)
  {
    var c := kids[|kids| - 1];
    if g.indegree[c] == 1 {
      added := before + [c];
      assert f.queue + added == g.queue + [c];
      assert c !in before;
    } else {
      added := before;
    }
  }

  lemma {:induction false} ReleaseEffect(f: Frontier, kids: seq<NodeId>) returns (added: seq<NodeId>)
    requires forall c :: c in kids ==> c in f.indegree
    ensures Effect(f, kids, Release(f, kids), added)
  {
    if kids == [] {
      added := [];
      assert f.queue + added == f.queue;
    } else {
      var before := ReleaseEffect(f, kids[..|kids| - 1]);
      added := EffectOfOne(f, kids, Release(f, kids[..|kids| - 1]), before);
    }
  }

  /** Dropping the head of a duplicate-free list and adding new elements at its end. */
  lemma ShiftDistinct(all: seq<NodeId>, added: seq<NodeId>)
    requires all != [] && Distinct(all) && Distinct(added)
    requires forall n :: n in added ==> n !in all
    ensures Distinct(all[1..] + added)
    ensures Elements(all[1..] + added) == Elements(all) - {all[0]} + Elements(added)
  {
    var rest := all[1..];
    TailElements(all);
    DistinctConcat(rest, added);
  }

  lemma TailElements(all: seq<NodeId>)
    requires all != [] && Distinct(all)
    ensures Distinct(all[1..]) && Elements(all[1..]) == Elements(all) - {all[0]}
  {
    assert all == [all[0]] + all[1..];
    assert forall i :: 0 <= i < |all[1..]| ==> all[1..][i] == all[i + 1];
  }

  lemma DistinctConcat(a: seq<NodeId>, b: seq<NodeId>)
    requires Distinct(a) && Distinct(b) && Elements(a) !! Elements(b)
    ensures Distinct(a + b) && Elements(a + b) == Elements(a) + Elements(b)
  {
    assert forall i :: 0 <= i < |a| ==> a[i] in Elements(a);
    assert forall i :: 0 <= i < |b| ==> b[i] in Elements(b);
  }

  /** Processing one ready node moves it to `done` and keeps the counters exact. */
  lemma CountingStep(nodes: seq<TaskNode>, f: Frontier, todo: seq<NodeId>, done: set<NodeId>)
    requires Counting(nodes, f, todo, done) && todo != []
    requires forall c :: c in Children(nodes, todo[0]) ==> c in f.indegree
    ensures Counting(nodes, Release(f, Children(nodes, todo[0])), todo[1..], done + {todo[0]})
  {
    var added := ReleaseEffect(f, Children(nodes, todo[0]));
    var g := Release(f, Children(nodes, todo[0]));
    assert (todo + f.queue)[0] == todo[0] && todo[0] in Elements(todo + f.queue);
    CountersStep(nodes, f, g, added, todo[0], done);
    CountingShift(nodes, f, g, todo, added, done);
  }

  lemma CountingShift(
    nodes: seq<TaskNode>, f: Frontier, g: Frontier, todo: seq<NodeId>, added: seq<NodeId>, done: set<NodeId>)
    requires Counting(nodes, f, todo, done) && todo != []
    requires g.queue == f.queue + added && Distinct(added)
    requires CountersExact(nodes, g, done + {todo[0]})
    requires forall n :: n in added <==> n in f.indegree && f.indegree[n] > 0 >= g.indegree[n]
    ensures Counting(nodes, g, todo[1..], done + {todo[0]})
  {
    var x := todo[0];
    var all := todo + f.queue;
    assert all[0] == x && x in Elements(all);
    NewlyReady(nodes, f, g, added, x, done);
    assert forall n :: n in added ==> n !in Elements(all);
    ShiftDistinct(all, added);
    assert todo[1..] + g.queue == all[1..] + added;
  }

  lemma CountersStep(nodes: seq<TaskNode>, f: Frontier, g: Frontier, added: seq<NodeId>, x: NodeId, done: set<NodeId>)
    requires WellFormed(nodes) && CountersExact(nodes, f, done) && x !in done
    requires Effect(f, Children(nodes, x), g, added)
    ensures CountersExact(nodes, g, done + {x})
  {
    forall id | id in g.indegree
      ensures g.indegree[id] == Unmet(ById(nodes)[id].dependencies, done + {x})
    {
      ChildrenCount(nodes, x, id);
      UnmetStep(ById(nodes)[id].dependencies, done, x);
    }
  }

  lemma NewlyReady(nodes: seq<TaskNode>, f: Frontier, g: Frontier, added: seq<NodeId>, x: NodeId, done: set<NodeId>)
    requires WellFormed(nodes) && Closed(EdgesOf(nodes), done)
    requires CountersExact(nodes, f, done) && CountersExact(nodes, g, done + {x})
    requires x in Ready(EdgesOf(nodes), done)
    requires forall n :: n in added <==> n in f.indegree && f.indegree[n] > 0 >= g.indegree[n]
    ensures Ready(EdgesOf(nodes), done + {x}) == Ready(EdgesOf(nodes), done) - {x} + Elements(added)
    ensures forall n :: n in added ==> n !in Ready(EdgesOf(nodes), done)
    ensures Closed(EdgesOf(nodes), done + {x})
  {
    var edges := EdgesOf(nodes);
    forall n | n in edges
      ensures n in Ready(edges, done + {x}) <==> n in Ready(edges, done) - {x} || n in added
      ensures n in added ==> n !in Ready(edges, done)
    {
      UnmetZero(ById(nodes)[n].dependencies, done);
      UnmetZero(ById(nodes)[n].dependencies, done + {x});
    }
  }

  lemma {:induction false} RootsMembers(nodes: seq<TaskNode>, indegree: map<NodeId, int>)
    requires DistinctIds(nodes)
    requires forall n :: n in nodes ==> n.id in indegree
    ensures Distinct(Roots(nodes, indegree))
    ensures forall id :: id in Roots(nodes, indegree) <==> id in ById(nodes) && id in indegree && indegree[id] == 0
  {
    if nodes != [] {
      var init, last := nodes[..|nodes| - 1], nodes[|nodes| - 1];
      RootsMembers(init, indegree);
      ByIdMembers(init);
      assert last.id !in ById(init);
    }
  }

  lemma {:induction false} UnmetOfNothing(dependencies: seq<NodeId>)
    ensures Unmet(dependencies, {}) == |dependencies|
  {
    if dependencies != [] {
      UnmetOfNothing(dependencies[..|dependencies| - 1]);
    }
  }

  lemma InitialCounting(nodes: seq<TaskNode>)
    requires WellFormed(nodes)
    ensures Counting(nodes, InitialFrontier(nodes), [], {})
  {
    var f := InitialFrontier(nodes);
    forall id | id in f.indegree ensures f.indegree[id] == Unmet(ById(nodes)[id].dependencies, {}) {
      UnmetOfNothing(ById(nodes)[id].dependencies);
    }
    ByIdMembers(nodes);
    RootsMembers(nodes, InitialDegrees(nodes));
    assert [] + f.queue == f.queue;
    forall id | id in ById(nodes)
      ensures ById(nodes)[id].dependencies == [] <==> EdgesOf(nodes)[id] <= {}
    {
      if ById(nodes)[id].dependencies != [] {
        assert ById(nodes)[id].dependencies[0] in EdgesOf(nodes)[id];
      }
    }
  }

  lemma {:induction false} CountingThroughLayer(nodes: seq<TaskNode>, f: Frontier, todo: seq<NodeId>, done: set<NodeId>)
    requires Counting(nodes, f, todo, done)
    ensures Counting(nodes, ReleaseAll(nodes, f, todo), [], done + Elements(todo))
    decreases |todo|
  {
    if todo == [] {
      assert done + Elements(todo) == done;
    } else {
      ChildrenKnown(nodes, todo[0]);
      CountingStep(nodes, f, todo, done);
      CountingThroughLayer(nodes, Release(f, Children(nodes, todo[0])), todo[1..], done + {todo[0]});
      assert done + {todo[0]} + Elements(todo[1..]) == done + Elements(todo);
    }
  }

  // ---------------------------------------------------------------- what the layers are

  /** Everything in the first `k` layers. */
  ghost function Before(layers: seq<seq<NodeId>>, k: nat): set<NodeId>
    requires k <= |layers|
  {
    if k == 0 then {} else Before(layers, k - 1) + Elements(layers[k - 1])
  }

  /** Every layer is exactly the set of nodes that become ready after the previous ones. */
  ghost predicate ReadyLayers(edges: Edges, layers: seq<seq<NodeId>>) {
    forall k {:trigger ReadyLayer(edges, layers[k], Before(layers, k))} :: 0 <= k < |layers| ==>
      ReadyLayer(edges, layers[k], Before(layers, k))
  }

  ghost predicate ReadyLayer(edges: Edges, layer: seq<NodeId>, done: set<NodeId>) {
    layer != [] && Distinct(layer) && Elements(layer) == Ready(edges, done)
  }

  lemma {:induction false} BeforePrefix(layers: seq<seq<NodeId>>, more: seq<seq<NodeId>>, k: nat)
    requires k <= |layers|
    ensures Before(layers + more, k) == Before(layers, k)
  {
    if k > 0 {
      BeforePrefix(layers, more, k - 1);
    }
  }

  lemma ReadyLayerStays(edges: Edges, past: seq<seq<NodeId>>, layer: seq<NodeId>, now: seq<seq<NodeId>>, k: nat)
    requires ReadyLayers(edges, past) && now == past + [layer] && k < |now|
    requires ReadyLayer(edges, layer, Before(past, |past|))
    ensures ReadyLayer(edges, now[k], Before(now, k))
  {
    BeforePrefix(past, [layer], k);
    if k < |past| {
      assert now[k] == past[k];
      assert ReadyLayer(edges, past[k], Before(past, k));
    }
  }

  lemma ReadyLayersExtend(edges: Edges, past: seq<seq<NodeId>>, layer: seq<NodeId>)
    requires ReadyLayers(edges, past)
    requires ReadyLayer(edges, layer, Before(past, |past|))
    ensures ReadyLayers(edges, past + [layer])
    ensures Before(past + [layer], |past| + 1) == Before(past, |past|) + Elements(layer)
  {
    var now := past + [layer];
    forall k | 0 <= k < |now| ensures ReadyLayer(edges, now[k], Before(now, k)) {
      ReadyLayerStays(edges, past, layer, now, k);
    }
    BeforePrefix(past, [layer], |past|);
  }

  /** Ready layers that leave nothing ready behind. */
  ghost predicate CompleteLayers(edges: Edges, layers: seq<seq<NodeId>>) {
    ReadyLayers(edges, layers) && Ready(edges, Before(layers, |layers|)) == {}
  }

  lemma {:induction false} LayersAreReady(
    nodes: seq<TaskNode>, past: seq<seq<NodeId>>, f: Frontier, all: seq<seq<NodeId>>)
    requires Counting(nodes, f, [], Before(past, |past|))
    requires ReadyLayers(EdgesOf(nodes), past)
    requires all == past + Layers(nodes, f)
    ensures CompleteLayers(EdgesOf(nodes), all)
    decreases Potential(f)
  {
    if f.queue == [] {
      NothingReady(nodes, f, Before(past, |past|));
      assert all == past;
    } else {
      var now, g := past + [f.queue], NextLayer(nodes, f);
      LayerStep(nodes, past, f, now, g);
      LayersUnfold(nodes, past, f);
      LayersAreReady(nodes, now, g, all);
    }
  }

  lemma NothingReady(nodes: seq<TaskNode>, f: Frontier, done: set<NodeId>)
    requires Counting(nodes, f, [], done) && f.queue == []
    ensures Ready(EdgesOf(nodes), done) == {}
  {
    assert [] + f.queue == [];
  }

  lemma LayerStep(nodes: seq<TaskNode>, past: seq<seq<NodeId>>, f: Frontier, now: seq<seq<NodeId>>, g: Frontier)
    requires f.queue != []
    requires Counting(nodes, f, [], Before(past, |past|))
    requires ReadyLayers(EdgesOf(nodes), past)
    requires now == past + [f.queue] && g == NextLayer(nodes, f)
    ensures Counting(nodes, g, [], Before(now, |now|))
    ensures ReadyLayers(EdgesOf(nodes), now)
  {
    var cleared := f.(queue := []);
    assert [] + f.queue == f.queue == f.queue + cleared.queue;
    CountingThroughLayer(nodes, cleared, f.queue, Before(past, |past|));
    ReadyLayersExtend(EdgesOf(nodes), past, f.queue);
  }

  lemma LayersUnfold(nodes: seq<TaskNode>, past: seq<seq<NodeId>>, f: Frontier)
    requires Covers(nodes, f) && f.queue != []
    ensures past + Layers(nodes, f) == (past + [f.queue]) + Layers(nodes, NextLayer(nodes, f))
  {
    var rest := Layers(nodes, NextLayer(nodes, f));
    assert Layers(nodes, f) == [f.queue] + rest;
    LayersAssociate(past, f.queue, rest);
  }

  lemma LayersAssociate(past: seq<seq<NodeId>>, layer: seq<NodeId>, rest: seq<seq<NodeId>>)
    ensures past + ([layer] + rest) == (past + [layer]) + rest
  {
  }
}
