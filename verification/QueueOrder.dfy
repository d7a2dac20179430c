/** The order of the two sorts, told without running them: a node is queued when the last of its
    dependencies is popped, and nodes released together line up as the graph lists them. */
module QueueOrder {
  import opened Digraphs
  import opened TaskGraphs
  import opened Scheduling

  /** Index of the first occurrence, or the length if there is none. */
  function Position(s: seq<NodeId>, id: NodeId): nat {
    if s == [] then 0
    else if id in s[..|s| - 1] then Position(s[..|s| - 1], id)
    else if s[|s| - 1] == id then |s| - 1
    else |s|
  }

  /** Where the last of these dependencies stands in the order; minus one if there are none. */
  function LastDependency(order: seq<NodeId>, dependencies: seq<NodeId>): int {
    if dependencies == [] then
      -1
    else
      var rest := LastDependency(order, dependencies[..|dependencies| - 1]);
      var last := Position(order, dependencies[|dependencies| - 1]);
      if rest < last then last else rest
  }

  function Released(nodes: seq<TaskNode>, order: seq<NodeId>, id: NodeId): int
    requires id in ById(nodes)
  {
    LastDependency(order, ById(nodes)[id].dependencies)
  }

  /** Released earlier, or at the same moment and listed earlier. */
  predicate Earlier(nodes: seq<TaskNode>, order: seq<NodeId>, x: NodeId, y: NodeId)
    requires x in ById(nodes) && y in ById(nodes)
  {
    || Released(nodes, order, x) < Released(nodes, order, y)
    || (Released(nodes, order, x) == Released(nodes, order, y) && Position(Ids(nodes), x) < Position(Ids(nodes), y))
  }

  /** The node exists and all it depends on is among these. */
  ghost predicate Met(nodes: seq<TaskNode>, done: seq<NodeId>, id: NodeId) {
    id in ById(nodes) && Elements(ById(nodes)[id].dependencies) <= Elements(done)
  }

  /** Every node comes after its dependencies, and the nodes are sorted by the moment of their release. */
  ghost predicate InQueueOrder(nodes: seq<TaskNode>, order: seq<NodeId>) {
    && (forall i :: 0 <= i < |order| ==> Met(nodes, order[..i], order[i]))
    && (forall i, j :: 0 <= i < j < |order| ==>
          order[i] in ById(nodes) && order[j] in ById(nodes) && Earlier(nodes, order, order[i], order[j]))
  }

  // ---------------------------------------------------------------- positions

  lemma {:induction false} PositionBounds(s: seq<NodeId>, id: NodeId)
    ensures Position(s, id) <= |s|
    ensures id in s <==> Position(s, id) < |s|
    ensures id in s ==> s[Position(s, id)] == id
  {
    if s != [] {
      PositionBounds(s[..|s| - 1], id);
      assert s == s[..|s| - 1] + [s[|s| - 1]];
    }
  }

  lemma PositionSnoc(s: seq<NodeId>, x: NodeId, id: NodeId)
    ensures id in s ==> Position(s + [x], id) == Position(s, id)
    ensures x !in s ==> Position(s + [x], x) == |s|
  {
    assert (s + [x])[..|s + [x]| - 1] == s;
  }

  lemma {:induction false} LastDependencyBounds(order: seq<NodeId>, deps: seq<NodeId>)
    requires Elements(deps) <= Elements(order)
    ensures -1 <= LastDependency(order, deps) < |order|
  {
    if deps != [] {
      var init := deps[..|deps| - 1];
      SplitLast(deps);
      LastDependencyBounds(order, init);
      PositionBounds(order, deps[|deps| - 1]);
      assert deps[|deps| - 1] in Elements(order);
    }
  }

  lemma SplitLast(deps: seq<NodeId>)
    requires deps != []
    ensures Elements(deps) == Elements(deps[..|deps| - 1]) + {deps[|deps| - 1]}
  {
    assert deps == deps[..|deps| - 1] + [deps[|deps| - 1]];
  }

  /** Dependencies that were there before keep their place when the order grows. */
  lemma {:induction false} LastDependencySnoc(order: seq<NodeId>, x: NodeId, deps: seq<NodeId>)
    requires Elements(deps) <= Elements(order)
    ensures LastDependency(order + [x], deps) == LastDependency(order, deps)
  {
    if deps != [] {
      SplitLast(deps);
      LastDependencySnoc(order, x, deps[..|deps| - 1]);
      assert deps[|deps| - 1] in Elements(order);
      PositionSnoc(order, x, deps[|deps| - 1]);
    }
  }

  /** A node that waited for `x` is released by it. */
  lemma {:induction false} LastDependencyIs(order: seq<NodeId>, x: NodeId, deps: seq<NodeId>)
    requires Elements(deps) <= Elements(order) + {x} && x !in order
    ensures LastDependency(order + [x], deps) == |order| <==> x in deps
    ensures LastDependency(order + [x], deps) <= |order|
  {
    if deps != [] {
      var init, last := deps[..|deps| - 1], deps[|deps| - 1];
      SplitLast(deps);
      LastDependencyIs(order, x, init);
      assert deps == init + [last];
      assert last in Elements(order) + {x};
      PositionSnoc(order, x, last);
      PositionBounds(order, last);
    }
  }

  // ---------------------------------------------------------------- released children line up

  /** Along the list, positions in the graph do not fall. */
  ghost predicate Lined(ids: seq<NodeId>, s: seq<NodeId>) {
    forall i, j :: 0 <= i < j < |s| ==> Position(ids, s[i]) <= Position(ids, s[j])
  }

  ghost predicate StrictlyLined(ids: seq<NodeId>, s: seq<NodeId>) {
    forall i, j :: 0 <= i < j < |s| ==> Position(ids, s[i]) < Position(ids, s[j])
  }

  lemma IdsSplit(nodes: seq<TaskNode>)
    requires nodes != [] && DistinctIds(nodes)
    ensures Ids(nodes) == Ids(nodes[..|nodes| - 1]) + [nodes[|nodes| - 1].id]
    ensures nodes[|nodes| - 1].id !in Ids(nodes[..|nodes| - 1])
  {
  }

  lemma {:induction false} RepeatMembers(x: NodeId, n: nat)
    ensures |Repeat(x, n)| == n && forall i :: 0 <= i < n ==> Repeat(x, n)[i] == x
  {
    if n > 0 {
      RepeatMembers(x, n - 1);
    }
  }

  lemma {:induction false} ChildrenLined(nodes: seq<TaskNode>, d: NodeId)
    requires DistinctIds(nodes)
    ensures Lined(Ids(nodes), Children(nodes, d))
    ensures forall c :: c in Children(nodes, d) ==> c in Ids(nodes)
  {
    if nodes != [] {
      var init, last := nodes[..|nodes| - 1], nodes[|nodes| - 1];
      IdsSplit(nodes);
      ChildrenLined(init, d);
      RepeatMembers(last.id, Count(d, last.dependencies));
      LinedSnoc(Ids(init), last.id, Children(init, d), Repeat(last.id, Count(d, last.dependencies)));
    }
  }

  lemma LinedSnoc(ids: seq<NodeId>, x: NodeId, front: seq<NodeId>, back: seq<NodeId>)
    requires x !in ids && Lined(ids, front) && (forall c :: c in front ==> c in ids)
    requires forall i :: 0 <= i < |back| ==> back[i] == x
    ensures Lined(ids + [x], front + back) && forall c :: c in front + back ==> c in ids + [x]
  {
    var s := front + back;
    forall i | 0 <= i < |s|
      ensures s[i] in ids + [x]
      ensures Position(ids + [x], s[i]) == if i < |front| then Position(ids, front[i]) else |ids|
      ensures i < |front| ==> Position(ids, front[i]) < |ids|
    {
      PositionSnoc(ids, x, s[i]);
      if i < |front| {
        assert front[i] in front;
        PositionBounds(ids, front[i]);
      }
    }
  }

  lemma {:induction false} RootsLined(nodes: seq<TaskNode>, indegree: map<NodeId, int>)
    requires DistinctIds(nodes) && forall n :: n in nodes ==> n.id in indegree
    ensures StrictlyLined(Ids(nodes), Roots(nodes, indegree))
    ensures forall c :: c in Roots(nodes, indegree) ==> c in Ids(nodes)
  {
    if nodes != [] {
      var init, last := nodes[..|nodes| - 1], nodes[|nodes| - 1];
      IdsSplit(nodes);
      RootsLined(init, indegree);
      var front := Roots(init, indegree);
      forall i | 0 <= i < |front|
        ensures Position(Ids(nodes), front[i]) == Position(Ids(init), front[i]) < |Ids(init)|
      {
        assert front[i] in front;
        PositionSnoc(Ids(init), last.id, front[i]);
        PositionBounds(Ids(init), front[i]);
      }
      PositionSnoc(Ids(init), last.id, last.id);
    }
  }

  lemma PositionInjective(ids: seq<NodeId>, x: NodeId, y: NodeId)
    requires x in ids && y in ids && Position(ids, x) == Position(ids, y)
    ensures x == y
  {
    PositionBounds(ids, x);
    PositionBounds(ids, y);
  }

  /** Children are queued in the order in which the graph lists them. */
  lemma {:induction false} AddedLineUp(f: Frontier, kids: seq<NodeId>, added: seq<NodeId>, ids: seq<NodeId>)
    requires forall c :: c in kids ==> c in f.indegree && c in ids
    requires Lined(ids, kids) && Effect(f, kids, Release(f, kids), added)
    ensures StrictlyLined(ids, added)
  {
    if kids != [] {
      var init, c := kids[..|kids| - 1], kids[|kids| - 1];
      var before := ReleaseEffect(f, init);
      AddedLineUp(f, init, before, ids);
      OneMoreAdded(f, kids, before, added);
      if added == before + [c] {
        forall i | 0 <= i < |before| ensures Position(ids, before[i]) < Position(ids, c) {
          assert before[i] in before && added[i] == before[i] && added[|before|] == c;
          AddedAreChildren(f, init, before, before[i]);
          LinedBehind(ids, kids, before[i]);
        }
      }
    } else {
      assert f.queue + added == f.queue;
    }
  }

  lemma LinedBehind(ids: seq<NodeId>, kids: seq<NodeId>, z: NodeId)
    requires kids != [] && Lined(ids, kids) && z in kids[..|kids| - 1] && (forall c :: c in kids ==> c in ids)
    ensures z != kids[|kids| - 1] ==> Position(ids, z) < Position(ids, kids[|kids| - 1])
  {
    var i :| 0 <= i < |kids| - 1 && kids[i] == z;
    var c := kids[|kids| - 1];
    if Position(ids, z) == Position(ids, c) {
      PositionInjective(ids, z, c);
    }
  }

  lemma AddedAreChildren(f: Frontier, kids: seq<NodeId>, added: seq<NodeId>, z: NodeId)
    requires forall c :: c in kids ==> c in f.indegree
    requires Effect(f, kids, Release(f, kids), added) && z in added
    ensures z in kids
  {
    CountZero(z, kids);
  }

  lemma OneMoreAdded(f: Frontier, kids: seq<NodeId>, before: seq<NodeId>, added: seq<NodeId>)
    requires kids != [] && forall c :: c in kids ==> c in f.indegree
    requires Release(f, kids[..|kids| - 1]).queue == f.queue + before
    requires Release(f, kids).queue == f.queue + added
    ensures added == before || added == before + [kids[|kids| - 1]]
  {
    var c := kids[|kids| - 1];
    var g := Release(f, kids[..|kids| - 1]);
    if g.indegree[c] == 1 {
      SamePrefix(f.queue, added, before + [c]);
    } else {
      SamePrefix(f.queue, added, before);
    }
  }

  lemma SamePrefix(front: seq<NodeId>, a: seq<NodeId>, b: seq<NodeId>)
    ensures front + a == front + b ==> a == b
  {
    assert (front + a)[|front|..] == a && (front + b)[|front|..] == b;
  }

  // ---------------------------------------------------------------- the queue stays sorted

  /** `order` has been popped, `line` is that with the queue behind it. */
  ghost predicate InLine(nodes: seq<TaskNode>, order: seq<NodeId>, line: seq<NodeId>) {
    && (forall i :: 0 <= i < |order| ==> Met(nodes, order[..i], order[i]))
    && (forall i :: 0 <= i < |line| ==> Met(nodes, order, line[i]))
    && (forall i, j :: 0 <= i < j < |line| ==> Sorted(nodes, order, line[i], line[j]))
  }

  ghost predicate Sorted(nodes: seq<TaskNode>, order: seq<NodeId>, x: NodeId, y: NodeId) {
    x in ById(nodes) && y in ById(nodes) && Earlier(nodes, order, x, y)
  }

  /** What popping `x` does to the moments of release. */
  lemma ReleasedAfterPop(nodes: seq<TaskNode>, order: seq<NodeId>, x: NodeId, id: NodeId)
    requires x !in order && Met(nodes, order + [x], id)
    ensures Met(nodes, order, id) ==> Released(nodes, order + [x], id) == Released(nodes, order, id) < |order|
    ensures !Met(nodes, order, id) ==> Released(nodes, order + [x], id) == |order|
  {
    var deps := ById(nodes)[id].dependencies;
    assert Elements(order + [x]) == Elements(order) + {x};
    if Met(nodes, order, id) {
      LastDependencySnoc(order, x, deps);
      LastDependencyBounds(order, deps);
    } else {
      LastDependencyIs(order, x, deps);
    }
  }

  lemma MetGrows(nodes: seq<TaskNode>, order: seq<NodeId>, x: NodeId, id: NodeId)
    requires Met(nodes, order, id)
    ensures Met(nodes, order + [x], id)
  {
    assert Elements(order + [x]) == Elements(order) + {x};
  }

  /** Popping keeps the line sorted when the newly released nodes join its end in graph order. */
  lemma LineGrows(nodes: seq<TaskNode>, order: seq<NodeId>, line: seq<NodeId>, x: NodeId, added: seq<NodeId>)
    requires InLine(nodes, order, line) && x !in order && Met(nodes, order, x)
    requires StrictlyLined(Ids(nodes), added)
    requires forall i :: 0 <= i < |added| ==> Met(nodes, order + [x], added[i]) && !Met(nodes, order, added[i])
    ensures InLine(nodes, order + [x], line + added)
  {
    var order', line' := order + [x], line + added;
    forall i | 0 <= i < |order'| ensures Met(nodes, order'[..i], order'[i]) {
      assert order'[..i] == order[..i];
      if i == |order| {
        assert order[..i] == order;
      }
    }
    forall i | 0 <= i < |line'|
      ensures Met(nodes, order', line'[i])
      ensures i < |line| ==> Released(nodes, order', line'[i]) == Released(nodes, order, line[i]) < |order|
      ensures i >= |line| ==> Released(nodes, order', line'[i]) == |order|
    {
      if i < |line| {
        MetGrows(nodes, order, x, line[i]);
      } else {
        assert line'[i] == added[i - |line|];
      }
      ReleasedAfterPop(nodes, order, x, line'[i]);
    }
    forall i, j | 0 <= i < j < |line'| ensures Sorted(nodes, order', line'[i], line'[j]) {
      if j < |line| {
        assert Sorted(nodes, order, line[i], line[j]);
      } else if i >= |line| {
        assert line'[i] == added[i - |line|] && line'[j] == added[j - |line|];
      }
    }
  }

  lemma NewlyMet(nodes: seq<TaskNode>, f: Frontier, x: NodeId, order: seq<NodeId>, added: seq<NodeId>, i: nat)
    requires Counting(nodes, f, [x], Elements(order)) && x !in order && i < |added|
    requires (forall c :: c in Children(nodes, x) ==> c in f.indegree)
    requires Effect(f, Children(nodes, x), Release(f, Children(nodes, x)), added)
    ensures Met(nodes, order + [x], added[i]) && !Met(nodes, order, added[i])
  {
    var done, g, z := Elements(order), Release(f, Children(nodes, x)), added[i];
    CountersStep(nodes, f, g, added, x, done);
    assert z in added;
    UnmetZero(ById(nodes)[z].dependencies, done);
    UnmetZero(ById(nodes)[z].dependencies, done + {x});
    assert Elements(order + [x]) == done + {x};
  }

  lemma HeadIsReady(nodes: seq<TaskNode>, f: Frontier, order: seq<NodeId>)
    requires Counting(nodes, f, [], Elements(order)) && f.queue != []
    ensures f.queue[0] !in order
    ensures Counting(nodes, f.(queue := f.queue[1..]), [f.queue[0]], Elements(order))
  {
    assert [] + f.queue == f.queue == [f.queue[0]] + f.queue[1..];
    assert f.queue[0] in Elements(f.queue);
  }

  /** One pop of the queue. */
  lemma PopKeepsLine(nodes: seq<TaskNode>, order: seq<NodeId>, f: Frontier)
    requires Counting(nodes, f, [], Elements(order)) && f.queue != [] && InLine(nodes, order, order + f.queue)
    ensures
      var x, g := f.queue[0], PopFront(nodes, f);
      Counting(nodes, g, [], Elements(order + [x])) && InLine(nodes, order + [x], (order + [x]) + g.queue)
  {
    var x, rest := f.queue[0], f.(queue := f.queue[1..]);
    var kids := Children(nodes, x);
    HeadIsReady(nodes, f, order);
    ChildrenKnown(nodes, x);
    CountingStep(nodes, rest, [x], Elements(order));
    assert [x][1..] == [] && Elements(order + [x]) == Elements(order) + {x};
    var added := ReleaseEffect(rest, kids);
    ChildrenLined(nodes, x);
    AddedLineUp(rest, kids, added, Ids(nodes));
    forall i | 0 <= i < |added| ensures Met(nodes, order + [x], added[i]) && !Met(nodes, order, added[i]) {
      NewlyMet(nodes, rest, x, order, added, i);
    }
    assert (order + f.queue)[|order|] == x;
    LineGrows(nodes, order, order + f.queue, x, added);
    LineShifts(order, f.queue, added);
  }

  lemma LineShifts(order: seq<NodeId>, queue: seq<NodeId>, added: seq<NodeId>)
    requires queue != []
    ensures (order + queue) + added == (order + [queue[0]]) + (queue[1..] + added)
  {
  }

  lemma {:induction false} FifoInLine(nodes: seq<TaskNode>, order: seq<NodeId>, f: Frontier, all: seq<NodeId>)
    requires Counting(nodes, f, [], Elements(order)) && InLine(nodes, order, order + f.queue)
    requires all == order + Fifo(nodes, f)
    ensures InLine(nodes, all, all)
    decreases Potential(f)
  {
    if f.queue == [] {
      assert order + f.queue == order == all;
    } else {
      PopKeepsLine(nodes, order, f);
      FifoShifts(nodes, order, f);
      FifoInLine(nodes, order + [f.queue[0]], PopFront(nodes, f), all);
    }
  }

  lemma FifoShifts(nodes: seq<TaskNode>, order: seq<NodeId>, f: Frontier)
    requires Covers(nodes, f) && f.queue != []
    ensures order + Fifo(nodes, f) == (order + [f.queue[0]]) + Fifo(nodes, PopFront(nodes, f))
  {
    var rest := Fifo(nodes, PopFront(nodes, f));
    assert Fifo(nodes, f) == [f.queue[0]] + rest;
    LineAssociates(order, f.queue[0], rest);
  }

  lemma LineAssociates(order: seq<NodeId>, x: NodeId, rest: seq<NodeId>)
    ensures order + ([x] + rest) == (order + [x]) + rest
  {
  }

  lemma StartInLine(nodes: seq<TaskNode>)
    requires WellFormed(nodes)
    ensures InLine(nodes, [], InitialFrontier(nodes).queue)
  {
    var queue := InitialFrontier(nodes).queue;
    ByIdMembers(nodes);
    RootsMembers(nodes, InitialDegrees(nodes));
    RootsLined(nodes, InitialDegrees(nodes));
    forall i | 0 <= i < |queue| ensures queue[i] in ById(nodes) && ById(nodes)[queue[i]].dependencies == [] {
      assert queue[i] in queue;
    }
  }

  /** The queue sort, run to its end, leaves the nodes it reached in queue order. */
  lemma FifoInQueueOrder(nodes: seq<TaskNode>)
    requires WellFormed(nodes)
    ensures InQueueOrder(nodes, Fifo(nodes, InitialFrontier(nodes)))
  {
    var f := InitialFrontier(nodes);
    var all := Fifo(nodes, f);
    InitialCounting(nodes);
    StartInLine(nodes);
    assert [] + f.queue == f.queue && [] + all == all && Elements<NodeId>([]) == {};
    FifoInLine(nodes, [], f, all);
    LineIsOrder(nodes, all);
  }

  lemma LineIsOrder(nodes: seq<TaskNode>, order: seq<NodeId>)
    requires InLine(nodes, order, order)
    ensures InQueueOrder(nodes, order)
  {
    forall i, j | 0 <= i < j < |order|
      ensures order[i] in ById(nodes) && order[j] in ById(nodes) && Earlier(nodes, order, order[i], order[j])
    {
      assert Sorted(nodes, order, order[i], order[j]);
    }
  }

  // ---------------------------------------------------------------- queue order determines the order

  /** Moments of release depend on what comes before alone. */
  lemma {:induction false} ReleasedInPrefix(a: seq<NodeId>, b: seq<NodeId>, deps: seq<NodeId>)
    requires a <= b && Elements(deps) <= Elements(a)
    ensures LastDependency(a, deps) == LastDependency(b, deps)
    decreases |b|
  {
    if |a| < |b| {
      var init := b[..|b| - 1];
      ReleasedInPrefix(a, init, deps);
      assert b == init + [b[|b| - 1]];
      assert Elements(a) <= Elements(init) by {
        assert init == a + init[|a|..];
      }
      LastDependencySnoc(init, b[|b| - 1], deps);
    } else {
      assert a == b;
    }
  }

  lemma SameRelease(nodes: seq<TaskNode>, a: seq<NodeId>, b: seq<NodeId>, i: nat, id: NodeId)
    requires i <= |a| && i <= |b| && a[..i] == b[..i] && Met(nodes, a[..i], id)
    ensures Released(nodes, a, id) == Released(nodes, b, id)
  {
    ReleasedInPrefix(a[..i], a, ById(nodes)[id].dependencies);
    ReleasedInPrefix(b[..i], b, ById(nodes)[id].dependencies);
  }

  /** There is only one listing of the same nodes in queue order. */
  lemma {:induction false} QueueOrderIsUnique(nodes: seq<TaskNode>, a: seq<NodeId>, b: seq<NodeId>, i: nat)
    requires InQueueOrder(nodes, a) && InQueueOrder(nodes, b)
    requires Distinct(a) && Distinct(b) && Elements(a) == Elements(b) && i <= |a| == |b|
    ensures a[..i] == b[..i]
  {
    if i > 0 {
      var n := i - 1;
      QueueOrderIsUnique(nodes, a, b, n);
      NoFirstDifference(nodes, a, b, n);
      assert a[..i] == a[..n] + [a[n]] && b[..i] == b[..n] + [b[n]];
    }
  }

  lemma NoFirstDifference(nodes: seq<TaskNode>, a: seq<NodeId>, b: seq<NodeId>, n: nat)
    requires InQueueOrder(nodes, a) && InQueueOrder(nodes, b)
    requires Distinct(a) && Distinct(b) && Elements(a) == Elements(b)
    requires n < |a| == |b| && a[..n] == b[..n]
    ensures a[n] == b[n]
  {
    var x, y := a[n], b[n];
    assert Met(nodes, a[..n], x) && Met(nodes, b[..n], y);
    SameRelease(nodes, a, b, n, x);
    SameRelease(nodes, a, b, n, y);
    if x != y {
      var j := Later(a, b, n);
      var k := Later(b, a, n);
    }
  }

  /** An element of `b` that differs from `a` for the first time comes later in `a`. */
  lemma Later(a: seq<NodeId>, b: seq<NodeId>, n: nat) returns (j: nat)
    requires n < |a| == |b| && a[..n] == b[..n] && a[n] != b[n]
    requires Distinct(b) && Elements(a) == Elements(b)
    ensures n < j < |a| && a[j] == b[n]
  {
    assert b[n] in Elements(a);
    assert forall m :: 0 <= m < n ==> a[m] == a[..n][m] == b[..n][m] == b[m];
    j :| 0 <= j < |a| && a[j] == b[n];
  }
}
