/** The repository factory's dependency graph: edges are stored first and validated afterwards
    by a depth-first search that shares its `visiting` and `visited` sets. */
module RepositoryDependencies {
  import opened Digraphs

  /** Finished vertices in the order the search left them: every edge to a vertex leads backwards. */
  ghost predicate Settled(edges: Edges, order: seq<Name>) {
    && (forall i :: 0 <= i < |order| ==> order[i] in edges)
    && (forall i, d :: 0 <= i < |order| && d in edges[order[i]] && d in edges ==> d in order[..i])
  }

  lemma {:induction false} SettledRank(edges: Edges, order: seq<Name>)
    requires Settled(edges, order) && Elements(order) == edges.Keys
    ensures !Cyclic(edges)
  {
    var rank := map n | n in edges :: FirstIndex(order, n);
    forall n, d | n in edges && d in edges[n] && d in edges ensures rank[d] < rank[n] {
      var i := FirstIndex(order, n);
      assert d in order[..i];
      var j :| 0 <= j < i && order[j] == d;
      FirstIndexIsFirst(order, d, j);
    }
    RankedIsAcyclic(edges, rank);
  }

  ghost function FirstIndex(s: seq<Name>, x: Name): (i: nat)
    requires x in Elements(s)
    ensures i < |s| && s[i] == x
  {
    if s[0] == x then 0 else
      assert x in Elements(s[1..]) by {
        assert s == [s[0]] + s[1..];
      }
      1 + FirstIndex(s[1..], x)
  }

  lemma {:induction false} FirstIndexIsFirst(s: seq<Name>, x: Name, j: nat)
    requires j < |s| && s[j] == x
    ensures x in Elements(s) && FirstIndex(s, x) <= j
  {
    if s[0] != x {
      assert s[1..][j - 1] == x;
      FirstIndexIsFirst(s[1..], x, j - 1);
    }
  }

  /** The search in progress. */
  class Search {
    const edges: Edges
    var visiting: set<Name>
    var visited: set<Name>
    ghost var order: seq<Name>

    constructor (edges: Edges)
      ensures this.edges == edges && visiting == {} && visited == {} && order == []
    {
      this.edges, visiting, visited, order := edges, {}, {}, [];
    }

    ghost predicate Valid()
      reads this
    {
      visiting <= edges.Keys && Settled(edges, order) && Elements(order) == visited
    }

    /** `stack` is the chain of open calls: a walk from the first open vertex to the caller. */
    ghost predicate Open(stack: seq<Name>, node: Name)
      reads this
    {
      && Elements(stack) == visiting
      && (stack != [] ==> Walk(edges, stack) && node in edges[stack[|stack| - 1]])
    }

    /** `visit`: either the vertex and everything below it is finished, or a cycle was met. */
    method Visit(node: Name, ghost stack: seq<Name>) returns (ok: bool)
      requires Valid() && node in edges && Open(stack, node)
      modifies this
      ensures ok ==> Valid() && visiting == old(visiting) && old(visited) <= visited && node in visited
      ensures !ok ==> Cyclic(edges)
      decreases edges.Keys - visiting
    {
      if node in visiting {
        ClosesCycle(edges, stack, node);
        return false;
      }
      if node in visited {
        return true;
      }
      visiting := visiting + {node};
      ghost var inner := stack + [node];
      Extend(edges, stack, node);
      var todo := edges[node];
      while todo != {}
        invariant Valid() && visiting == old(visiting) + {node} && old(visited) <= visited
        invariant todo <= edges[node]
        invariant forall d :: d in edges[node] - todo && d in edges ==> d in visited
        decreases todo
      {
        var dependency :| dependency in todo;
        if dependency in edges {
          var below := Visit(dependency, inner);
          if !below {
            return false;
          }
        }
        todo := todo - {dependency};
      }
      visiting := visiting - {node};
      visited := visited + {node};
      SettleLast(edges, order, node);
      order := order + [node];
      return true;
    }
  }

  lemma ClosesCycle(edges: Edges, stack: seq<Name>, node: Name)
    requires node in Elements(stack) && node in edges
    requires Walk(edges, stack) && node in edges[stack[|stack| - 1]]
    ensures Cyclic(edges)
  {
    var i :| 0 <= i < |stack| && stack[i] == node;
    Subwalk(edges, stack, i, |stack|);
    WalkSnoc(edges, stack[i..], node);
    assert ClosedWalk(edges, stack[i..] + [node]);
  }

  lemma WalkSnoc(edges: Edges, p: seq<Name>, n: Name)
    requires Walk(edges, p) && n in edges && n in edges[p[|p| - 1]]
    ensures Walk(edges, p + [n])
  {
    var q := p + [n];
    assert forall i :: 0 <= i < |p| ==> q[i] == p[i];
  }

  lemma Extend(edges: Edges, stack: seq<Name>, node: Name)
    requires node in edges
    requires stack != [] ==> Walk(edges, stack) && node in edges[stack[|stack| - 1]]
    ensures Walk(edges, stack + [node]) && Elements(stack + [node]) == Elements(stack) + {node}
  {
    if stack != [] {
      WalkSnoc(edges, stack, node);
    }
  }

  lemma SettleLast(edges: Edges, order: seq<Name>, node: Name)
    requires Settled(edges, order) && node in edges
    requires forall d :: d in edges[node] && d in edges ==> d in Elements(order)
    ensures Settled(edges, order + [node]) && Elements(order + [node]) == Elements(order) + {node}
  {
    var longer := order + [node];
    forall i, d | 0 <= i < |longer| && d in edges[longer[i]] && d in edges ensures d in longer[..i] {
      assert longer[..i] == order[..i];
      assert order[..|order|] == order;
    }
  }

  class RepositoryDependencyGraph {
    var edges: Edges

    constructor ()
      ensures edges == map[]
    {
      edges := map[];
    }

    /** Passes exactly the acyclic graphs, in whatever order vertices and dependencies are visited. */
    method Validate() returns (ok: bool)
      ensures ok <==> !Cyclic(edges)
    {
      var search := new Search(edges);
      var todo := edges.Keys;
      while todo != {}
        invariant search.edges == edges && search.Valid() && search.visiting == {}
        invariant todo <= edges.Keys && edges.Keys - todo <= search.visited
        decreases todo
      {
        var node :| node in todo;
        ok := search.Visit(node, []);
        if !ok {
          return;
        }
        todo := todo - {node};
      }
      assert search.visited == edges.Keys;
      SettledRank(edges, search.order);
      ok := true;
    }

    /** Edges are replaced whether or not the result is accepted; acceptance means the whole graph is acyclic. */
    method Add(repository: Name, dependencies: set<Name>) returns (ok: bool)
      modifies this
      ensures edges == old(edges)[repository := dependencies]
      ensures ok <==> !Cyclic(edges)
    {
      edges := edges[repository := dependencies];
      ok := Validate();
    }
  }

  // ---------------------------------------------------------------- runs of `add`

  function AddAll(edges: Edges, calls: seq<(Name, set<Name>)>): Edges {
    if calls == [] then edges
    else AddAll(edges, calls[..|calls| - 1])[calls[|calls| - 1].0 := calls[|calls| - 1].1]
  }

  /** A rejected edge stays: as long as later calls only replace repositories off the cycle, they are all rejected. */
  lemma {:induction false} RejectionPersists(edges: Edges, p: seq<Name>, calls: seq<(Name, set<Name>)>)
    requires ClosedWalk(edges, p)
    requires forall c :: c in calls ==> c.0 !in p
    ensures ClosedWalk(AddAll(edges, calls), p) && Cyclic(AddAll(edges, calls))
  {
    if calls != [] {
      var init, last := calls[..|calls| - 1], calls[|calls| - 1];
      RejectionPersists(edges, p, init);
      assert last in calls;
      var before, after := AddAll(edges, init), AddAll(edges, calls);
      forall i | 0 <= i < |p| ensures p[i] in after && after[p[i]] == before[p[i]] {
        assert p[i] in p;
      }
      assert ClosedWalk(after, p);
    }
  }

  /** Re-adding a repository without dependencies takes it off every cycle and creates none. */
  lemma ClearingBreaksCyclesThrough(edges: Edges, n: Name, p: seq<Name>)
    requires ClosedWalk(edges[n := {}], p)
    ensures n !in p && ClosedWalk(edges, p)
  {
    var cleared := edges[n := {}];
    forall i | 0 <= i < |p| ensures p[i] != n {
      var next := if i < |p| - 1 then p[i + 1] else p[1];
      assert next in cleared[p[i]];
    }
  }

  /** Exactly the repositories that lie on every cycle can make the graph acceptable again by being
      added without dependencies. */
  lemma ClearingSucceedsIff(edges: Edges, n: Name)
    ensures !Cyclic(edges[n := {}]) <==> forall p :: ClosedWalk(edges, p) ==> n in p
  {
    if Cyclic(edges[n := {}]) {
      var p :| ClosedWalk(edges[n := {}], p);
      ClearingBreaksCyclesThrough(edges, n, p);
    }
    if p :| ClosedWalk(edges, p) && n !in p {
      var calls := [(n, {})];
      RejectionPersists(edges, p, calls);
      assert calls[..0] == [];
      assert AddAll(edges, calls) == edges[n := {}];
    }
  }

  /** Two repositories that depend on each other: the second call is rejected, and so is a third that
      adds a repository without any dependency, because the rejected edge is still stored. */
  lemma RejectedEdgeStays(a: Name, b: Name, c: Name)
    requires a == Name("a") && b == Name("b") && c == Name("c")
    ensures !Cyclic(AddAll(map[], [(a, {b})]))
    ensures Cyclic(AddAll(map[], [(a, {b}), (b, {a})]))
    ensures Cyclic(AddAll(map[], [(a, {b}), (b, {a}), (c, {})]))
  {
    var one, two, three := [(a, {b})], [(a, {b}), (b, {a})], [(a, {b}), (b, {a}), (c, {})];
    assert one[..0] == [] && two[..1] == one && three[..2] == two;
    assert AddAll(map[], one) == map[a := {b}];
    RankedIsAcyclic(map[a := {b}], map[a := 0]);
    assert AddAll(map[], two) == map[a := {b}, b := {a}];
    assert ClosedWalk(AddAll(map[], two), [a, b, a]);
    assert ClosedWalk(AddAll(map[], three), [a, b, a]);
  }
}
