/** Dependency digraphs shared by the schedulers and the repository graphs.

    `edges[n]` is the set of things that `n` depends on.  Only keys of the map are
    vertices: a dependency that is not a key is an unknown name and never part of a walk. */
module Digraphs {

  datatype Name = Name(text: string)
  type Edges = map<Name, set<Name>>

  /** `p` follows dependencies: every `p[i]` depends on `p[i + 1]`. */
  ghost predicate Walk(edges: Edges, p: seq<Name>) {
    && |p| > 0
    && (forall i :: 0 <= i < |p| ==> p[i] in edges)
    && (forall i :: 0 <= i < |p| - 1 ==> p[i + 1] in edges[p[i]])
  }

  ghost predicate Cyclic(edges: Edges) {
    exists p :: ClosedWalk(edges, p)
  }

  ghost predicate ClosedWalk(edges: Edges, p: seq<Name>) {
    |p| > 1 && Walk(edges, p) && p[0] == p[|p| - 1]
  }

  /** The longest dependency chain starting at `n` has exactly `k` edges. */
  ghost predicate LongestChain(edges: Edges, n: Name, k: nat) {
    && (exists p :: Walk(edges, p) && p[0] == n && |p| == k + 1)
    && (forall p :: Walk(edges, p) && p[0] == n ==> |p| <= k + 1)
  }

  function Elements<T>(s: seq<T>): set<T> {
    set x | x in s
  }

  ghost predicate Distinct<T>(s: seq<T>) {
    forall i, j :: 0 <= i < j < |s| ==> s[i] != s[j]
  }

  lemma {:induction false} DistinctCardinality<T>(s: seq<T>)
    ensures |Elements(s)| <= |s|
    ensures Distinct(s) <==> |Elements(s)| == |s|
  {
    if s != [] {
      var init := s[..|s| - 1];
      DistinctCardinality(init);
      assert s == init + [s[|s| - 1]];
      assert Elements(s) == Elements(init) + {s[|s| - 1]};
      if s[|s| - 1] in init {
        assert Elements(s) == Elements(init);
        assert !Distinct(s);
      } else {
        assert Distinct(s) <==> Distinct(init);
      }
    }
  }

  /** More places than values: two places hold the same value. */
  lemma Pigeonhole(s: seq<Name>, values: set<Name>) returns (i: nat, j: nat)
    requires |s| > |values|
    requires forall k :: 0 <= k < |s| ==> s[k] in values
    ensures i < j < |s| && s[i] == s[j]
  {
    DistinctCardinality(s);
    if Distinct(s) {
      SubsetCardinality(Elements(s), values);
    }
    i, j :| i < j < |s| && s[i] == s[j];
  }

  lemma {:induction false} SubsetCardinality<T>(a: set<T>, b: set<T>)
    requires a <= b
    ensures |a| <= |b|
  {
    if a != {} {
      var x :| x in a;
      SubsetCardinality(a - {x}, b - {x});
    }
  }

  /** Inside a set where every vertex depends on another member one can walk forever. */
  lemma {:induction false} WalkInside(edges: Edges, stuck: set<Name>, start: Name, n: nat) returns (p: seq<Name>)
    requires stuck <= edges.Keys && start in stuck
    requires forall v :: v in stuck ==> edges[v] * stuck != {}
    ensures Walk(edges, p) && |p| == n + 1 && p[0] == start
    ensures forall i :: 0 <= i < |p| ==> p[i] in stuck
    decreases n
  {
    if n == 0 {
      p := [start];
    } else {
      var next :| next in edges[start] * stuck;
      var rest := WalkInside(edges, stuck, next, n - 1);
      WalkCons(edges, start, rest);
      p := [start] + rest;
    }
  }

  lemma WalkCons(edges: Edges, n: Name, p: seq<Name>)
    requires Walk(edges, p) && n in edges && p[0] in edges[n]
    ensures Walk(edges, [n] + p)
  {
    var q := [n] + p;
    assert forall i :: 0 < i < |q| ==> q[i] == p[i - 1];
  }

  lemma Subwalk(edges: Edges, p: seq<Name>, i: nat, j: nat)
    requires Walk(edges, p) && i < j <= |p|
    ensures Walk(edges, p[i..j])
  {
    var q := p[i..j];
    forall k | 0 <= k < |q| - 1 ensures q[k + 1] in edges[q[k]] {
      assert q[k] == p[i + k] && q[k + 1] == p[i + k + 1];
    }
  }

  /** A non-empty set of vertices that all wait for each other contains a cycle. */
  lemma StuckSetIsCyclic(edges: Edges, stuck: set<Name>)
    requires stuck <= edges.Keys && stuck != {}
    requires forall v :: v in stuck ==> edges[v] * stuck != {}
    ensures Cyclic(edges)
  {
    var start :| start in stuck;
    var p := WalkInside(edges, stuck, start, |stuck|);
    var i, j := Pigeonhole(p, stuck);
    Subwalk(edges, p, i, j + 1);
    assert ClosedWalk(edges, p[i..j + 1]);
  }

  /** `rank` strictly falls along every dependency between vertices. */
  ghost predicate Ranking(edges: Edges, rank: map<Name, nat>) {
    && edges.Keys <= rank.Keys
    && forall n, d :: n in edges && d in edges[n] && d in edges ==> rank[d] < rank[n]
  }

  lemma {:induction false} RankFallsAlongWalk(edges: Edges, rank: map<Name, nat>, p: seq<Name>)
    requires Ranking(edges, rank) && Walk(edges, p)
    ensures rank[p[|p| - 1]] + |p| - 1 <= rank[p[0]]
  {
    if |p| > 1 {
      Subwalk(edges, p, 1, |p|);
      RankFallsAlongWalk(edges, rank, p[1..]);
    }
  }

  lemma RankedIsAcyclic(edges: Edges, rank: map<Name, nat>)
    requires Ranking(edges, rank)
    ensures !Cyclic(edges)
  {
    forall p | ClosedWalk(edges, p) ensures false {
      RankFallsAlongWalk(edges, rank, p);
    }
  }
}
