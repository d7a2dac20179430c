/** Impact analysis: which repositories depend, directly or not, on a given one. */
module RepositoryImpact {
  import opened Digraphs

  /** `n` reaches `target` by following one or more dependencies; every vertex on the way
      but the target itself must be a known repository. */
  ghost predicate DependsOn(repositories: Edges, n: Name, target: Name) {
    exists p :: DependencyPath(repositories, p, n, target)
  }

  ghost predicate DependencyPath(repositories: Edges, p: seq<Name>, n: Name, target: Name) {
    Walk(repositories, p) && p[0] == n && target in repositories[p[|p| - 1]]
  }

  function DirectDependents(repositories: Edges, target: Name): set<Name> {
    set n | n in repositories && target in repositories[n]
  }

  lemma {:induction false} ClosedSetHoldsDependents(repositories: Edges, closed: set<Name>, p: seq<Name>, target: Name)
    requires DirectDependents(repositories, target) <= closed
    requires forall c :: c in closed ==> DirectDependents(repositories, c) <= closed
    requires Walk(repositories, p) && target in repositories[p[|p| - 1]]
    ensures p[0] in closed
  {
    if |p| == 1 {
      assert p[0] in DirectDependents(repositories, target);
    } else {
      Subwalk(repositories, p, 1, |p|);
      ClosedSetHoldsDependents(repositories, closed, p[1..], target);
      assert p[0] in DirectDependents(repositories, p[1]);
    }
  }

  lemma DependentOfDependent(repositories: Edges, n: Name, current: Name, target: Name)
    requires DependsOn(repositories, current, target) && n in repositories && current in repositories[n]
    ensures DependsOn(repositories, n, target)
  {
    var p :| DependencyPath(repositories, p, current, target);
    WalkCons(repositories, n, p);
    assert DependencyPath(repositories, [n] + p, n, target);
  }

  /** Arbitrary enumeration of a set; the callers sort it, which matters to nobody here. */
  method Enumerate(s: set<Name>) returns (q: seq<Name>)
    ensures Distinct(q) && Elements(q) == s
  {
    var todo := s;
    q := [];
    while todo != {}
      invariant todo <= s && Distinct(q) && Elements(q) == s - todo
      decreases todo
    {
      var x :| x in todo;
      assert x !in Elements(q);
      assert Elements(q + [x]) == Elements(q) + {x};
      q := q + [x];
      todo := todo - {x};
    }
  }

  datatype Impact = Impact(direct: set<Name>, transitive: set<Name>, drifted: set<Name>)
  datatype Analysis = NotFound | Found(impact: Impact)

  /** One pass over all repositories for the vertex taken from the queue. */
  method Discover(repositories: Edges, current: Name, known: set<Name>, waiting: seq<Name>)
    returns (transitive: set<Name>, queue: seq<Name>)
    ensures transitive == known + DirectDependents(repositories, current)
    ensures exists added :: queue == waiting + added && Distinct(added)
              && Elements(added) == DirectDependents(repositories, current) - known
  {
    transitive, queue := known, waiting;
    ghost var added: seq<Name> := [];
    var todo := repositories.Keys;
    assert waiting + added == waiting;
    while todo != {}
      invariant todo <= repositories.Keys
      invariant queue == waiting + added && Distinct(added)
      invariant Elements(added) == (DirectDependents(repositories, current) - known) - todo
      invariant transitive == known + Elements(added)
      decreases todo
    {
      var item :| item in todo;
      if current in repositories[item] && item !in transitive {
        assert item !in Elements(added);
        assert Elements(added + [item]) == Elements(added) + {item};
        assert waiting + (added + [item]) == (waiting + added) + [item];
        transitive := transitive + {item};
        queue := queue + [item];
        added := added + [item];
      }
      todo := todo - {item};
    }
  }

  /** Terminates on every graph, cyclic or not, and finds exactly the repositories with a
      non-empty dependency path to the given one. */
  method Analyse(repositories: Edges, target: Name) returns (r: Analysis)
    ensures r.NotFound? <==> target !in repositories
    ensures r.Found? ==>
      && r.impact.direct == DirectDependents(repositories, target)
      && (forall n :: n in r.impact.transitive <==> DependsOn(repositories, n, target))
      && r.impact.drifted == (set d | d in repositories[target] && d !in repositories)
  {
    var direct := set n | n in repositories && target in repositories[n];
    var transitive := direct;
    var queue := Enumerate(direct);
    ghost var done: set<Name> := {};
    forall n | n in direct ensures DependsOn(repositories, n, target) {
      assert DependencyPath(repositories, [n], n, target);
    }
    while queue != []
      invariant direct <= transitive <= repositories.Keys
      invariant forall n :: n in transitive ==> DependsOn(repositories, n, target)
      invariant Distinct(queue) && Elements(queue) !! done && transitive == done + Elements(queue)
      invariant forall c :: c in done ==> DirectDependents(repositories, c) <= transitive
      decreases repositories.Keys - done
    {
      var current := queue[0];
      ghost var rest := queue[1..];
      assert queue == [current] + rest;
      assert Elements(queue) == {current} + Elements(rest);
      assert current !in Elements(rest);
      ghost var known := transitive;
      transitive, queue := Discover(repositories, current, transitive, queue[1..]);
      ghost var added :| queue == rest + added && Distinct(added)
                         && Elements(added) == DirectDependents(repositories, current) - known;
      AppendNew(rest, added, known);
      forall n | n in transitive ensures DependsOn(repositories, n, target) {
        if n !in known {
          DependentOfDependent(repositories, n, current, target);
        }
      }
      done := done + {current};
    }
    assert transitive == done;
    forall n | DependsOn(repositories, n, target) ensures n in transitive {
      var p :| DependencyPath(repositories, p, n, target);
      ClosedSetHoldsDependents(repositories, transitive, p, target);
    }
    if target !in repositories {
      return NotFound;
    }
    var drifted := set d | d in repositories[target] && d !in repositories;
    r := Found(Impact(direct, transitive, drifted));
  }

  lemma AppendNew(rest: seq<Name>, added: seq<Name>, known: set<Name>)
    requires Distinct(rest) && Distinct(added) && Elements(rest) <= known && Elements(added) !! known
    ensures Distinct(rest + added) && Elements(rest + added) == Elements(rest) + Elements(added)
  {
    assert forall i :: 0 <= i < |rest| ==> rest[i] in Elements(rest);
    assert forall i :: 0 <= i < |added| ==> added[i] in Elements(added);
  }
}
