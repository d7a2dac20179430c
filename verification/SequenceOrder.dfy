/** Stable sorting by a number, as `sorted(..., key=...)` does it. */
module SequenceOrder {

  /** Insertion behind all elements whose number is not larger. */
  function InsertBy<T>(s: seq<T>, e: T, key: T -> int): seq<T> {
    if s == [] || key(s[|s| - 1]) <= key(e) then s + [e]
    else InsertBy(s[..|s| - 1], e, key) + [s[|s| - 1]]
  }

  function SortBy<T>(s: seq<T>, key: T -> int): seq<T> {
    if s == [] then [] else InsertBy(SortBy(s[..|s| - 1], key), s[|s| - 1], key)
  }

  ghost predicate AscendingBy<T>(s: seq<T>, key: T -> int) {
    forall i, j :: 0 <= i < j < |s| ==> key(s[i]) <= key(s[j])
  }

  /** Every number occurs once. */
  ghost predicate StrictBy<T>(s: seq<T>, key: T -> int) {
    forall i, j :: 0 <= i < j < |s| ==> key(s[i]) < key(s[j])
  }

  lemma {:induction false} InsertAddsOne<T>(s: seq<T>, e: T, key: T -> int)
    ensures multiset(InsertBy(s, e, key)) == multiset(s) + multiset{e}
  {
    if s != [] && key(s[|s| - 1]) > key(e) {
      InsertAddsOne(s[..|s| - 1], e, key);
      assert s == s[..|s| - 1] + [s[|s| - 1]];
    }
  }

  lemma InsertMembers<T>(s: seq<T>, e: T, key: T -> int, i: nat)
    requires i < |InsertBy(s, e, key)|
    ensures InsertBy(s, e, key)[i] in s || InsertBy(s, e, key)[i] == e
  {
    InsertAddsOne(s, e, key);
    assert InsertBy(s, e, key)[i] in multiset(InsertBy(s, e, key));
  }

  lemma {:induction false} InsertKeepsOrder<T>(s: seq<T>, e: T, key: T -> int)
    requires AscendingBy(s, key)
    ensures AscendingBy(InsertBy(s, e, key), key)
  {
    if s == [] {
    } else if key(s[|s| - 1]) <= key(e) {
      forall i | 0 <= i < |s| ensures key(s[i]) <= key(e) {
        assert i < |s| - 1 ==> key(s[i]) <= key(s[|s| - 1]);
      }
    } else {
      var init, last := s[..|s| - 1], s[|s| - 1];
      InsertKeepsOrder(init, e, key);
      var r := InsertBy(init, e, key);
      forall i | 0 <= i < |r| ensures key(r[i]) <= key(last) {
        InsertMembers(init, e, key, i);
        if r[i] in init {
          var j :| 0 <= j < |init| && init[j] == r[i];
          assert key(s[j]) <= key(s[|s| - 1]);
        }
      }
    }
  }

  lemma {:induction false} SortSorts<T>(s: seq<T>, key: T -> int)
    ensures AscendingBy(SortBy(s, key), key) && multiset(SortBy(s, key)) == multiset(s)
  {
    if s != [] {
      var init, last := s[..|s| - 1], s[|s| - 1];
      SortSorts(init, key);
      InsertKeepsOrder(SortBy(init, key), last, key);
      InsertAddsOne(SortBy(init, key), last, key);
      DropLast(s);
      assert multiset(s) == multiset(init) + multiset{last};
    }
  }

  /** The highest number occurs once, so every ascending listing ends with it. */
  lemma HighestComesLast<T>(ordered: seq<T>, s: seq<T>, key: T -> int)
    requires StrictBy(ordered, key) && AscendingBy(s, key) && multiset(s) == multiset(ordered) && ordered != []
    ensures |s| == |ordered| && s[|s| - 1] == ordered[|ordered| - 1]
  {
    assert |s| == |multiset(s)| == |ordered|;
    var n := |ordered| - 1;
    assert ordered[n] in multiset(s) && s[n] in multiset(ordered);
    var j :| 0 <= j < |s| && s[j] == ordered[n];
    var i :| 0 <= i < |ordered| && ordered[i] == s[n];
    assert j < n ==> key(s[j]) <= key(s[n]);
  }

  lemma DropLast<T>(s: seq<T>)
    requires s != []
    ensures s == s[..|s| - 1] + [s[|s| - 1]]
    ensures multiset(s[..|s| - 1]) == multiset(s) - multiset{s[|s| - 1]}
  {
    assert s == s[..|s| - 1] + [s[|s| - 1]];
  }

  lemma {:induction false} AscendingIsUnique<T>(ordered: seq<T>, s: seq<T>, key: T -> int)
    requires StrictBy(ordered, key) && AscendingBy(s, key) && multiset(s) == multiset(ordered)
    ensures s == ordered
    decreases |ordered|
  {
    if ordered == [] {
      assert |s| == |multiset(s)| == 0;
    } else {
      HighestComesLast(ordered, s, key);
      DropLast(s);
      DropLast(ordered);
      AscendingIsUnique(ordered[..|ordered| - 1], s[..|s| - 1], key);
    }
  }

  lemma StrictSnoc<T>(s: seq<T>, e: T, key: T -> int)
    requires StrictBy(s, key) && forall i :: 0 <= i < |s| ==> key(s[i]) < key(e)
    ensures StrictBy(s + [e], key)
  {
  }

  /** Sorting any permutation of a strictly ordered list restores the list. */
  lemma SortRestores<T>(ordered: seq<T>, s: seq<T>, key: T -> int)
    requires StrictBy(ordered, key) && multiset(s) == multiset(ordered)
    ensures SortBy(s, key) == ordered
  {
    SortSorts(s, key);
    AscendingIsUnique(ordered, SortBy(s, key), key);
  }
}
