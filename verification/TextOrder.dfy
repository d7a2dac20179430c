/** Text in the order Python's `sorted` gives it. */
module TextOrder {
  import opened Digraphs

  /** Lexicographic order by code unit. */
  predicate LessEq(a: string, b: string) {
    a == "" || (b != "" && (a[0] < b[0] || (a[0] == b[0] && LessEq(a[1..], b[1..]))))
  }

  predicate Less(a: string, b: string) {
    LessEq(a, b) && a != b
  }

  lemma {:induction false} Total(a: string, b: string)
    ensures LessEq(a, b) || LessEq(b, a)
    decreases |a|
  {
    if a != "" && b != "" && a[0] == b[0] {
      Total(a[1..], b[1..]);
    }
  }

  lemma {:induction false} Antisymmetric(a: string, b: string)
    requires LessEq(a, b) && LessEq(b, a)
    ensures a == b
    decreases |a|
  {
    if a != "" && b != "" {
      Antisymmetric(a[1..], b[1..]);
      assert a == [a[0]] + a[1..] && b == [b[0]] + b[1..];
    }
  }

  lemma {:induction false} Transitive(a: string, b: string, c: string)
    requires LessEq(a, b) && LessEq(b, c)
    ensures LessEq(a, c)
    decreases |a|
  {
    if a != "" && a[0] == b[0] == c[0] {
      Transitive(a[1..], b[1..], c[1..]);
    }
  }

  /** Strictly ascending, hence without repetition. */
  ghost predicate Ascending(s: seq<string>) {
    forall i, j :: 0 <= i < j < |s| ==> Less(s[i], s[j])
  }

  function Insert(s: seq<string>, x: string): seq<string> {
    if s == [] || LessEq(s[|s| - 1], x) then s + [x] else Insert(s[..|s| - 1], x) + [s[|s| - 1]]
  }

  function Sort(s: seq<string>): seq<string> {
    if s == [] then [] else Insert(Sort(s[..|s| - 1]), s[|s| - 1])
  }

  lemma AscendingSnoc(s: seq<string>, x: string)
    requires Ascending(s) && (s == [] || Less(s[|s| - 1], x))
    ensures Ascending(s + [x]) && Elements(s + [x]) == Elements(s) + {x}
  {
    forall i | 0 <= i < |s| ensures Less(s[i], x) {
      if i < |s| - 1 {
        assert Less(s[i], s[|s| - 1]);
        Transitive(s[i], s[|s| - 1], x);
        if s[i] == x {
          Antisymmetric(x, s[|s| - 1]);
        }
      }
    }
  }

  lemma {:induction false} InsertNew(s: seq<string>, x: string)
    requires Ascending(s) && x !in s
    ensures Ascending(Insert(s, x)) && Elements(Insert(s, x)) == Elements(s) + {x}
  {
    if s == [] || LessEq(s[|s| - 1], x) {
      AscendingSnoc(s, x);
    } else {
      var init, last := s[..|s| - 1], s[|s| - 1];
      Total(last, x);
      DropGreatest(s);
      InsertNew(init, x);
      var r := Insert(init, x);
      assert r[|r| - 1] in Elements(r);
      if r[|r| - 1] != x {
        var k :| 0 <= k < |init| && init[k] == r[|r| - 1];
        assert Less(s[k], s[|s| - 1]);
      }
      AscendingSnoc(r, last);
      assert last in Elements(s);
    }
  }

  lemma {:induction false} SortSorts(s: seq<string>)
    requires Distinct(s)
    ensures Ascending(Sort(s)) && Elements(Sort(s)) == Elements(s)
  {
    if s != [] {
      var init, last := s[..|s| - 1], s[|s| - 1];
      SortSorts(init);
      assert s == init + [last];
      assert last !in Elements(init);
      InsertNew(Sort(init), last);
      assert Elements(s) == Elements(init) + {last};
    }
  }

  lemma NoElements(s: seq<string>)
    ensures Elements(s) == {} <==> s == []
  {
    if s != [] {
      assert s[0] in Elements(s);
    }
  }

  /** A set of texts has only one ascending listing. */
  lemma {:induction false} AscendingIsUnique(a: seq<string>, b: seq<string>)
    requires Ascending(a) && Ascending(b) && Elements(a) == Elements(b)
    ensures a == b
    decreases |a|
  {
    if a == [] {
      NoElements(b);
    } else {
      assert a[0] in Elements(b);
      GreatestComesLast(a, b);
      var a', b' := a[..|a| - 1], b[..|b| - 1];
      DropGreatest(a);
      DropGreatest(b);
      AscendingIsUnique(a', b');
    }
  }

  lemma GreatestComesLast(a: seq<string>, b: seq<string>)
    requires Ascending(a) && Ascending(b) && Elements(a) == Elements(b) && a != []
    ensures b != [] && a[|a| - 1] == b[|b| - 1]
  {
    assert a[|a| - 1] in Elements(b);
    var j :| 0 <= j < |b| && b[j] == a[|a| - 1];
    assert b[|b| - 1] in Elements(a);
    var i :| 0 <= i < |a| && a[i] == b[|b| - 1];
    if i < |a| - 1 && j < |b| - 1 {
      assert Less(a[i], a[|a| - 1]) && Less(b[j], b[|b| - 1]);
      Antisymmetric(a[i], b[j]);
    }
  }

  lemma DropGreatest(a: seq<string>)
    requires Ascending(a) && a != []
    ensures a == a[..|a| - 1] + [a[|a| - 1]] && Ascending(a[..|a| - 1])
    ensures Elements(a[..|a| - 1]) == Elements(a) - {a[|a| - 1]}
  {
    var init, last := a[..|a| - 1], a[|a| - 1];
    assert a == init + [last];
    forall i | 0 <= i < |init| ensures init[i] != last {
      assert Less(a[i], a[|a| - 1]);
    }
  }

  lemma AscendingIsDistinct(a: seq<string>)
    requires Ascending(a)
    ensures Distinct(a)
  {
    forall i, j | 0 <= i < j < |a| ensures a[i] != a[j] {
      assert Less(a[i], a[j]);
    }
  }

  /** Sorting any listing of the elements of an ascending list gives that list back. */
  lemma SortRestores(s: seq<string>, ascending: seq<string>)
    requires Distinct(s) && Ascending(ascending) && Elements(s) == Elements(ascending)
    ensures Sort(s) == ascending
  {
    SortSorts(s);
    AscendingIsUnique(Sort(s), ascending);
  }

  /** The ascending listing of a set. */
  ghost function Ordered(keys: set<string>): (order: seq<string>)
    ensures Ascending(order) && Elements(order) == keys
  {
    if keys == {} then
      []
    else
      var k :| k in keys;
      var rest := Ordered(keys - {k});
      assert k !in Elements(rest);
      InsertNew(rest, k);
      Insert(rest, k)
  }

  /** `sorted` on the keys of a dictionary. */
  method SortedKeys(keys: set<string>) returns (order: seq<string>)
    ensures Ascending(order) && Elements(order) == keys && order == Ordered(keys)
  {
    order := [];
    var todo := keys;
    while todo != {}
      invariant todo <= keys && Ascending(order) && Elements(order) == keys - todo
      decreases todo
    {
      var k :| k in todo;
      assert k !in Elements(order);
      InsertNew(order, k);
      order := Insert(order, k);
      todo := todo - {k};
    }
    AscendingIsUnique(order, Ordered(keys));
  }
}
