/** Which checkpoint `CheckpointLoader.latest` loads: keys are compared as text, not by number. */
module Checkpoints {
  import opened Digraphs
  import opened Values
  import opened TextOrder

  function Digit(d: nat): char
    requires d < 10
  {
    "0123456789"[d]
  }

  function Decimal(n: nat): (r: string)
    ensures r != ""
  {
    if n < 10 then [Digit(n)] else Decimal(n / 10) + [Digit(n % 10)]
  }

  function Power(k: nat): (r: nat)
    ensures r >= 1
  {
    if k == 0 then 1 else 10 * Power(k - 1)
  }

  function Prefix(workflow: string): string {
    workflow + ":"
  }

  /** The key under which the context store persists the checkpoint after batch `n`. */
  function Key(workflow: string, n: nat): string {
    Prefix(workflow) + ("batch-" + Decimal(n))
  }

  function Matching(keys: seq<string>, prefix: string): seq<string> {
    if keys == [] then []
    else Matching(keys[..|keys| - 1], prefix) + if prefix <= keys[|keys| - 1] then [keys[|keys| - 1]] else []
  }

  function Latest(keys: seq<string>, workflow: string): Option<string> {
    var sorted := Sort(Matching(keys, Prefix(workflow)));
    if sorted == [] then None else Some(sorted[|sorted| - 1])
  }

  /** A run of nines with one digit less than `n`. */
  function Nines(n: nat): nat {
    Power(|Decimal(n)| - 1) - 1
  }

  // ---------------------------------------------------------------- text order of numerals

  lemma {:induction false} AppendOne(x: string, c: char, y: string, d: char)
    requires |x| == |y|
    ensures LessEq(x + [c], y + [d]) <==> Less(x, y) || (x == y && c <= d)
  {
    if x == "" {
      assert x + [c] == [c] && y + [d] == [d];
    } else {
      Heads(x, c);
      Heads(y, d);
      AppendOne(x[1..], c, y[1..], d);
      assert x == y <==> x[0] == y[0] && x[1..] == y[1..] by {
        assert x == [x[0]] + x[1..] && y == [y[0]] + y[1..];
      }
    }
  }

  lemma Heads(x: string, c: char)
    requires x != ""
    ensures (x + [c])[0] == x[0] && (x + [c])[1..] == x[1..] + [c]
  {
  }

  lemma {:induction false} AppendRight(x: string, y: string, d: char)
    requires |x| <= |y|
    ensures LessEq(x, y + [d]) <==> LessEq(x, y)
  {
    if x != "" {
      Heads(y, d);
      AppendRight(x[1..], y[1..], d);
    }
  }

  lemma {:induction false} PrefixDoesNotMatter(p: string, x: string, y: string)
    ensures LessEq(p + x, p + y) <==> LessEq(x, y)
  {
    if p == "" {
      assert p + x == x && p + y == y;
    } else {
      assert (p + x)[1..] == p[1..] + x && (p + y)[1..] == p[1..] + y;
      PrefixDoesNotMatter(p[1..], x, y);
    }
  }

  lemma DigitsOrdered(a: nat, b: nat)
    requires a < 10 && b < 10
    ensures Digit(a) <= Digit(b) <==> a <= b
  {
  }

  lemma {:induction false} DecimalInjective(a: nat, b: nat)
    requires Decimal(a) == Decimal(b)
    ensures a == b
  {
    if a < 10 || b < 10 {
      DigitsOrdered(a % 10, b % 10);
      DigitsOrdered(b % 10, a % 10);
    } else {
      var x, y := Decimal(a / 10), Decimal(b / 10);
      assert (x + [Digit(a % 10)])[..|x|] == x && (y + [Digit(b % 10)])[..|y|] == y;
      assert (x + [Digit(a % 10)])[|x|] == Digit(a % 10) && (y + [Digit(b % 10)])[|y|] == Digit(b % 10);
      DecimalInjective(a / 10, b / 10);
      DigitsOrdered(a % 10, b % 10);
      DigitsOrdered(b % 10, a % 10);
    }
  }

  lemma TenthsOrder(a: nat, b: nat)
    ensures a <= b <==> a / 10 < b / 10 || (a / 10 == b / 10 && a % 10 <= b % 10)
  {
  }

  /** Numerals of equal length compare like numbers. */
  lemma {:induction false} SameLengthOrder(a: nat, b: nat)
    requires |Decimal(a)| == |Decimal(b)|
    ensures LessEq(Decimal(a), Decimal(b)) <==> a <= b
  {
    DigitsOrdered(a % 10, b % 10);
    if a < 10 {
      OneDigit(Digit(a), Digit(b));
    } else {
      var x, y := Decimal(a / 10), Decimal(b / 10);
      SameLengthOrder(a / 10, b / 10);
      AppendOne(x, Digit(a % 10), y, Digit(b % 10));
      if x == y {
        DecimalInjective(a / 10, b / 10);
      }
      TenthsOrder(a, b);
      assert Less(x, y) <==> a / 10 < b / 10;
    }
  }

  lemma OneDigit(c: char, d: char)
    ensures LessEq([c], [d]) <==> c <= d
  {
  }

  /** The last digit does not count against a shorter numeral. */
  lemma ShorterOrder(a: nat, b: nat)
    requires |Decimal(a)| < |Decimal(b)|
    ensures b >= 10 && (LessEq(Decimal(a), Decimal(b)) <==> LessEq(Decimal(a), Decimal(b / 10)))
  {
    AppendRight(Decimal(a), Decimal(b / 10), Digit(b % 10));
  }

  lemma {:induction false} DecimalLength(n: nat)
    requires n >= 1
    ensures Power(|Decimal(n)| - 1) <= n < Power(|Decimal(n)|)
  {
    if n >= 10 {
      DecimalLength(n / 10);
    }
  }

  lemma {:induction false} LengthMonotone(a: nat, b: nat)
    requires a <= b
    ensures |Decimal(a)| <= |Decimal(b)|
    decreases b
  {
    if a >= 10 {
      LengthMonotone(a / 10, b / 10);
    }
  }

  lemma {:induction false} NinesLength(k: nat)
    requires k >= 1
    ensures Power(k) >= 10 && |Decimal(Power(k) - 1)| == k
  {
    if k >= 2 {
      NinesLength(k - 1);
      NinesTenth(k);
    }
  }

  lemma NinesTenth(k: nat)
    requires k >= 2
    ensures Power(k) >= 11 && (Power(k) - 1) / 10 == Power(k - 1) - 1
  {
    assert Power(k) - 1 == 10 * (Power(k - 1) - 1) + 9;
    assert Power(k - 1) >= 10 by {
      assert Power(k - 1) == 10 * Power(k - 2);
    }
  }

  /** Among all numerals of at most `k` digits, `k` nines come last. */
  lemma {:induction false} NinesComeLast(i: nat, k: nat)
    requires i >= 1 && |Decimal(i)| <= k
    ensures LessEq(Decimal(i), Decimal(Power(k) - 1))
  {
    if |Decimal(i)| == k {
      BehindAsManyNines(i, k);
    } else {
      NinesComeLast(i, k - 1);
      NinesLength(k);
      NinesTenth(k);
      BehindFewerNines(i, Power(k) - 1, Power(k - 1) - 1);
    }
  }

  lemma BehindAsManyNines(i: nat, k: nat)
    requires i >= 1 && |Decimal(i)| == k
    ensures LessEq(Decimal(i), Decimal(Power(k) - 1))
  {
    NinesLength(k);
    DecimalLength(i);
    SameLengthOrder(i, Power(k) - 1);
  }

  lemma BehindFewerNines(i: nat, nines: nat, fewer: nat)
    requires nines / 10 == fewer && |Decimal(i)| < |Decimal(nines)| && LessEq(Decimal(i), Decimal(fewer))
    ensures LessEq(Decimal(i), Decimal(nines))
  {
    ShorterOrder(i, nines);
  }

  // ---------------------------------------------------------------- the text-greatest batch number

  /** Where the text order puts last: the newest, or the nines before it. */
  function LastInTextOrder(n: nat): nat {
    if n / 10 == Nines(n) then n else Nines(n)
  }

  /** Up to `n` numerals, the nines with one digit less beat exactly those whose leading digits are smaller. */
  lemma AgainstNines(i: nat, n: nat)
    requires n >= 10 && |Decimal(i)| == |Decimal(n)|
    ensures LessEq(Decimal(Nines(n)), Decimal(i)) <==> Nines(n) <= i / 10
  {
    NinesDigits(n);
    OneDigitShorter(Nines(n), i);
  }

  lemma NinesDigits(n: nat)
    requires n >= 10
    ensures |Decimal(Nines(n))| + 1 == |Decimal(n)|
  {
    NinesLength(|Decimal(n)| - 1);
  }

  /** A numeral with one digit less compares with the leading digits. */
  lemma OneDigitShorter(a: nat, i: nat)
    requires |Decimal(a)| + 1 == |Decimal(i)|
    ensures LessEq(Decimal(a), Decimal(i)) <==> a <= i / 10
  {
    ShorterOrder(a, i);
    SameLengthOrder(a, i / 10);
  }

  lemma TenthBelowNines(n: nat)
    requires n >= 10
    ensures 1 <= Nines(n) < n && n / 10 <= Nines(n)
  {
    NinesLength(|Decimal(n)| - 1);
    DecimalLength(n);
  }

  lemma LastIsInRange(n: nat)
    requires n >= 1
    ensures 1 <= LastInTextOrder(n) <= n
  {
    if n >= 10 {
      TenthBelowNines(n);
    }
  }

  lemma LastComesLast(i: nat, n: nat)
    requires 1 <= i <= n
    ensures LessEq(Decimal(i), Decimal(LastInTextOrder(n)))
  {
    var k := |Decimal(n)|;
    LengthMonotone(i, n);
    if |Decimal(i)| == k {
      SameLengthOrder(i, n);
      if n / 10 != Nines(n) {
        TenthBelowNines(n);
        AgainstNines(i, n);
        Total(Decimal(i), Decimal(Nines(n)));
      }
    } else {
      NinesComeLast(i, k - 1);
      if n / 10 == Nines(n) {
        ShorterOrder(i, n);
      }
    }
  }

  // ---------------------------------------------------------------- what is loaded

  lemma {:induction false} MatchingMembers(keys: seq<string>, prefix: string)
    requires Distinct(keys)
    ensures Distinct(Matching(keys, prefix))
    ensures forall k :: k in Matching(keys, prefix) <==> k in keys && prefix <= k
  {
    if keys != [] {
      MatchingMembers(keys[..|keys| - 1], prefix);
      assert keys == keys[..|keys| - 1] + [keys[|keys| - 1]];
      assert keys[|keys| - 1] !in keys[..|keys| - 1];
      var init := Matching(keys[..|keys| - 1], prefix);
      assert forall i :: 0 <= i < |init| ==> init[i] in init;
    }
  }

  lemma SortedLast(s: seq<string>, greatest: string)
    requires Distinct(s) && greatest in s && forall x :: x in s ==> LessEq(x, greatest)
    ensures Sort(s) != [] && Sort(s)[|Sort(s)| - 1] == greatest
  {
    SortSorts(s);
    var t := Sort(s);
    assert greatest in Elements(s);
    var i :| 0 <= i < |t| && t[i] == greatest;
    var last := t[|t| - 1];
    assert last in Elements(t);
    assert LessEq(last, greatest);
    if i < |t| - 1 {
      assert Less(t[i], last);
      Antisymmetric(greatest, last);
    }
  }

  lemma SortedLastIsGreatest(s: seq<string>, x: string)
    requires Distinct(s) && Sort(s) != [] && Sort(s)[|Sort(s)| - 1] == x
    ensures x in s && forall y :: y in s ==> LessEq(y, x)
  {
    SortSorts(s);
    var t := Sort(s);
    assert t[|t| - 1] in Elements(t);
    forall y | y in s ensures LessEq(y, x) {
      assert y in Elements(s);
      var i :| 0 <= i < |t| && t[i] == y;
      if i == |t| - 1 {
        Total(x, x);
      } else {
        assert Less(t[i], t[|t| - 1]);
      }
    }
  }

  /** The newest persisted checkpoint of this workflow is number `n`; the store may hold anything else besides. */
  ghost predicate HoldsUpTo(keys: seq<string>, workflow: string, n: nat) {
    Distinct(keys) && forall i :: i >= 1 ==> (Key(workflow, i) in keys <==> i <= n)
  }

  ghost predicate Own(workflow: string, k: string) {
    exists i :: i >= 1 && k == Key(workflow, i)
  }

  /** Some stored key that begins like this workflow's, but is none of its checkpoints, sorts after `k`. */
  ghost predicate Overtaken(keys: seq<string>, workflow: string, k: string) {
    exists x :: x in keys && Prefix(workflow) <= x && !Own(workflow, x) && !LessEq(x, k)
  }

  lemma LatestIsGreatest(keys: seq<string>, workflow: string, k: string)
    requires Distinct(keys) && k in keys && Prefix(workflow) <= k
    ensures Latest(keys, workflow) == Some(k) <==> forall x :: x in keys && Prefix(workflow) <= x ==> LessEq(x, k)
  {
    var matching := Matching(keys, Prefix(workflow));
    MatchingMembers(keys, Prefix(workflow));
    if Latest(keys, workflow) == Some(k) {
      SortedLastIsGreatest(matching, k);
    }
    if forall x :: x in keys && Prefix(workflow) <= x ==> LessEq(x, k) {
      SortedLast(matching, k);
    }
  }

  /** Its own checkpoints all sort up to the one that comes last in text order. */
  lemma OwnKeysSortBelow(workflow: string, n: nat, x: string)
    requires n >= 1 && Own(workflow, x) && (forall i :: i >= 1 && x == Key(workflow, i) ==> i <= n)
    ensures LessEq(x, Key(workflow, LastInTextOrder(n)))
  {
    var i :| i >= 1 && x == Key(workflow, i);
    KeyOrder(workflow, i, LastInTextOrder(n));
    LastComesLast(i, n);
  }

  /** After `n` batches, whatever else is stored: the text-greatest of the workflow's own checkpoints is
      loaded exactly when no other key overtakes it. */
  lemma LatestIsLastInTextOrder(keys: seq<string>, workflow: string, n: nat)
    requires HoldsUpTo(keys, workflow, n) && n >= 1
    ensures Latest(keys, workflow) == Some(Key(workflow, LastInTextOrder(n)))
            <==> !Overtaken(keys, workflow, Key(workflow, LastInTextOrder(n)))
  {
    var k := Key(workflow, LastInTextOrder(n));
    LastIsInRange(n);
    LatestIsGreatest(keys, workflow, k);
    forall x | x in keys && Own(workflow, x) ensures LessEq(x, k) {
      OwnKeysSortBelow(workflow, n, x);
    }
  }

  /** The newest checkpoint is loaded exactly when `n` without its last digit is zero or all nines, and no
      other key overtakes it.  With nothing else stored, at 10 it is batch 9, and so it stays until 89. */
  lemma LatestIsNewestIff(keys: seq<string>, workflow: string, n: nat)
    requires HoldsUpTo(keys, workflow, n) && n >= 1
    ensures Latest(keys, workflow) == Some(Key(workflow, n))
            <==> n / 10 + 1 == Power(|Decimal(n)| - 1) && !Overtaken(keys, workflow, Key(workflow, n))
  {
    var last := LastInTextOrder(n);
    NewestIsLast(n);
    if last == n {
      LatestIsLastInTextOrder(keys, workflow, n);
    } else {
      LastIsInRange(n);
      LatestIsGreatest(keys, workflow, Key(workflow, n));
      KeyOrder(workflow, last, n);
      KeyOrder(workflow, n, last);
      LastComesLast(n, n);
      if LessEq(Key(workflow, last), Key(workflow, n)) {
        Antisymmetric(Key(workflow, last), Key(workflow, n));
      }
      assert Key(workflow, last) in keys && Prefix(workflow) <= Key(workflow, last);
    }
  }

  /** After ten batches, with nothing else stored, the ninth is loaded. */
  lemma NinthIsLoadedAfterTen(keys: seq<string>)
    requires HoldsUpTo(keys, "w", 10) && forall k :: k in keys ==> Own("w", k)
    ensures Latest(keys, "w") == Some(Key("w", 9))
  {
    assert Decimal(10) == Decimal(1) + [Digit(0)];
    assert |Decimal(10)| == 2 && Power(1) == 10;
    assert LastInTextOrder(10) == 9;
    LatestIsLastInTextOrder(keys, "w", 10);
  }

  /** Nothing is loaded exactly when no stored key begins like this workflow's. */
  lemma NothingToLoad(keys: seq<string>, workflow: string)
    requires Distinct(keys)
    ensures Latest(keys, workflow) == None <==> forall k :: k in keys ==> !(Prefix(workflow) <= k)
  {
    var matching := Matching(keys, Prefix(workflow));
    MatchingMembers(keys, Prefix(workflow));
    SortSorts(matching);
    NoElements(matching);
    NoElements(Sort(matching));
  }

  // ---------------------------------------------------------------- whose keys can get in the way

  lemma {:induction false} DecimalHasNoColon(n: nat)
    ensures ':' !in Decimal(n)
  {
    if n >= 10 {
      DecimalHasNoColon(n / 10);
    }
  }

  /** Among checkpoint keys, the ones that begin like this workflow's belong to it or to a workflow
      whose id extends this one across a colon. */
  lemma ForeignKeysExtendTheId(workflow: string, other: string, i: nat)
    requires Prefix(workflow) <= Key(other, i)
    ensures other == workflow || Prefix(workflow) <= other
  {
    var k, rest := Key(other, i), "batch-" + Decimal(i);
    DecimalHasNoColon(i);
    assert k == other + ":" + rest;
    var m := |workflow|;
    assert k[..m] == workflow && k[m] == ':';
    assert ':' !in rest;
    assert forall j :: |other| < j < |k| ==> k[j] == rest[j - |other| - 1];
    if |other| < m {
      assert false;
    } else {
      assert k[..|other|] == other;
      assert other[..m] == workflow;
    }
  }

  lemma ExtensionSortsAfter(workflow: string, i: nat, j: nat)
    ensures Prefix(workflow) <= Key(workflow + ":x", j)
    ensures Key(workflow, i) != Key(workflow + ":x", j)
    ensures LessEq(Key(workflow, i), Key(workflow + ":x", j))
  {
    var p, own, other := Prefix(workflow), "batch-" + Decimal(i), "x:batch-" + Decimal(j);
    assert Key(workflow + ":x", j) == p + other;
    assert own[0] == 'b' && other[0] == 'x';
    assert Key(workflow, i)[|p|] != Key(workflow + ":x", j)[|p|];
    PrefixDoesNotMatter(p, own, other);
  }

  /** Two workflows with one checkpoint each: for "a" the checkpoint of "a:x" is loaded. */
  lemma AnotherWorkflowIsLoaded()
    ensures Latest([Key("a", 1), Key("a:x", 1)], "a") == Some(Key("a:x", 1))
  {
    ExtensionSortsAfter("a", 1, 1);
    assert "a" + ":x" == "a:x";
    Total(Key("a:x", 1), Key("a:x", 1));
    LatestIsGreatest([Key("a", 1), Key("a:x", 1)], "a", Key("a:x", 1));
  }

  lemma NewestIsLast(n: nat)
    requires n >= 1
    ensures LastInTextOrder(n) == n <==> n / 10 + 1 == Power(|Decimal(n)| - 1)
  {
    if n >= 10 {
      TenthBelowNines(n);
    }
  }

  lemma KeyOrder(workflow: string, i: nat, j: nat)
    ensures LessEq(Key(workflow, i), Key(workflow, j)) <==> LessEq(Decimal(i), Decimal(j))
    ensures Key(workflow, i) == Key(workflow, j) ==> i == j
  {
    var p, b := Prefix(workflow), "batch-";
    PrefixDoesNotMatter(p, b + Decimal(i), b + Decimal(j));
    PrefixDoesNotMatter(b, Decimal(i), Decimal(j));
    if Key(workflow, i) == Key(workflow, j) {
      assert Key(workflow, i)[|p| + |b|..] == Decimal(i) && Key(workflow, j)[|p| + |b|..] == Decimal(j);
      DecimalInjective(i, j);
    }
  }
}
