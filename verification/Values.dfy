/** Values that pass between agents, and the filter of the shared context store. */
module Values {

  datatype Option<+T> = None | Some(value: T)

  datatype Json =
    | Text(text: string)
    | Number(number: int)
    | Array(items: seq<Json>)
    | Object(fields: seq<(string, Json)>)

  function LowerChar(c: char): char {
    if 'A' <= c <= 'Z' then (c as int - 'A' as int + 'a' as int) as char else c
  }

  function Lower(s: string): string {
    seq(|s|, i requires 0 <= i < |s| => LowerChar(s[i]))
  }

  predicate SensitiveKey(key: string) {
    var k := Lower(key);
    k in {"raw", "secret", "password", "token"} || "raw_" <= k
  }

  /** What `_reject_raw_sensitive` lets through: no sensitive key at any depth. */
  predicate Storable(v: Json) {
    match v
    case Text(_) => true
    case Number(_) => true
    case Array(items) => forall i :: 0 <= i < |items| ==> Storable(items[i])
    case Object(fields) =>
      forall i :: 0 <= i < |fields| ==> !SensitiveKey(fields[i].0) && Storable(fields[i].1)
  }

  /** Letters are lowered one by one, and nothing else changes. */
  lemma LowerMeans(s: string, i: nat, k: nat)
    requires i < |s| && k < 26
    ensures |Lower(s)| == |s|
    ensures s[i] == "ABCDEFGHIJKLMNOPQRSTUVWXYZ"[k] ==> Lower(s)[i] == "abcdefghijklmnopqrstuvwxyz"[k]
    ensures !('A' <= s[i] <= 'Z') ==> Lower(s)[i] == s[i]
  {
    UpperLetters(k);
    LowerLetters(k);
  }

  lemma UpperLetters(k: nat)
    requires k < 26
    ensures "ABCDEFGHIJKLMNOPQRSTUVWXYZ"[k] as int == 'A' as int + k
  {
  }

  lemma LowerLetters(k: nat)
    requires k < 26
    ensures "abcdefghijklmnopqrstuvwxyz"[k] as int == 'a' as int + k
  {
  }

  /** All keys of all objects in a value, at any depth. */
  function AllKeys(v: Json): set<string> {
    match v
    case Text(_) => {}
    case Number(_) => {}
    case Array(items) => set i, k | 0 <= i < |items| && k in AllKeys(items[i]) :: k
    case Object(fields) =>
      (set i | 0 <= i < |fields| :: fields[i].0) + (set i, k | 0 <= i < |fields| && k in AllKeys(fields[i].1) :: k)
  }

  /** A value is stored exactly when none of its keys reads, in lower case, raw, secret, password or token, or
      begins with raw_. */
  lemma {:induction false} StorableIff(v: Json)
    ensures Storable(v) <==> forall k :: k in AllKeys(v) ==>
      Lower(k) != "raw" && Lower(k) != "secret" && Lower(k) != "password" && Lower(k) != "token"
        && !("raw_" <= Lower(k))
  {
    match v
    case Text(_) =>
    case Number(_) =>
    case Array(items) =>
      forall i | 0 <= i < |items|
        ensures Storable(items[i]) <==> forall k :: k in AllKeys(items[i]) ==> !SensitiveKey(k)
      {
        StorableIff(items[i]);
      }
    case Object(fields) =>
      forall i | 0 <= i < |fields|
        ensures Storable(fields[i].1) <==> forall k :: k in AllKeys(fields[i].1) ==> !SensitiveKey(k)
      {
        StorableIff(fields[i].1);
      }
  }
}
