/** The durable memory store: records, the scoped index over them, and persistence. */
module MemoryStores {
  import opened Digraphs
  import opened Values
  import opened TextOrder

  datatype Record = Record(
    id: string, owner: string, tenant: string, workflow: Option<string>,
    classification: string, content: Json, shortTerm: bool, createdAt: int, accessedAt: int)

  /** Time to live in the unit of the clock; `None` never expires. */
  datatype Policy = Policy(shortTtl: Option<int>, longTtl: Option<int>, allowDelete: bool)

  predicate Expired(p: Policy, r: Record, now: int) {
    var ttl := if r.shortTerm then p.shortTtl else p.longTtl;
    ttl.Some? && r.createdAt + ttl.value <= now
  }

  predicate CanDelete(p: Policy, r: Record) {
    p.allowDelete && r.classification != "legal_hold"
  }

  type Records = map<string, Record>
  type Buckets<!K> = map<K, set<string>>

  /** A `defaultdict(set)` lookup. */
  function Bucket<K>(b: Buckets<K>, k: K): set<string> {
    if k in b then b[k] else {}
  }

  datatype Index = Index(
    byAgent: Buckets<string>, byTenantAgent: Buckets<(string, string)>, byWorkflow: Buckets<string>)

  predicate HasWorkflow(r: Record) {
    r.workflow.Some? && r.workflow.value != ""
  }

  function Added(x: Index, r: Record): Index {
    Index(
      x.byAgent[r.owner := Bucket(x.byAgent, r.owner) + {r.id}],
      x.byTenantAgent[(r.tenant, r.owner) := Bucket(x.byTenantAgent, (r.tenant, r.owner)) + {r.id}],
      if HasWorkflow(r) then x.byWorkflow[r.workflow.value := Bucket(x.byWorkflow, r.workflow.value) + {r.id}]
      else x.byWorkflow)
  }

  function Removed(x: Index, r: Record): Index {
    Index(
      x.byAgent[r.owner := Bucket(x.byAgent, r.owner) - {r.id}],
      x.byTenantAgent[(r.tenant, r.owner) := Bucket(x.byTenantAgent, (r.tenant, r.owner)) - {r.id}],
      if HasWorkflow(r) then x.byWorkflow[r.workflow.value := Bucket(x.byWorkflow, r.workflow.value) - {r.id}]
      else x.byWorkflow)
  }

  // ---------------------------------------------------------------- the index is a scan

  function OfAgent(rs: Records, owner: string): set<string> {
    set id | id in rs && rs[id].owner == owner
  }

  function OfTenantAgent(rs: Records, k: (string, string)): set<string> {
    set id | id in rs && rs[id].tenant == k.0 && rs[id].owner == k.1
  }

  function OfWorkflow(rs: Records, workflow: string): set<string> {
    set id | id in rs && HasWorkflow(rs[id]) && rs[id].workflow == Some(workflow)
  }

  /** Every bucket holds exactly the records a scan would find, and records sit under their own id. */
  ghost predicate Exact(rs: Records, x: Index) {
    && (forall id :: id in rs ==> rs[id].id == id)
    && (forall a :: Bucket(x.byAgent, a) == OfAgent(rs, a))
    && (forall k :: Bucket(x.byTenantAgent, k) == OfTenantAgent(rs, k))
    && (forall w :: Bucket(x.byWorkflow, w) == OfWorkflow(rs, w))
  }

  /** Where a record is indexed. */
  predicate SamePlace(a: Record, b: Record) {
    a.owner == b.owner && a.tenant == b.tenant && (HasWorkflow(a) ==> b.workflow == a.workflow)
  }

  lemma AddKeepsExact(rs: Records, x: Index, r: Record)
    requires Exact(rs, x) && (r.id in rs ==> SamePlace(rs[r.id], r))
    ensures Exact(rs[r.id := r], Added(x, r))
  {
    AddKeepsAgents(rs, x, r);
    AddKeepsTenantAgents(rs, x, r);
    AddKeepsWorkflows(rs, x, r);
  }

  lemma AddKeepsAgents(rs: Records, x: Index, r: Record)
    requires forall a :: Bucket(x.byAgent, a) == OfAgent(rs, a)
    requires r.id in rs ==> SamePlace(rs[r.id], r)
    ensures forall a :: Bucket(Added(x, r).byAgent, a) == OfAgent(rs[r.id := r], a)
  {
    forall a ensures Bucket(Added(x, r).byAgent, a) == OfAgent(rs[r.id := r], a) {
      assert Bucket(x.byAgent, a) == OfAgent(rs, a);
    }
  }

  lemma AddKeepsTenantAgents(rs: Records, x: Index, r: Record)
    requires forall k :: Bucket(x.byTenantAgent, k) == OfTenantAgent(rs, k)
    requires r.id in rs ==> SamePlace(rs[r.id], r)
    ensures forall k :: Bucket(Added(x, r).byTenantAgent, k) == OfTenantAgent(rs[r.id := r], k)
  {
    forall k ensures Bucket(Added(x, r).byTenantAgent, k) == OfTenantAgent(rs[r.id := r], k) {
      assert Bucket(x.byTenantAgent, k) == OfTenantAgent(rs, k);
    }
  }

  lemma AddKeepsWorkflows(rs: Records, x: Index, r: Record)
    requires forall w :: Bucket(x.byWorkflow, w) == OfWorkflow(rs, w)
    requires r.id in rs ==> SamePlace(rs[r.id], r)
    ensures forall w :: Bucket(Added(x, r).byWorkflow, w) == OfWorkflow(rs[r.id := r], w)
  {
    forall w ensures Bucket(Added(x, r).byWorkflow, w) == OfWorkflow(rs[r.id := r], w) {
      assert Bucket(x.byWorkflow, w) == OfWorkflow(rs, w);
    }
  }

  /** Storing over an existing id keeps the index exact precisely when owner and tenant are unchanged
      and an indexed workflow stays; otherwise a stale entry remains. */
  lemma PutKeepsExactIff(rs: Records, x: Index, r: Record)
    requires Exact(rs, x)
    ensures Exact(rs[r.id := r], Added(x, r)) <==> r.id in rs ==> SamePlace(rs[r.id], r)
  {
    if r.id !in rs || SamePlace(rs[r.id], r) {
      AddKeepsExact(rs, x, r);
    } else {
      var before := rs[r.id];
      var rs', x' := rs[r.id := r], Added(x, r);
      if before.owner != r.owner {
        assert r.id in OfAgent(rs, before.owner) && r.id in Bucket(x'.byAgent, before.owner);
      } else if before.tenant != r.tenant {
        var k := (before.tenant, before.owner);
        assert r.id in OfTenantAgent(rs, k) && r.id in Bucket(x'.byTenantAgent, k);
      } else {
        var w := before.workflow.value;
        assert r.id in OfWorkflow(rs, w) && r.id in Bucket(x'.byWorkflow, w);
      }
    }
  }

  lemma RemoveKeepsExact(rs: Records, x: Index, id: string)
    requires Exact(rs, x) && id in rs
    ensures Exact(rs - {id}, Removed(x, rs[id]))
  {
    var rs', x' := rs - {id}, Removed(x, rs[id]);
    forall a ensures Bucket(x'.byAgent, a) == OfAgent(rs', a) {
      assert Bucket(x.byAgent, a) == OfAgent(rs, a);
    }
    forall k ensures Bucket(x'.byTenantAgent, k) == OfTenantAgent(rs', k) {
      assert Bucket(x.byTenantAgent, k) == OfTenantAgent(rs, k);
    }
    forall w ensures Bucket(x'.byWorkflow, w) == OfWorkflow(rs', w) {
      assert Bucket(x.byWorkflow, w) == OfWorkflow(rs, w);
    }
  }

  // ---------------------------------------------------------------- what a stale entry does

  /** After a write that moves a record to another tenant or owner, the old place still lists it ... */
  lemma StaleEntryIsListed(rs: Records, x: Index, r: Record)
    requires Exact(rs, x) && r.id in rs && (rs[r.id].tenant, rs[r.id].owner) != (r.tenant, r.owner)
    ensures
      var place := (rs[r.id].tenant, rs[r.id].owner);
      r.id in Bucket(Added(x, r).byTenantAgent, place) && r.id !in OfTenantAgent(rs[r.id := r], place)
  {
    var place := (rs[r.id].tenant, rs[r.id].owner);
    assert r.id in OfTenantAgent(rs, place) && Bucket(x.byTenantAgent, place) == OfTenantAgent(rs, place);
  }

  /** ... and goes on listing it after the new owner has deleted it. */
  lemma StaleEntryOutlivesTheRecord(rs: Records, x: Index, r: Record)
    requires Exact(rs, x) && r.id in rs && (rs[r.id].tenant, rs[r.id].owner) != (r.tenant, r.owner)
    ensures r.id in Bucket(Removed(Added(x, r), r).byTenantAgent, (rs[r.id].tenant, rs[r.id].owner))
  {
    StaleEntryIsListed(rs, x, r);
  }

  // ---------------------------------------------------------------- the store

  datatype Response<+T> = Ok(value: T) | RawSensitive | DeletionDenied | MissingRecord

  function Touched(rs: Records, ids: set<string>, now: int): Records {
    map id | id in rs :: if id in ids then rs[id].(accessedAt := now) else rs[id]
  }

  /** What retention at a given time takes away. */
  function Doomed(rs: Records, p: Policy, now: int): set<string> {
    set id | id in rs && Expired(p, rs[id], now) && CanDelete(p, rs[id])
  }

  ghost predicate UnderOwnId(rs: Records) {
    forall id :: id in rs ==> rs[id].id == id
  }

  function Pick(rs: Records, order: seq<string>): seq<Record>
    requires forall id :: id in order ==> id in rs
  {
    seq(|order|, i requires 0 <= i < |order| => rs[order[i]])
  }

  /** The records with these ids, in ascending order of id. */
  ghost predicate ListsInOrder(found: seq<Record>, rs: Records, ids: set<string>) {
    exists order :: Ascending(order) && Elements(order) == ids && ids <= rs.Keys
                    && (forall id :: id in order ==> id in rs) && found == Pick(rs, order)
  }

  /** A record outlives retention if deletion is off, it is on legal hold, its kind of memory has no time to
      live, or that time is not over yet. */
  predicate Stays(p: Policy, r: Record, now: int) {
    || !p.allowDelete
    || r.classification == "legal_hold"
    || (r.shortTerm && (p.shortTtl == None || r.createdAt + p.shortTtl.value > now))
    || (!r.shortTerm && (p.longTtl == None || r.createdAt + p.longTtl.value > now))
  }

  class DurableMemoryStore {
    const policy: Policy
    var records: Records
    var index: Index
    var persisted: Records

    /** Records sit under their own id, and persistence holds the same records: true in every state. */
    ghost predicate Filed()
      reads this
    {
      UnderOwnId(records) && persisted == records
    }

    /** The index, too, equals a scan of the records. */
    ghost predicate Valid()
      reads this
    {
      Exact(records, index) && persisted == records
    }

    /** Load everything that was persisted, in any order. */
    constructor (policy: Policy, stored: Records)
      requires forall id :: id in stored ==> stored[id].id == id
      ensures this.policy == policy && Valid() && records == stored
    {
      this.policy, persisted := policy, stored;
      var todo := stored.Keys;
      var rs: Records := map[];
      var x := Index(map[], map[], map[]);
      while todo != {}
        invariant todo <= stored.Keys && Exact(rs, x)
        invariant rs == stored - todo
        decreases todo
      {
        var id :| id in todo;
        AddKeepsExact(rs, x, stored[id]);
        rs, x := rs[id := stored[id]], Added(x, stored[id]);
        todo := todo - {id};
      }
      assert stored - {} == stored;
      records, index := rs, x;
    }

    /** The general write path.  Over an existing id the index stays exact precisely when owner and
        tenant are unchanged and an indexed workflow stays. */
    method Put(r: Record) returns (response: Response<Record>)
      requires Filed()
      modifies this
      ensures Filed()
      ensures Storable(r.content) ==>
          response == Ok(r) && records == old(records)[r.id := r] && index == Added(old(index), r)
      ensures Storable(r.content) && old(Valid()) ==>
          (Valid() <==> r.id in old(records) ==> SamePlace(old(records)[r.id], r))
      ensures !Storable(r.content) ==> response == RawSensitive && records == old(records) && index == old(index)
    {
      if !Storable(r.content) {
        return RawSensitive;
      }
      if Valid() {
        PutKeepsExactIff(records, index, r);
      }
      records := records[r.id := r];
      index := Added(index, r);
      persisted := persisted[r.id := r];
      return Ok(r);
    }

    /** New records get fresh ids. */
    method Create(r: Record) returns (response: Response<Record>)
      requires Filed() && r.id !in records
      modifies this
      ensures Filed() && (old(Valid()) ==> Valid())
      ensures response == if Storable(r.content) then Ok(r) else RawSensitive
      ensures records == if Storable(r.content) then old(records)[r.id := r] else old(records)
    {
      response := Put(r);
    }

    /** What the bucket of this agent and tenant names, in order of id and each marked as accessed now; raises
        before touching anything if a record is missing.  In a valid store nothing is missing and the
        records are exactly those of the agent in the tenant. */
    method ListForAgent(tenant: string, owner: string, now: int) returns (r: Response<seq<Record>>)
      requires Filed()
      modifies this
      ensures Filed() && index == old(index) && (old(Valid()) ==> Valid())
      ensures
        var ids := Bucket(old(index).byTenantAgent, (tenant, owner));
        if ids <= old(records).Keys then
          r.Ok? && ListsInOrder(r.value, records, ids) && records == Touched(old(records), ids, now)
        else
          r == MissingRecord && records == old(records)
      ensures r.Ok? ==> records.Keys == old(records).Keys
      ensures r.Ok? ==> forall id :: id in records ==>
        records[id] ==
          if id in Bucket(old(index).byTenantAgent, (tenant, owner)) then old(records)[id].(accessedAt := now)
          else old(records)[id]
      ensures old(Valid()) ==>
        var ids := OfTenantAgent(old(records), (tenant, owner));
        r.Ok? && ListsInOrder(r.value, records, ids) && records == Touched(old(records), ids, now)
    {
      var ids := Bucket(index.byTenantAgent, (tenant, owner));
      if exists id :: id in ids && id !in records {
        return MissingRecord;
      }
      var order := SortedKeys(ids);
      assert forall id :: id in order ==> id in Elements(order);
      if Valid() {
        TouchKeepsExact(records, index, ids, now);
      }
      records := Touched(records, ids, now);
      persisted := Touched(persisted, ids, now);
      var found := Pick(records, order);
      assert ListsInOrder(found, records, ids);
      return Ok(found);
    }

    method Delete(tenant: string, owner: string, id: string) returns (response: Response<bool>)
      requires Filed()
      modifies this
      ensures Filed() && (old(Valid()) ==> Valid())
      ensures id in old(records) && old(records)[id].tenant == tenant && old(records)[id].owner == owner ==>
        if policy.allowDelete && old(records)[id].classification != "legal_hold" then
          response == Ok(true) && records == old(records) - {id} && index == Removed(old(index), old(records)[id])
        else
          response == DeletionDenied && records == old(records) && index == old(index)
      ensures !(id in old(records) && old(records)[id].tenant == tenant && old(records)[id].owner == owner) ==>
        response == Ok(false) && records == old(records) && index == old(index)
    {
      if id !in records || records[id].tenant != tenant || records[id].owner != owner {
        return Ok(false);
      }
      if !CanDelete(policy, records[id]) {
        return DeletionDenied;
      }
      if Valid() {
        RemoveKeepsExact(records, index, id);
      }
      index := Removed(index, records[id]);
      records := records - {id};
      var present := id in persisted;
      persisted := persisted - {id};
      return Ok(present);
    }

    /** One pass of the retention loop. */
    method RemoveIfDoomed(id: string, now: int) returns (hit: bool)
      requires Filed() && id in records
      modifies this
      ensures Filed() && (old(Valid()) ==> Valid())
      ensures hit <==> Expired(policy, old(records)[id], now) && CanDelete(policy, old(records)[id])
      ensures records == if hit then old(records) - {id} else old(records)
    {
      var record := records[id];
      hit := false;
      if Expired(policy, record, now) && CanDelete(policy, record) {
        var response := Delete(record.tenant, record.owner, record.id);
        hit := response == Ok(true);
      }
    }

    /** Removes exactly the records that do not stay, and counts them. */
    method EnforceRetention(now: int) returns (removed: nat)
      requires Filed()
      modifies this
      ensures Filed() && (old(Valid()) ==> Valid())
      ensures forall id :: id in records <==> id in old(records) && Stays(policy, old(records)[id], now)
      ensures forall id :: id in records ==> records[id] == old(records)[id]
      ensures removed == |old(records)| - |records|
      ensures records == old(records) - Doomed(old(records), policy, now)
    {
      RetentionMeans(records, policy, now);
      removed := Sweep(now);
    }

    /** The retention loop. */
    method Sweep(now: int) returns (removed: nat)
      requires Filed()
      modifies this
      ensures Filed() && (old(Valid()) ==> Valid())
      ensures records == old(records) - Doomed(old(records), policy, now)
      ensures removed == |Doomed(old(records), policy, now)|
    {
      removed := 0;
      var todo := records.Keys;
      RetentionStarts(records, policy, now);
      while todo != {}
        invariant Filed() && (old(Valid()) ==> Valid()) && Retained(old(records), policy, now, todo, records, removed)
        decreases todo
      {
        var id :| id in todo;
        RetentionStep(old(records), policy, now, todo, records, removed, id);
        var hit := RemoveIfDoomed(id, now);
        if hit {
          removed := removed + 1;
        }
        todo := todo - {id};
      }
      assert Doomed(old(records), policy, now) - {} == Doomed(old(records), policy, now);
    }
  }

  /** One record is overwritten under its id by another tenant: listing for the first tenant returns the
      second tenant's record, and raises once that one is deleted. */
  method AnotherTenantsRecordIsListed() returns (first: Response<seq<Record>>, second: Response<seq<Record>>)
    ensures first.Ok? && |first.value| == 1 && first.value[0].tenant == "theirs" && second == MissingRecord
  {
    var before := Record("m", "agent", "ours", None, "internal", Text("a"), true, 0, 0);
    var after := before.(tenant := "theirs", content := Text("b"));
    var store := new DurableMemoryStore(Policy(None, None, true), map["m" := before]);
    ghost var records, index := store.records, store.index;
    StaleEntryIsListed(records, index, after);
    StaleEntryOutlivesTheRecord(records, index, after);
    OneIdListed(records, index, after);
    var put := store.Put(after);
    ghost var ids := Bucket(store.index.byTenantAgent, ("ours", "agent"));
    assert ids == {"m"} && store.records == map["m" := after];
    first := store.ListForAgent("ours", "agent", 0);
    OneListed(first.value, store.records);
    assert store.records["m"] == after;
    var deleted := store.Delete("theirs", "agent", "m");
    second := store.ListForAgent("ours", "agent", 0);
  }

  lemma OneIdListed(rs: Records, x: Index, r: Record)
    requires Exact(rs, x) && rs.Keys == {r.id} && rs[r.id].owner == r.owner && rs[r.id].tenant != r.tenant
    ensures Bucket(Added(x, r).byTenantAgent, (rs[r.id].tenant, r.owner)) == {r.id}
  {
    var place := (rs[r.id].tenant, r.owner);
    assert Bucket(x.byTenantAgent, place) == OfTenantAgent(rs, place) == {r.id};
  }

  lemma OneListed(found: seq<Record>, rs: Records)
    requires ListsInOrder(found, rs, {"m"}) && "m" in rs
    ensures found == [rs["m"]]
  {
    var order :| Ascending(order) && Elements(order) == {"m"} && (forall id :: id in order ==> id in rs)
      && found == Pick(rs, order);
    AscendingIsUnique(order, ["m"]);
  }

  lemma RetentionMeans(all: Records, p: Policy, now: int)
    ensures
      var kept := all - Doomed(all, p, now);
      && (forall id :: id in kept <==> id in all && Stays(p, all[id], now))
      && (forall id :: id in kept ==> kept[id] == all[id])
      && |Doomed(all, p, now)| == |all| - |kept|
  {
    var doomed := Doomed(all, p, now);
    var kept := all - doomed;
    forall id | id in all ensures id in doomed <==> !Stays(p, all[id], now) {
    }
    assert kept.Keys == all.Keys - doomed && doomed <= all.Keys;
    assert |all.Keys| == |doomed| + |all.Keys - doomed|;
    assert |kept| == |kept.Keys| && |all| == |all.Keys|;
  }

  /** State of the retention loop when the records in `todo` are still to be looked at. */
  ghost predicate Retained(all: Records, p: Policy, now: int, todo: set<string>, rs: Records, removed: nat) {
    && todo <= all.Keys
    && rs == all - (Doomed(all, p, now) - todo)
    && removed == |Doomed(all, p, now) - todo|
  }

  lemma RetentionStarts(all: Records, p: Policy, now: int)
    ensures Retained(all, p, now, all.Keys, all, 0)
  {
    assert Doomed(all, p, now) - all.Keys == {};
  }

  lemma RetentionStep(all: Records, p: Policy, now: int, todo: set<string>, rs: Records, removed: nat, id: string)
    requires Retained(all, p, now, todo, rs, removed) && id in todo
    ensures id in rs && rs[id] == all[id]
    ensures
      if Expired(p, all[id], now) && CanDelete(p, all[id]) then
        Retained(all, p, now, todo - {id}, rs - {id}, removed + 1)
      else Retained(all, p, now, todo - {id}, rs, removed)
  {
    var doomed := Doomed(all, p, now);
    DoneGrows(doomed, todo, id);
    if id in doomed {
      DropOneMore(all, doomed - todo, id);
    }
  }

  lemma DoneGrows(doomed: set<string>, todo: set<string>, id: string)
    requires id in todo
    ensures id !in doomed - todo
    ensures doomed - (todo - {id}) == if id in doomed then (doomed - todo) + {id} else doomed - todo
  {
  }

  lemma DropOneMore(all: Records, dropped: set<string>, id: string)
    ensures (all - dropped) - {id} == all - (dropped + {id})
  {
  }

  lemma TouchKeepsExact(rs: Records, x: Index, ids: set<string>, now: int)
    requires Exact(rs, x)
    ensures Exact(Touched(rs, ids, now), x)
  {
    var rs' := Touched(rs, ids, now);
    forall a ensures Bucket(x.byAgent, a) == OfAgent(rs', a) {
      assert OfAgent(rs, a) == OfAgent(rs', a);
    }
    forall k ensures Bucket(x.byTenantAgent, k) == OfTenantAgent(rs', k) {
      assert OfTenantAgent(rs, k) == OfTenantAgent(rs', k);
    }
    forall w ensures Bucket(x.byWorkflow, w) == OfWorkflow(rs', w) {
      assert OfWorkflow(rs, w) == OfWorkflow(rs', w);
    }
  }
}
