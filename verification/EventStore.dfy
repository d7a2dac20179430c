/** The hash-chained event store: appending, integrity checking, reloading and replay. */
module EventStores {
  import opened Digraphs
  import opened Values
  import O = SequenceOrder

  /** The hashed part of an event, in the order of the dictionary that is encoded. */
  datatype Body = Body(
    id: string, sequence: int, kind: string, aggregate: string,
    payload: Json, timestamp: string, previous: string)

  datatype Event = Event(body: Body, hash: string)

  /** Canonical JSON followed by SHA-256, as an arbitrary function. */
  type HashFunction = Body -> string

  function SequenceOf(e: Event): int {
    e.body.sequence
  }

  /** `sorted(events, key=sequence)` */
  function SortBySequence(s: seq<Event>): seq<Event> {
    O.SortBy(s, SequenceOf)
  }

  // ---------------------------------------------------------------- the chain

  ghost predicate LinkAt(h: HashFunction, log: seq<Event>, i: nat)
    requires i < |log|
  {
    && log[i].body.sequence == i + 1
    && log[i].body.previous == (if i == 0 then "" else log[i - 1].hash)
    && log[i].hash == h(log[i].body)
  }

  /** Numbers from one without gaps, every event linked to its predecessor and correctly hashed. */
  ghost predicate Chained(h: HashFunction, log: seq<Event>) {
    forall i :: 0 <= i < |log| ==> LinkAt(h, log, i)
  }

  function LastHash(log: seq<Event>): string {
    if log == [] then "" else log[|log| - 1].hash
  }

  ghost predicate CollisionFree(h: HashFunction) {
    && (forall a, b :: h(a) == h(b) ==> a == b)
    && (forall a :: h(a) != "")
  }

  lemma ChainedIsOrdered(h: HashFunction, log: seq<Event>)
    requires Chained(h, log)
    ensures O.StrictBy(log, SequenceOf) && SortBySequence(log) == log
  {
    forall i, j | 0 <= i < j < |log| ensures SequenceOf(log[i]) < SequenceOf(log[j]) {
      assert LinkAt(h, log, i) && LinkAt(h, log, j);
    }
    O.SortRestores(log, log, SequenceOf);
  }

  /** Tamper evidence: two intact logs that end in the same hash are equal event for event. */
  lemma {:induction false} SameLastHashSameLog(h: HashFunction, a: seq<Event>, b: seq<Event>)
    requires CollisionFree(h) && Chained(h, a) && Chained(h, b) && LastHash(a) == LastHash(b)
    ensures a == b
    decreases |a|
  {
    if a != [] {
      assert LinkAt(h, a, |a| - 1);
    }
    if b != [] {
      assert LinkAt(h, b, |b| - 1);
    }
    if a != [] && b != [] {
      var a', b' := a[..|a| - 1], b[..|b| - 1];
      ChainedPrefix(h, a, |a| - 1);
      ChainedPrefix(h, b, |b| - 1);
      SameLastHashSameLog(h, a', b');
      assert a == a' + [a[|a| - 1]] && b == b' + [b[|b| - 1]];
    }
  }

  lemma ChainedPrefix(h: HashFunction, log: seq<Event>, n: nat)
    requires Chained(h, log) && n <= |log|
    ensures Chained(h, log[..n])
  {
    forall i | 0 <= i < n ensures LinkAt(h, log[..n], i) {
      assert LinkAt(h, log, i);
    }
  }

  datatype Request = Request(id: string, kind: string, aggregate: string, payload: Json, timestamp: string)

  /** The event that appending a request to `log` creates. */
  function NextEvent(h: HashFunction, log: seq<Event>, q: Request): Event {
    var body := Body(q.id, |log| + 1, q.kind, q.aggregate, q.payload, q.timestamp, LastHash(log));
    Event(body, h(body))
  }

  function AppendRun(h: HashFunction, requests: seq<Request>): seq<Event> {
    if requests == [] then
      []
    else
      var log := AppendRun(h, requests[..|requests| - 1]);
      log + [NextEvent(h, log, requests[|requests| - 1])]
  }

  lemma ChainedAppend(h: HashFunction, log: seq<Event>, q: Request)
    requires Chained(h, log)
    ensures Chained(h, log + [NextEvent(h, log, q)])
  {
    var longer := log + [NextEvent(h, log, q)];
    forall i | 0 <= i < |longer| ensures LinkAt(h, longer, i) {
      if i < |log| {
        assert LinkAt(h, log, i);
      }
    }
  }

  /** Every run of appends passes the integrity check. */
  lemma {:induction false} RunsStayIntact(h: HashFunction, requests: seq<Request>)
    ensures Chained(h, AppendRun(h, requests)) && |AppendRun(h, requests)| == |requests|
    ensures SortBySequence(AppendRun(h, requests)) == AppendRun(h, requests)
  {
    if requests != [] {
      RunsStayIntact(h, requests[..|requests| - 1]);
      ChainedAppend(h, AppendRun(h, requests[..|requests| - 1]), requests[|requests| - 1]);
    }
    ChainedIsOrdered(h, AppendRun(h, requests));
  }

  // ---------------------------------------------------------------- reloading

  /** The same events in any order without repetition: what a persistence listing returns. */
  ghost predicate ListingOf(stored: seq<Event>, log: seq<Event>) {
    multiset(stored) == multiset(log)
  }

  /** Reloading an intact log from storage gives back exactly that log, whatever the stored order. */
  lemma ReloadRestores(h: HashFunction, log: seq<Event>, stored: seq<Event>)
    requires Chained(h, log) && ListingOf(stored, log)
    ensures SortBySequence(stored) == log
  {
    ChainedIsOrdered(h, log);
    O.SortRestores(log, stored, SequenceOf);
  }

  /** Storage after writing every event of the log under its id. */
  function Persisted(log: seq<Event>): map<string, Event> {
    if log == [] then map[] else Persisted(log[..|log| - 1])[log[|log| - 1].body.id := log[|log| - 1]]
  }

  ghost predicate DistinctEventIds(log: seq<Event>) {
    forall i, j :: 0 <= i < j < |log| ==> log[i].body.id != log[j].body.id
  }

  /** With fresh ids storage holds every event once, so any listing of it restores the log. */
  lemma StorageRestores(h: HashFunction, log: seq<Event>, stored: seq<Event>)
    requires Chained(h, log) && DistinctEventIds(log)
    requires Distinct(stored) && Elements(stored) == Persisted(log).Values
    ensures SortBySequence(stored) == log
  {
    PersistedValues(log);
    assert Distinct(log);
    SameElementsSameBag(stored, log);
    ReloadRestores(h, log, stored);
  }

  lemma {:induction false} PersistedValues(log: seq<Event>)
    requires DistinctEventIds(log)
    ensures Persisted(log).Values == Elements(log)
    ensures forall id :: id in Persisted(log) ==> exists i :: 0 <= i < |log| && log[i].body.id == id
  {
    if log != [] {
      var init, last := log[..|log| - 1], log[|log| - 1];
      PersistedValues(init);
      assert last.body.id !in Persisted(init);
      var m := Persisted(log);
      assert m[last.body.id] == last;
      assert m.Values == Persisted(init).Values + {last} by {
        forall id | id in Persisted(init) ensures m[id] == Persisted(init)[id] && m[id] in m.Values {
        }
        assert m[last.body.id] in m.Values;
      }
      assert log == init + [last];
      assert Elements(log) == Elements(init) + {last};
    }
  }

  lemma {:induction false} SameElementsSameBag(a: seq<Event>, b: seq<Event>)
    requires Distinct(a) && Distinct(b) && Elements(a) == Elements(b)
    ensures multiset(a) == multiset(b)
  {
    forall e ensures multiset(a)[e] == multiset(b)[e] {
      DistinctMultiplicity(a, e);
      DistinctMultiplicity(b, e);
      assert e in a <==> e in Elements(a);
      assert e in b <==> e in Elements(b);
    }
  }

  lemma {:induction false} DistinctMultiplicity(s: seq<Event>, e: Event)
    requires Distinct(s)
    ensures multiset(s)[e] == if e in s then 1 else 0
  {
    if s != [] {
      DistinctMultiplicity(s[..|s| - 1], e);
      assert s == s[..|s| - 1] + [s[|s| - 1]];
    }
  }

  /** A listing of the events stored under these keys. */
  ghost predicate Lists(stored: seq<Event>, storage: map<string, Event>, keys: set<string>) {
    && (forall e :: e in stored <==> exists id :: id in keys && id in storage && storage[id] == e)
    && (UnderOwnId(storage) ==> Distinct(stored))
  }

  ghost predicate UnderOwnId(storage: map<string, Event>) {
    forall id :: id in storage ==> storage[id].body.id == id
  }

  lemma ListOneMore(stored: seq<Event>, storage: map<string, Event>, keys: set<string>, id: string)
    requires Lists(stored, storage, keys) && keys <= storage.Keys && id in storage && id !in keys
    ensures Lists(stored + [storage[id]], storage, keys + {id})
  {
    var longer := stored + [storage[id]];
    forall e ensures e in longer <==> exists k :: k in keys + {id} && k in storage && storage[k] == e {
      assert e in longer <==> e in stored || e == storage[id];
      if e == storage[id] {
        assert id in keys + {id};
      }
      if e in stored {
        var k :| k in keys && k in storage && storage[k] == e;
        assert k in keys + {id};
      }
    }
    if UnderOwnId(storage) {
      assert storage[id] !in stored;
    }
  }

  /** Whatever intact log with fresh ids was persisted, the reloaded events are that log. */
  ghost predicate Restores(hash: HashFunction, storage: map<string, Event>, events: seq<Event>) {
    forall log :: Chained(hash, log) && DistinctEventIds(log) && storage == Persisted(log) ==> events == log
  }

  lemma ListingRestores(hash: HashFunction, storage: map<string, Event>, stored: seq<Event>)
    requires Lists(stored, storage, storage.Keys)
    ensures Restores(hash, storage, SortBySequence(stored))
  {
    forall log | Chained(hash, log) && DistinctEventIds(log) && storage == Persisted(log)
      ensures SortBySequence(stored) == log
    {
      PersistedUnderOwnId(log);
      forall e ensures e in Elements(stored) <==> e in storage.Values {
        assert e in stored <==> exists id :: id in storage.Keys && id in storage && storage[id] == e;
      }
      assert Elements(stored) == Persisted(log).Values;
      StorageRestores(hash, log, stored);
    }
  }

  /** Reloading and checking integrity tells whether storage holds an intact log, every event under its own id. */
  lemma ReloadDetectsTampering(hash: HashFunction, storage: map<string, Event>, stored: seq<Event>)
    requires UnderOwnId(storage) && Lists(stored, storage, storage.Keys)
    ensures Chained(hash, SortBySequence(stored)) <==>
      exists log :: Chained(hash, log) && DistinctEventIds(log) && storage == Persisted(log)
  {
    var log := SortBySequence(stored);
    ListingRestores(hash, storage, stored);
    if Chained(hash, log) {
      O.SortSorts(stored, SequenceOf);
      SameMembers(log, stored);
      forall i, j | 0 <= i < j < |log| ensures log[i].body.id != log[j].body.id {
        assert LinkAt(hash, log, i) && LinkAt(hash, log, j);
        assert log[i] in stored && log[j] in stored;
      }
      StorageIsPersisted(storage, log);
    }
  }

  lemma SameMembers(a: seq<Event>, b: seq<Event>)
    requires multiset(a) == multiset(b)
    ensures forall e :: e in a <==> e in b
  {
    forall e ensures e in a <==> e in b {
      assert e in a <==> e in multiset(a);
      assert e in b <==> e in multiset(b);
    }
  }

  lemma StorageIsPersisted(storage: map<string, Event>, log: seq<Event>)
    requires UnderOwnId(storage) && DistinctEventIds(log)
    requires forall e :: e in log <==> exists id :: id in storage && storage[id] == e
    ensures storage == Persisted(log)
  {
    PersistedValues(log);
    PersistedUnderOwnId(log);
    var p := Persisted(log);
    forall id | id in storage ensures id in p && p[id] == storage[id] {
      assert storage[id] in log && storage[id] in p.Values;
      var k :| k in p && p[k] == storage[id];
    }
    forall id | id in p ensures id in storage {
      assert p[id] in p.Values && p[id] in log;
    }
  }

  lemma {:induction false} PersistedUnderOwnId(log: seq<Event>)
    ensures UnderOwnId(Persisted(log))
  {
    if log != [] {
      PersistedUnderOwnId(log[..|log| - 1]);
    }
  }

  // ---------------------------------------------------------------- replay

  function Replay(log: seq<Event>, aggregate: string): seq<Event> {
    if log == [] then []
    else if log[|log| - 1].body.aggregate == aggregate then Replay(log[..|log| - 1], aggregate) + [log[|log| - 1]]
    else Replay(log[..|log| - 1], aggregate)
  }

  /** Appends for other aggregates leave a replay alone; its own appends arrive at its end. */
  lemma ReplayAppend(log: seq<Event>, e: Event, aggregate: string)
    ensures Replay(log + [e], aggregate)
         == Replay(log, aggregate) + if e.body.aggregate == aggregate then [e] else []
  {
    assert (log + [e])[..|log + [e]| - 1] == log;
  }

  lemma {:induction false} ReplayMembers(log: seq<Event>, aggregate: string)
    ensures forall e :: e in Replay(log, aggregate) <==> e in log && e.body.aggregate == aggregate
  {
    if log != [] {
      ReplayMembers(log[..|log| - 1], aggregate);
      assert log == log[..|log| - 1] + [log[|log| - 1]];
    }
  }

  lemma {:induction false} ReplayKeepsOrder(log: seq<Event>, aggregate: string)
    requires O.StrictBy(log, SequenceOf)
    ensures O.StrictBy(Replay(log, aggregate), SequenceOf)
  {
    if log != [] {
      var init, last := log[..|log| - 1], log[|log| - 1];
      ReplayKeepsOrder(init, aggregate);
      ReplayMembers(init, aggregate);
      var r := Replay(init, aggregate);
      forall i | 0 <= i < |r| ensures SequenceOf(r[i]) < SequenceOf(last) {
        assert r[i] in init;
        var j :| 0 <= j < |init| && init[j] == r[i];
        assert SequenceOf(log[j]) < SequenceOf(log[|log| - 1]);
      }
      O.StrictSnoc(r, last, SequenceOf);
    }
  }

  /** On an intact log, replay gives each event of the aggregate once and in append order, so the rebuilder's
      sort changes nothing. */
  lemma ReplayIsInOrder(h: HashFunction, log: seq<Event>, aggregate: string)
    requires Chained(h, log)
    ensures O.StrictBy(Replay(log, aggregate), SequenceOf) && Distinct(Replay(log, aggregate))
    ensures SortBySequence(Replay(log, aggregate)) == Replay(log, aggregate)
    ensures forall e :: e in Replay(log, aggregate) <==> e in log && e.body.aggregate == aggregate
  {
    ChainedIsOrdered(h, log);
    ReplayMembers(log, aggregate);
    ReplayKeepsOrder(log, aggregate);
    var r := Replay(log, aggregate);
    forall i, j | 0 <= i < j < |r| ensures r[i] != r[j] {
      assert SequenceOf(r[i]) < SequenceOf(r[j]);
    }
    O.SortRestores(r, r, SequenceOf);
  }

  // ---------------------------------------------------------------- the store

  /** The event carries the next number, the last hash and its own. */
  ghost predicate Follows(hash: HashFunction, log: seq<Event>, e: Event) {
    && e.body.sequence == |log| + 1 && e.hash == hash(e.body)
    && e.body.previous == if log == [] then "" else log[|log| - 1].hash
  }

  /** The event comes last in the replay of its aggregate and leaves every other replay alone. */
  ghost predicate Joins(before: seq<Event>, after: seq<Event>, e: Event, aggregate: string) {
    && Replay(after, aggregate) == Replay(before, aggregate) + [e]
    && forall x :: x != aggregate ==> Replay(after, x) == Replay(before, x)
  }

  lemma AppendedEvent(hash: HashFunction, log: seq<Event>, q: Request, e: Event)
    requires e == NextEvent(hash, log, q)
    ensures Follows(hash, log, e) && e.body.aggregate == q.aggregate && Joins(log, log + [e], e, q.aggregate)
    ensures Chained(hash, log) ==> Chained(hash, log + [e])
  {
    if Chained(hash, log) {
      ChainedAppend(hash, log, q);
    }
    forall x ensures Replay(log + [e], x) == Replay(log, x) + if x == q.aggregate then [e] else [] {
      ReplayAppend(log, e, x);
    }
  }

  class EventStore {
    const hash: HashFunction
    const registry: set<string>
    var events: seq<Event>
    var storage: map<string, Event>

    /** A fresh store on empty persistence. */
    constructor (hash: HashFunction, registry: set<string>)
      ensures this.hash == hash && this.registry == registry
      ensures events == [] && storage == Persisted(events)
    {
      this.hash, this.registry, events, storage := hash, registry, [], map[];
    }

    /** Reload what persistence holds, listed in any order. */
    constructor Load(hash: HashFunction, registry: set<string>, storage: map<string, Event>)
      ensures this.hash == hash && this.registry == registry && this.storage == storage
      ensures exists stored :: Lists(stored, storage, storage.Keys) && events == SortBySequence(stored)
      ensures Restores(hash, storage, events)
    {
      this.hash, this.registry, this.storage := hash, registry, storage;
      var stored: seq<Event> := [];
      var todo := storage.Keys;
      while todo != {}
        invariant todo <= storage.Keys && Lists(stored, storage, storage.Keys - todo)
        decreases todo
      {
        var id :| id in todo;
        ListOneMore(stored, storage, storage.Keys - todo, id);
        assert storage.Keys - (todo - {id}) == (storage.Keys - todo) + {id};
        stored := stored + [storage[id]];
        todo := todo - {id};
      }
      assert storage.Keys - {} == storage.Keys;
      ListingRestores(hash, storage, stored);
      events := SortBySequence(stored);
    }

    /** Refuses unregistered types; otherwise the log grows by one linked event with the given fields, which joins
        the replay of its own aggregate and of no other, and storage follows it. */
    method Append(kind: string, aggregate: string, payload: Json, id: string, timestamp: string)
      returns (r: Option<Event>)
      modifies this
      ensures r.None? <==> kind !in registry
      ensures r.None? ==> events == old(events) && storage == old(storage)
      ensures r.Some? ==> events == old(events) + [r.value] && storage == old(storage)[id := r.value]
      ensures r.Some? ==> Follows(hash, old(events), r.value)
      ensures r.Some? ==>
        var body := r.value.body;
        && body.id == id && body.kind == kind && body.aggregate == aggregate
        && body.payload == payload && body.timestamp == timestamp
      ensures r.Some? ==> Joins(old(events), events, r.value, aggregate)
      ensures old(Chained(hash, events)) ==> Chained(hash, events)
      ensures old(storage == Persisted(events)) ==> storage == Persisted(events)
    {
      if kind !in registry {
        return None;
      }
      var sequence := |events| + 1;
      var previous := if events == [] then "" else events[|events| - 1].hash;
      var body := Body(id, sequence, kind, aggregate, payload, timestamp, previous);
      var event := Event(body, hash(body));
      AppendedEvent(hash, events, Request(id, kind, aggregate, payload, timestamp), event);
      ghost var before := events;
      events := events + [event];
      storage := storage[id := event];
      r := Some(event);
      assert events[..|events| - 1] == before;
    }

    /** The running check over the sorted events accepts exactly the intact chains. */
    method ValidateIntegrity() returns (ok: bool)
      ensures ok <==> Chained(hash, SortBySequence(events))
      ensures Chained(hash, events) ==> ok
    {
      var sorted := SortBySequence(events);
      if Chained(hash, events) {
        ChainedIsOrdered(hash, events);
      }
      var previous := "";
      var expected := 1;
      for i := 0 to |sorted|
        invariant expected == i + 1
        invariant previous == if i == 0 then "" else sorted[i - 1].hash
        invariant forall k :: 0 <= k < i ==> LinkAt(hash, sorted, k)
      {
        var event := sorted[i];
        if event.body.sequence != expected || event.body.previous != previous || event.hash != hash(event.body) {
          assert !LinkAt(hash, sorted, i);
          return false;
        }
        previous := event.hash;
        expected := expected + 1;
      }
      return true;
    }
  }
}
