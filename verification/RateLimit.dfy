/** The per-minute limit on completed connector executions. */
module RateLimit {

  /** Microseconds. */
  const MINUTE: int := 60_000_000

  datatype Key = Key(tenant: string, connector: string)

  datatype Execution = Execution(key: Key, stamp: int)

  /** Executions of one connector for one tenant with a stamp between `lo` and `hi`, both included. */
  function CountBetween(log: seq<Execution>, key: Key, lo: int, hi: int): nat {
    if log == [] then
      0
    else
      var e := log[|log| - 1];
      CountBetween(log[..|log| - 1], key, lo, hi) + if e.key == key && lo <= e.stamp <= hi then 1 else 0
  }

  /** Executions in the closed minute that begins at `start`. */
  function InWindow(log: seq<Execution>, key: Key, start: int): nat {
    CountBetween(log, key, start, start + MINUTE)
  }

  /** As the limiter counts: everything from the cutoff on. */
  function CountSince(log: seq<Execution>, key: Key, cutoff: int): nat {
    if log == [] then
      0
    else
      var e := log[|log| - 1];
      CountSince(log[..|log| - 1], key, cutoff) + if e.key == key && e.stamp >= cutoff then 1 else 0
  }

  /** When it was recorded, fewer than the limit of its predecessors lay within the minute before it. */
  ghost predicate AdmittedAt(log: seq<Execution>, limit: Key -> int, i: nat)
    requires i < |log|
  {
    CountSince(log[..i], log[i].key, log[i].stamp - MINUTE) < limit(log[i].key)
  }

  ghost predicate Admitted(log: seq<Execution>, limit: Key -> int) {
    forall i :: 0 <= i < |log| ==> AdmittedAt(log, limit, i)
  }

  lemma {:induction false} WindowInsideTail(log: seq<Execution>, key: Key, lo: int, hi: int, cutoff: int)
    requires cutoff <= lo
    ensures CountBetween(log, key, lo, hi) <= CountSince(log, key, cutoff)
  {
    if log != [] {
      WindowInsideTail(log[..|log| - 1], key, lo, hi, cutoff);
    }
  }

  lemma {:induction false} LaterCutoffCountsLess(log: seq<Execution>, key: Key, early: int, late: int)
    requires early <= late
    ensures CountSince(log, key, late) <= CountSince(log, key, early)
  {
    if log != [] {
      LaterCutoffCountsLess(log[..|log| - 1], key, early, late);
    }
  }

  function Allowance(limit: int): nat {
    if limit < 0 then 0 else limit
  }

  lemma AdmittedPrefix(log: seq<Execution>, limit: Key -> int)
    requires log != [] && Admitted(log, limit)
    ensures Admitted(log[..|log| - 1], limit)
  {
    var init := log[..|log| - 1];
    forall i | 0 <= i < |init| ensures AdmittedAt(init, limit, i) {
      assert AdmittedAt(log, limit, i);
      assert init[..i] == log[..i];
    }
  }

  /** No closed window of one minute holds more executions of a connector for a tenant than its limit,
      and none at all if that is negative. */
  lemma {:induction false} NoWindowExceedsTheLimit(log: seq<Execution>, limit: Key -> int, key: Key, start: int)
    requires Admitted(log, limit)
    ensures InWindow(log, key, start) <= Allowance(limit(key))
  {
    if log != [] {
      var init, last := log[..|log| - 1], log[|log| - 1];
      AdmittedPrefix(log, limit);
      NoWindowExceedsTheLimit(init, limit, key, start);
      if last.key == key && start <= last.stamp <= start + MINUTE {
        assert AdmittedAt(log, limit, |log| - 1);
        WindowInsideTail(init, key, start, start + MINUTE, last.stamp - MINUTE);
      }
    }
  }

  datatype Response = Completed | Limited | Failed

  /** The recorded executions of one connector for one tenant that are no older than a minute, by place. */
  ghost function Recent(log: seq<Execution>, tenant: string, connector: string, now: int): set<nat> {
    set i: nat | i < |log| && log[i].key.tenant == tenant && log[i].key.connector == connector
                 && log[i].stamp + 60_000_000 >= now
  }

  lemma RecentOfLast(log: seq<Execution>, key: Key, now: int)
    requires log != []
    ensures
      var n := |log| - 1;
      Recent(log, key.tenant, key.connector, now)
      == Recent(log[..n], key.tenant, key.connector, now)
         + if log[n].key == key && log[n].stamp >= now - MINUTE then {n} else {}
  {
    var n := |log| - 1;
    var all, init := Recent(log, key.tenant, key.connector, now), Recent(log[..n], key.tenant, key.connector, now);
    forall i: nat ensures i in all <==> i in init || (i == n && log[n].key == key && log[n].stamp >= now - MINUTE) {
      if i < n {
        assert log[..n][i] == log[i];
      }
    }
  }

  lemma {:induction false} RecentCount(log: seq<Execution>, key: Key, now: int)
    ensures CountSince(log, key, now - MINUTE) == |Recent(log, key.tenant, key.connector, now)|
  {
    if log != [] {
      RecentCount(log[..|log| - 1], key, now);
      RecentOfLast(log, key, now);
    }
  }

  class ConnectorExecutionService {
    const limit: Key -> int
    var executions: seq<Execution>

    constructor (limit: Key -> int)
      ensures this.limit == limit && executions == [] && Valid()
    {
      this.limit, executions := limit, [];
    }

    ghost predicate Valid()
      reads this
    {
      Admitted(executions, limit)
    }

    /** `checked` is the time of the rate check, `stamped` that of the stored record.  Between calls the
        clock may do what it likes; only inside one call it must not step back.  `succeeds` says whether
        everything after the check goes well. */
    method Execute(key: Key, checked: int, stamped: int, succeeds: bool) returns (r: Response)
      modifies this
      ensures r.Limited? <==> CountSince(old(executions), key, checked - MINUTE) >= limit(key)
      ensures r.Limited? <==> |Recent(old(executions), key.tenant, key.connector, checked)| >= limit(key)
      ensures r.Completed? <==> !r.Limited? && succeeds
      ensures executions == if r.Completed? then old(executions) + [Execution(key, stamped)] else old(executions)
      ensures old(Valid()) ==>
        (Valid() <==> !r.Completed? || CountSince(old(executions), key, stamped - MINUTE) < limit(key))
      ensures old(Valid()) && checked <= stamped ==> Valid()
      ensures Valid() ==> forall k, start :: InWindow(executions, k, start) <= Allowance(limit(k))
    {
      RecentCount(executions, key, checked);
      var recent := CountSince(executions, key, checked - MINUTE);
      if recent >= limit(key) {
        r := Limited;
      } else if !succeeds {
        r := Failed;
      } else {
        if checked <= stamped {
          LaterCutoffCountsLess(executions, key, checked - MINUTE, stamped - MINUTE);
        }
        if Valid() {
          AdmitOneIff(executions, limit, Execution(key, stamped));
        }
        executions := executions + [Execution(key, stamped)];
        r := Completed;
      }
      if Valid() {
        forall k, start ensures InWindow(executions, k, start) <= Allowance(limit(k)) {
          NoWindowExceedsTheLimit(executions, limit, k, start);
        }
      }
    }
  }

  /** A clock that steps back inside a call breaks the bound: checked a second after the minute is over,
      stamped exactly at its end. */
  lemma SteppingBackInsideACall(key: Key, log: seq<Execution>)
    requires log == [Execution(key, 0), Execution(key, MINUTE)]
    ensures CountSince(log[..1], key, MINUTE + 1_000_000 - MINUTE) == 0
    ensures InWindow(log, key, 0) == 2
  {
    assert log[..1] == [Execution(key, 0)];
    assert log[..1][..0] == [];
    assert CountBetween(log[..1], key, 0, MINUTE) == 1;
    assert log[..|log| - 1] == log[..1];
  }

  lemma AdmitOneIff(log: seq<Execution>, limit: Key -> int, e: Execution)
    requires Admitted(log, limit)
    ensures Admitted(log + [e], limit) <==> CountSince(log, e.key, e.stamp - MINUTE) < limit(e.key)
  {
    var longer := log + [e];
    assert longer[..|log|] == log;
    assert AdmittedAt(longer, limit, |log|) <==> CountSince(log, e.key, e.stamp - MINUTE) < limit(e.key);
    forall i | 0 <= i < |log| ensures AdmittedAt(longer, limit, i) {
      assert longer[..i] == log[..i];
      assert AdmittedAt(log, limit, i);
    }
  }
}
