/** Fail-closed schema migrations on the in-memory store. */
module Migrations {
  import opened Values
  import O = SequenceOrder

  /** Collections other than the version table. */
  type Data = map<string, map<string, Json>>

  datatype Store = Store(data: Data, versions: map<int, string>)

  /** Result of running a user function, which is handed the whole store: the store as it left it, and
      whether it returned. */
  datatype Attempt = Attempt(store: Store, returned: bool)

  /** `environment` stands for everything outside the store that decides whether a step fails. */
  type Step = (Store, int) -> Attempt

  datatype Migration = Migration(version: int, name: string, apply: Step, validate: Option<Step>)

  function VersionOf(m: Migration): int {
    m.version
  }

  /** The body of the `with` block up to marking the version. */
  function Body(m: Migration, s: Store, environment: int): Attempt {
    var applied := m.apply(s, environment);
    if !applied.returned || m.validate.None? then applied else m.validate.value(applied.store, environment)
  }

  function Marked(s: Store, m: Migration): Store {
    s.(versions := s.versions[m.version := m.name])
  }

  datatype Report = Report(store: Store, applied: seq<int>, failed: Option<int>)

  /** Run the listed migrations until one fails; a failing one leaves no trace. */
  function RunAll(ms: seq<Migration>, s: Store, environment: int): Report {
    if ms == [] then
      Report(s, [], None)
    else
      var attempt := Body(ms[0], s, environment);
      if !attempt.returned then
        Report(s, [], Some(ms[0].version))
      else
        var rest := RunAll(ms[1..], Marked(attempt.store, ms[0]), environment);
        Report(rest.store, [ms[0].version] + rest.applied, rest.failed)
  }

  function Pending(ms: seq<Migration>, versions: set<int>): seq<Migration> {
    if ms == [] then
      []
    else if ms[0].version in versions then
      Pending(ms[1..], versions)
    else
      [ms[0]] + Pending(ms[1..], versions)
  }

  ghost predicate DistinctVersions(ms: seq<Migration>) {
    forall i, j :: 0 <= i < j < |ms| ==> ms[i].version != ms[j].version
  }

  ghost function Versions(ms: seq<Migration>): set<int> {
    set m | m in ms :: m.version
  }

  /** When it returns, a migration's effect depends on the store alone. */
  ghost predicate Repeatable(m: Migration) {
    forall s, e1, e2 :: Body(m, s, e1).returned && Body(m, s, e2).returned ==>
      Body(m, s, e1).store == Body(m, s, e2).store
  }

  /** It adds or removes no row of the version table itself. */
  ghost predicate KeepsVersions(m: Migration) {
    forall s, e :: Body(m, s, e).returned ==> Body(m, s, e).store.versions.Keys == s.versions.Keys
  }

  class MigrationRunner {
    const migrations: seq<Migration>
    var store: Store

    /** Migrations are taken in order of version. */
    constructor (migrations: seq<Migration>, store: Store)
      ensures O.AscendingBy(this.migrations, VersionOf) && multiset(this.migrations) == multiset(migrations)
      ensures O.StrictBy(migrations, VersionOf) ==> this.migrations == migrations
      ensures this.store == store
    {
      O.SortSorts(migrations, VersionOf);
      if O.StrictBy(migrations, VersionOf) {
        O.SortRestores(migrations, migrations, VersionOf);
      }
      this.migrations, this.store := O.SortBy(migrations, VersionOf), store;
    }

    /** Applies what is pending, fail-closed. */
    method Apply(environment: int) returns (applied: seq<int>, failed: Option<int>)
      modifies this
      ensures Outcome(Pending(migrations, old(store).versions.Keys), old(store), environment,
                      Report(store, applied, failed))
      ensures Report(store, applied, failed)
           == RunAll(Pending(migrations, old(store).versions.Keys), old(store), environment)
    {
      RunAllOutcome(Pending(migrations, store.versions.Keys), store, environment);
      applied, failed := ApplyPending(environment);
    }

    /** A snapshot is taken before each migration and put back if it fails; the run stops there. */
    method ApplyPending(environment: int) returns (applied: seq<int>, failed: Option<int>)
      modifies this
      ensures Report(store, applied, failed)
           == RunAll(Pending(migrations, old(store).versions.Keys), old(store), environment)
    {
      var pending := Pending(migrations, store.versions.Keys);
      applied, failed := [], None;
      var i := 0;
      assert pending[0..] == pending;
      while i < |pending|
        invariant i <= |pending| && failed == None
        invariant
          var rest := RunAll(pending[i..], store, environment);
          Report(rest.store, applied + rest.applied, rest.failed) == RunAll(pending, old(store), environment)
      {
        var m := pending[i];
        RunAllAt(pending, i, store, environment);
        var snapshot := store;
        var step := m.apply(store, environment);
        store := step.store;
        if step.returned && m.validate.Some? {
          step := m.validate.value(store, environment);
          store := step.store;
        }
        assert step == Body(m, snapshot, environment);
        if !step.returned {
          store := snapshot;
          assert applied + [] == applied;
          return applied, Some(m.version);
        }
        store := store.(versions := store.versions[m.version := m.name]);
        VersionsAssociate(applied, m.version, RunAll(pending[i + 1..], store, environment).applied);
        applied := applied + [m.version];
        i := i + 1;
      }
    }
  }

  /** A migration goes through: `apply` returns, and so does `validate` if there is one, on what `apply` left. */
  ghost predicate GoesThrough(m: Migration, s: Store, environment: int, after: Store) {
    && m.apply(s, environment).returned
    && match m.validate
       case None => after == m.apply(s, environment).store
       case Some(validate) =>
         validate(m.apply(s, environment).store, environment) == Attempt(after, true)
  }

  /** The stores between the migrations of a run: each goes through on the store before it, and its version is
      marked on what it left. */
  ghost predicate Steps(ms: seq<Migration>, stores: seq<Store>, environment: int) {
    |stores| == |ms| + 1 && forall k :: 0 <= k < |ms| ==> StepAt(ms[k], stores[k], stores[k + 1], environment)
  }

  ghost predicate StepAt(m: Migration, before: Store, after: Store, environment: int) {
    exists left ::
      && GoesThrough(m, before, environment, left)
      && after.data == left.data && after.versions == left.versions[m.version := m.name]
  }

  /** What a run comes to: the migrations before the first that does not go through are applied, one after the
      other, and nothing of that one remains. */
  ghost predicate Outcome(ms: seq<Migration>, s: Store, environment: int, r: Report) {
    && |r.applied| <= |ms| && (forall k :: 0 <= k < |r.applied| ==> r.applied[k] == ms[k].version)
    && (exists stores ::
          Steps(ms[..|r.applied|], stores, environment) && stores[0] == s && stores[|r.applied|] == r.store)
    && (if |r.applied| == |ms| then r.failed == None
        else r.failed == Some(ms[|r.applied|].version)
             && forall after :: !GoesThrough(ms[|r.applied|], r.store, environment, after))
  }

  lemma BodyGoesThrough(m: Migration, s: Store, environment: int, after: Store)
    ensures GoesThrough(m, s, environment, after) <==>
      Body(m, s, environment).returned && after == Body(m, s, environment).store
  {
  }

  lemma {:induction false} RunAllOutcome(ms: seq<Migration>, s: Store, environment: int)
    ensures Outcome(ms, s, environment, RunAll(ms, s, environment))
  {
    var r := RunAll(ms, s, environment);
    if ms == [] {
      assert Steps(ms[..0], [s], environment);
    } else {
      var body := Body(ms[0], s, environment);
      forall after ensures GoesThrough(ms[0], s, environment, after) <==> body.returned && after == body.store {
        BodyGoesThrough(ms[0], s, environment, after);
      }
      if body.returned {
        var next := Marked(body.store, ms[0]);
        RunAllOutcome(ms[1..], next, environment);
        assert GoesThrough(ms[0], s, environment, body.store);
        assert StepAt(ms[0], s, next, environment);
        OutcomeCons(ms, s, next, environment, RunAll(ms[1..], next, environment), r);
      } else {
        assert Steps(ms[..0], [s], environment);
      }
    }
  }

  lemma OutcomeCons(ms: seq<Migration>, s: Store, next: Store, environment: int, rest: Report, r: Report)
    requires ms != [] && StepAt(ms[0], s, next, environment) && Outcome(ms[1..], next, environment, rest)
    requires r == Report(rest.store, [ms[0].version] + rest.applied, rest.failed)
    ensures Outcome(ms, s, environment, r)
  {
    var n := |rest.applied|;
    var stores :| Steps(ms[1..][..n], stores, environment) && stores[0] == next && stores[n] == rest.store;
    StepsCons(ms, n, s, stores, environment);
    assert ([s] + stores)[n + 1] == rest.store;
    if n < |ms| - 1 {
      assert ms[1..][n] == ms[n + 1];
    }
  }

  lemma StepsCons(ms: seq<Migration>, n: nat, s: Store, stores: seq<Store>, environment: int)
    requires ms != [] && n < |ms| && Steps(ms[1..][..n], stores, environment)
    requires StepAt(ms[0], s, stores[0], environment)
    ensures Steps(ms[..n + 1], [s] + stores, environment)
  {
    var longer := [s] + stores;
    forall k | 0 <= k < n + 1 ensures StepAt(ms[..n + 1][k], longer[k], longer[k + 1], environment) {
      if k > 0 {
        assert ms[1..][..n][k - 1] == ms[k];
        assert StepAt(ms[1..][..n][k - 1], stores[k - 1], stores[k], environment);
      }
    }
  }

  /** One more migration of a run. */
  lemma RunAllAt(ms: seq<Migration>, i: nat, s: Store, environment: int)
    requires i < |ms|
    ensures
      var step := Body(ms[i], s, environment);
      var rest := RunAll(ms[i + 1..], Marked(step.store, ms[i]), environment);
      RunAll(ms[i..], s, environment)
      == if step.returned then Report(rest.store, [ms[i].version] + rest.applied, rest.failed)
         else Report(s, [], Some(ms[i].version))
  {
    assert ms[i..][0] == ms[i] && ms[i..][1..] == ms[i + 1..];
  }

  lemma VersionsAssociate(applied: seq<int>, v: int, rest: seq<int>)
    ensures (applied + [v]) + rest == applied + ([v] + rest)
  {
  }

  // ---------------------------------------------------------------- fail closed

  /** The first `n` listed migrations, all returning. */
  ghost predicate Returns(ms: seq<Migration>, s: Store, environment: int) {
    RunAll(ms, s, environment).failed == None
  }

  lemma {:induction false} AppliedPrefix(ms: seq<Migration>, s: Store, environment: int)
    ensures
      var r := RunAll(ms, s, environment);
      && |r.applied| <= |ms| && (r.failed == None <==> |r.applied| == |ms|)
      && (forall k :: 0 <= k < |r.applied| ==> r.applied[k] == ms[k].version)
      && (r.failed.Some? ==> r.failed == Some(ms[|r.applied|].version))
  {
    if ms != [] && Body(ms[0], s, environment).returned {
      AppliedPrefix(ms[1..], Marked(Body(ms[0], s, environment).store, ms[0]), environment);
    }
  }

  lemma VersionsOfCons(ms: seq<Migration>, n: nat)
    requires 0 < n <= |ms|
    ensures Versions(ms[..n]) == {ms[0].version} + Versions(ms[1..][..n - 1])
  {
    assert ms[..n] == [ms[0]] + ms[1..][..n - 1];
    assert ms[0] in ms[..n];
  }

  lemma {:induction false} AppliedVersions(ms: seq<Migration>, s: Store, environment: int)
    requires forall m :: m in ms ==> KeepsVersions(m)
    ensures
      var r := RunAll(ms, s, environment);
      |r.applied| <= |ms| && r.store.versions.Keys == s.versions.Keys + Versions(ms[..|r.applied|])
  {
    AppliedPrefix(ms, s, environment);
    if ms != [] && Body(ms[0], s, environment).returned {
      assert ms[0] in ms && KeepsVersions(ms[0]);
      AppliedVersions(ms[1..], Marked(Body(ms[0], s, environment).store, ms[0]), environment);
      VersionsOfCons(ms, |RunAll(ms, s, environment).applied|);
    } else {
      assert ms[..0] == [];
    }
  }

  /** A failing run leaves the store exactly as the migrations before the failure left it. */
  lemma {:induction false} FailureLeavesTheSuccessfulPrefix(ms: seq<Migration>, s: Store, environment: int)
    ensures
      var r := RunAll(ms, s, environment);
      && |r.applied| <= |ms|
      && RunAll(ms[..|r.applied|], s, environment) == Report(r.store, r.applied, None)
  {
    var r := RunAll(ms, s, environment);
    AppliedPrefix(ms, s, environment);
    var n := |r.applied|;
    if ms != [] && Body(ms[0], s, environment).returned {
      var next := Marked(Body(ms[0], s, environment).store, ms[0]);
      FailureLeavesTheSuccessfulPrefix(ms[1..], next, environment);
      assert ms[..n][1..] == ms[1..][..n - 1] && ms[..n][0] == ms[0];
    } else {
      assert ms[..n] == [];
    }
  }

  // ---------------------------------------------------------------- resuming

  lemma {:induction false} PendingMembers(ms: seq<Migration>, versions: set<int>)
    ensures forall m :: m in Pending(ms, versions) <==> m in ms && m.version !in versions
    ensures DistinctVersions(ms) ==> DistinctVersions(Pending(ms, versions))
  {
    if ms != [] {
      PendingMembers(ms[1..], versions);
      assert ms == [ms[0]] + ms[1..];
      var rest := Pending(ms[1..], versions);
      if DistinctVersions(ms) {
        forall i | 0 <= i < |rest| ensures rest[i].version != ms[0].version {
          assert rest[i] in rest && rest[i] in ms[1..];
          var j :| 0 <= j < |ms[1..]| && ms[1..][j] == rest[i];
          assert ms[j + 1] == rest[i];
        }
        assert DistinctVersions(ms[1..]);
      }
    }
  }

  /** Marking more versions only thins out what is pending. */
  lemma {:induction false} PendingTwice(ms: seq<Migration>, a: set<int>, b: set<int>)
    ensures Pending(ms, a + b) == Pending(Pending(ms, a), b)
  {
    if ms != [] {
      PendingTwice(ms[1..], a, b);
      if ms[0].version !in a {
        var p := Pending(ms, a);
        assert p[0] == ms[0] && p[1..] == Pending(ms[1..], a);
      }
    }
  }

  lemma {:induction false} PendingAfterPrefix(ms: seq<Migration>, n: nat)
    requires DistinctVersions(ms) && n <= |ms|
    ensures Pending(ms, Versions(ms[..n])) == ms[n..]
  {
    if n == 0 {
      assert ms[..0] == [] && Versions([]) == {};
      NothingMarked(ms);
    } else {
      var tail := ms[1..];
      VersionsOfCons(ms, n);
      assert ms[0] in ms[..n];
      PendingTwice(tail, {ms[0].version}, Versions(tail[..n - 1]));
      UnmarkedHead(tail, ms[0].version);
      PendingAfterPrefix(tail, n - 1);
      assert tail[n - 1..] == ms[n..];
    }
  }

  lemma {:induction false} NothingMarked(ms: seq<Migration>)
    ensures Pending(ms, {}) == ms
  {
    if ms != [] {
      NothingMarked(ms[1..]);
      assert ms == [ms[0]] + ms[1..];
    }
  }

  lemma {:induction false} UnmarkedHead(ms: seq<Migration>, v: int)
    requires forall i :: 0 <= i < |ms| ==> ms[i].version != v
    ensures Pending(ms, {v}) == ms
  {
    if ms != [] {
      UnmarkedHead(ms[1..], v);
      assert ms == [ms[0]] + ms[1..];
    }
  }

  lemma {:induction false} RunInTwoParts(ms: seq<Migration>, n: nat, s: Store, environment: int)
    requires n <= |ms| && Returns(ms[..n], s, environment)
    ensures RunAll(ms, s, environment).store
        == RunAll(ms[n..], RunAll(ms[..n], s, environment).store, environment).store
    ensures Returns(ms, s, environment) <==> Returns(ms[n..], RunAll(ms[..n], s, environment).store, environment)
  {
    if n == 0 {
      assert ms[..0] == [] && ms[0..] == ms;
    } else {
      var next := Marked(Body(ms[0], s, environment).store, ms[0]);
      assert ms[..n][1..] == ms[1..][..n - 1] && ms[..n][0] == ms[0];
      RunInTwoParts(ms[1..], n - 1, next, environment);
      assert ms[1..][n - 1..] == ms[n..];
    }
  }

  /** Two runs of repeatable migrations that both return agree, whatever their environments. */
  lemma {:induction false} ReturningRunsAgree(ms: seq<Migration>, s: Store, e1: int, e2: int)
    requires forall m :: m in ms ==> Repeatable(m)
    requires Returns(ms, s, e1) && Returns(ms, s, e2)
    ensures RunAll(ms, s, e1) == RunAll(ms, s, e2)
  {
    if ms != [] {
      assert ms[0] in ms && Repeatable(ms[0]);
      assert Body(ms[0], s, e1).store == Body(ms[0], s, e2).store;
      ReturningRunsAgree(ms[1..], Marked(Body(ms[0], s, e1).store, ms[0]), e1, e2);
    }
  }

  /** What is pending after a run is exactly what it did not apply. */
  lemma PendingAfterRun(migrations: seq<Migration>, s: Store, environment: int, ms: seq<Migration>, r: Report)
    requires DistinctVersions(migrations) && forall m :: m in migrations ==> KeepsVersions(m)
    requires ms == Pending(migrations, s.versions.Keys) && r == RunAll(ms, s, environment)
    ensures |r.applied| <= |ms| && Pending(migrations, r.store.versions.Keys) == ms[|r.applied|..]
  {
    PendingMembers(migrations, s.versions.Keys);
    AppliedVersions(ms, s, environment);
    PendingTwice(migrations, s.versions.Keys, Versions(ms[..|r.applied|]));
    PendingAfterPrefix(ms, |r.applied|);
  }

  lemma {:induction false} PendingIsPart(ms: seq<Migration>, versions: set<int>, n: nat)
    requires forall m :: m in ms ==> Repeatable(m)
    requires n <= |Pending(ms, versions)|
    ensures forall m :: m in Pending(ms, versions)[..n] ==> Repeatable(m)
    ensures forall m :: m in Pending(ms, versions)[n..] ==> Repeatable(m)
  {
    PendingMembers(ms, versions);
  }

  /** A failed apply followed by a successful one equals one uninterrupted apply, and after it nothing is left to do. */
  lemma ResumedApplyEqualsUninterrupted(migrations: seq<Migration>, s: Store, broken: int, resumed: int, straight: int)
    requires DistinctVersions(migrations) && forall m :: m in migrations ==> Repeatable(m) && KeepsVersions(m)
    requires
      var first := RunAll(Pending(migrations, s.versions.Keys), s, broken);
      Returns(Pending(migrations, first.store.versions.Keys), first.store, resumed)
    requires Returns(Pending(migrations, s.versions.Keys), s, straight)
    ensures
      var first := RunAll(Pending(migrations, s.versions.Keys), s, broken);
      var second := RunAll(Pending(migrations, first.store.versions.Keys), first.store, resumed);
      && second.store == RunAll(Pending(migrations, s.versions.Keys), s, straight).store
      && Pending(migrations, second.store.versions.Keys) == []
  {
    var ms := Pending(migrations, s.versions.Keys);
    var first := RunAll(ms, s, broken);
    PendingAfterRun(migrations, s, broken, ms, first);
    var n := |first.applied|;
    var second := RunAll(ms[n..], first.store, resumed);
    PendingIsPart(migrations, s.versions.Keys, n);
    SplitRunsAgree(ms, n, s, first, broken, resumed, straight);
    PendingAfterRun(migrations, first.store, resumed, ms[n..], second);
    AppliedPrefix(ms[n..], first.store, resumed);
  }

  lemma SplitRunsAgree(ms: seq<Migration>, n: nat, s: Store, first: Report, broken: int, resumed: int, straight: int)
    requires first == RunAll(ms, s, broken) && n == |first.applied| <= |ms|
    requires forall m :: m in ms[..n] ==> Repeatable(m)
    requires forall m :: m in ms[n..] ==> Repeatable(m)
    requires Returns(ms[n..], first.store, resumed) && Returns(ms, s, straight)
    ensures RunAll(ms[n..], first.store, resumed).store == RunAll(ms, s, straight).store
  {
    FailureLeavesTheSuccessfulPrefix(ms, s, broken);
    PrefixReturns(ms, n, s, straight);
    ReturningRunsAgree(ms[..n], s, broken, straight);
    RunInTwoParts(ms, n, s, straight);
    ReturningRunsAgree(ms[n..], first.store, resumed, straight);
  }

  lemma {:induction false} PrefixReturns(ms: seq<Migration>, n: nat, s: Store, environment: int)
    requires n <= |ms| && Returns(ms, s, environment)
    ensures Returns(ms[..n], s, environment)
  {
    if n > 0 {
      assert ms[..n][1..] == ms[1..][..n - 1] && ms[..n][0] == ms[0];
      PrefixReturns(ms[1..], n - 1, Marked(Body(ms[0], s, environment).store, ms[0]), environment);
    }
  }
}
