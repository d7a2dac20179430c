/** Approved builds with undo.

    Files live under canonical targets; `locate` maps a relative path to its target, or to
    nothing when the path is unsafe or escapes the destination.  It is arbitrary, so two paths
    may name one file.  One file write is atomic; `faults` are the paths whose
    write raises in this call. */
module BuildWorker {
  import opened Digraphs
  import opened Values
  import opened TextOrder

  type Path = string
  type Target = string
  type Content = string
  type Digest = string
  type Files = map<Target, Content>
  type Backups = map<Path, Option<Content>>

  datatype Entry = Entry(path: Path, content: Content)

  /** A stored plan; its entries are kept in ascending path order. */
  datatype Plan = Plan(
    tenant: string, execution: string, repository: string,
    entries: seq<Entry>, hashes: map<Path, Digest>, digest: Digest)

  datatype Approval = Approval(tenant: string, digest: Digest)

  datatype Failure = NotFound | Denied | WriteFailed | RollbackMissing

  datatype Response = Done | Refused(failure: Failure)

  /** Canonical target of a path inside a repository. */
  type Locator = (string, Path) -> Option<Target>

  function Paths(entries: seq<Entry>): seq<Path> {
    seq(|entries|, i requires 0 <= i < |entries| => entries[i].path)
  }

  function Lookup(files: Files, t: Target): Option<Content> {
    if t in files then Some(files[t]) else None
  }

  /** Put a target back to what a backup says. */
  function PutBack(files: Files, t: Target, saved: Option<Content>): Files {
    match saved
    case None => files - {t}
    case Some(c) => files[t := c]
  }

  function Saved(backups: Backups, p: Path): Option<Content> {
    if p in backups then backups[p] else None
  }

  function Located(locate: Locator, repository: string, p: Path): Target {
    match locate(repository, p)
    case Some(t) => t
    case None => ""
  }

  function HashesOf(hash: Content -> Digest, entries: seq<Entry>): map<Path, Digest> {
    if entries == [] then map[]
    else HashesOf(hash, entries[..|entries| - 1])[entries[|entries| - 1].path := hash(entries[|entries| - 1].content)]
  }

  lemma {:induction false} HashesOfEntries(hash: Content -> Digest, entries: seq<Entry>)
    requires Distinct(Paths(entries))
    ensures HashesOf(hash, entries).Keys == Elements(Paths(entries))
    ensures forall e :: e in entries ==>
        e.path in HashesOf(hash, entries) && HashesOf(hash, entries)[e.path] == hash(e.content)
  {
    if entries != [] {
      PathsSplit(entries);
      HashesOfEntries(hash, entries[..|entries| - 1]);
      LastEntry(entries);
    }
  }

  lemma LastEntry(entries: seq<Entry>)
    requires entries != []
    ensures
      var init, last := entries[..|entries| - 1], entries[|entries| - 1];
      && Elements(Paths(entries)) == Elements(Paths(init)) + {last.path}
      && forall e :: e in entries ==> e == last || (e in init && e.path in Paths(init))
  {
    var init, last := entries[..|entries| - 1], entries[|entries| - 1];
    assert Paths(entries) == Paths(init) + [last.path];
    forall e | e in entries && e != last ensures e in init && e.path in Paths(init) {
      var i :| 0 <= i < |entries| && entries[i] == e;
      assert init[i] == e && Paths(init)[i] == e.path;
    }
  }

  // ---------------------------------------------------------------- writing and undoing as functions

  /** Files and backups after writing the entries in order. */
  function WriteAll(locate: Locator, repository: string, entries: seq<Entry>, files: Files): (Files, Backups) {
    if entries == [] then
      (files, map[])
    else
      var e := entries[|entries| - 1];
      var (fs, bs) := WriteAll(locate, repository, entries[..|entries| - 1], files);
      var t := Located(locate, repository, e.path);
      (fs[t := e.content], bs[e.path := Lookup(fs, t)])
  }

  /** Put back the listed paths, last one first. */
  function RestoreAll(locate: Locator, repository: string, files: Files, backups: Backups, paths: seq<Path>): Files
    decreases |paths|
  {
    if paths == [] then
      files
    else
      var p := paths[|paths| - 1];
      RestoreAll(locate, repository, PutBack(files, Located(locate, repository, p), Saved(backups, p)), backups,
                 paths[..|paths| - 1])
  }

  lemma RestoreOne(locate: Locator, repository: string, files: Files, backups: Backups, paths: seq<Path>, i: nat)
    requires i < |paths|
    ensures RestoreAll(locate, repository, files, backups, paths[..i + 1])
         == RestoreAll(locate, repository,
                       PutBack(files, Located(locate, repository, paths[i]), Saved(backups, paths[i])),
                       backups, paths[..i])
  {
    assert paths[..i + 1][..|paths[..i + 1]| - 1] == paths[..i];
  }

  lemma {:induction false} BackupKeys(locate: Locator, repository: string, entries: seq<Entry>, files: Files)
    ensures WriteAll(locate, repository, entries, files).1.Keys == Elements(Paths(entries))
  {
    if entries != [] {
      var init, last := entries[..|entries| - 1], entries[|entries| - 1];
      BackupKeys(locate, repository, init, files);
      assert Paths(entries) == Paths(init) + [last.path];
      assert Elements(Paths(entries)) == Elements(Paths(init)) + {last.path};
    }
  }

  /** Undoing the writes in exact reverse order gives the original files, even when several
      paths name one file. */
  lemma {:induction false} UndoRestores(
    locate: Locator, repository: string, entries: seq<Entry>, files: Files, backups: Backups)
    requires Distinct(Paths(entries))
    requires forall p :: p in Paths(entries) ==>
        Saved(backups, p) == Saved(WriteAll(locate, repository, entries, files).1, p)
    ensures RestoreAll(locate, repository, WriteAll(locate, repository, entries, files).0, backups, Paths(entries))
        == files
    decreases |entries|
  {
    if entries != [] {
      var init, last := entries[..|entries| - 1], entries[|entries| - 1];
      var (fs, bs) := WriteAll(locate, repository, init, files);
      var t := Located(locate, repository, last.path);
      PathsSplit(entries);
      assert PutBack(fs[t := last.content], t, Lookup(fs, t)) == fs;
      forall p | p in Paths(init) ensures Saved(backups, p) == Saved(bs, p) {
        assert p in Paths(entries);
      }
      UndoRestores(locate, repository, init, files, backups);
    }
  }

  lemma PathsSplit(entries: seq<Entry>)
    requires entries != []
    ensures Paths(entries)[..|entries| - 1] == Paths(entries[..|entries| - 1])
    ensures Distinct(Paths(entries)) ==>
              Distinct(Paths(entries[..|entries| - 1]))
                && entries[|entries| - 1].path !in Paths(entries[..|entries| - 1])
    ensures forall p :: p in Paths(entries[..|entries| - 1]) ==> p in Paths(entries)
    ensures entries[|entries| - 1].path in Paths(entries)
  {
    var init, all := Paths(entries[..|entries| - 1]), Paths(entries);
    assert forall i :: 0 <= i < |init| ==> init[i] == all[i];
    assert all[|all| - 1] == entries[|entries| - 1].path;
  }

  /** A file outside the targets of the plan is never touched. */
  lemma {:induction false} OtherFilesUntouched(
    locate: Locator, repository: string, entries: seq<Entry>, files: Files, t: Target)
    requires forall e :: e in entries ==> Located(locate, repository, e.path) != t
    ensures Lookup(WriteAll(locate, repository, entries, files).0, t) == Lookup(files, t)
  {
    if entries != [] {
      assert entries[|entries| - 1] in entries;
      OtherFilesUntouched(locate, repository, entries[..|entries| - 1], files, t);
    }
  }

  // ---------------------------------------------------------------- what ends up in a file

  /** Of the entries that name one target, the one written last. */
  ghost predicate LastAtTarget(locate: Locator, repository: string, entries: seq<Entry>, j: nat) {
    j < |entries| && forall i :: j < i < |entries| ==>
      Located(locate, repository, entries[i].path) != Located(locate, repository, entries[j].path)
  }

  /** A target reads back the content of its last entry. */
  lemma {:induction false} LastEntryStands(
    locate: Locator, repository: string, entries: seq<Entry>, files: Files, j: nat)
    requires LastAtTarget(locate, repository, entries, j)
    ensures Lookup(WriteAll(locate, repository, entries, files).0, Located(locate, repository, entries[j].path))
         == Some(entries[j].content)
  {
    if j < |entries| - 1 {
      var init := entries[..|entries| - 1];
      assert LastAtTarget(locate, repository, init, j);
      LastEntryStands(locate, repository, init, files, j);
    }
  }

  lemma {:induction false} SomeEntryIsLast(locate: Locator, repository: string, entries: seq<Entry>, i: nat)
    returns (j: nat)
    requires i < |entries|
    ensures LastAtTarget(locate, repository, entries, j)
    ensures Located(locate, repository, entries[j].path) == Located(locate, repository, entries[i].path)
    decreases |entries| - i
  {
    var t := Located(locate, repository, entries[i].path);
    if k :| i < k < |entries| && Located(locate, repository, entries[k].path) == t {
      j := SomeEntryIsLast(locate, repository, entries, k);
    } else {
      j := i;
    }
  }

  /** This entry hashes like the last one at its target. */
  ghost predicate AgreesWithLast(
    locate: Locator, hash: Content -> Digest, repository: string, entries: seq<Entry>, i: nat)
    requires i < |entries|
  {
    forall j: nat :: LastAtTarget(locate, repository, entries, j)
                     && Located(locate, repository, entries[j].path) == Located(locate, repository, entries[i].path) ==>
      hash(entries[i].content) == hash(entries[j].content)
  }

  /** Entries that share a target hash like the last one there. */
  ghost predicate TargetsAgree(locate: Locator, hash: Content -> Digest, repository: string, entries: seq<Entry>) {
    forall i :: 0 <= i < |entries| ==> AgreesWithLast(locate, hash, repository, entries, i)
  }

  /** The hash check passes exactly when entries that share a target hash alike. */
  lemma CheckPassesIff(locate: Locator, hash: Content -> Digest, plan: Plan, files: Files)
    requires plan.hashes.Keys == Elements(Paths(plan.entries))
    requires forall e :: e in plan.entries ==> e.path in plan.hashes && plan.hashes[e.path] == hash(e.content)
    ensures HashesMatch(locate, hash, plan, WriteAll(locate, plan.repository, plan.entries, files).0)
            <==> TargetsAgree(locate, hash, plan.repository, plan.entries)
  {
    var after := WriteAll(locate, plan.repository, plan.entries, files).0;
    forall i | 0 <= i < |plan.entries|
      ensures HashMatches(locate, hash, plan, after, plan.entries[i])
              <==> AgreesWithLast(locate, hash, plan.repository, plan.entries, i)
    {
      EntryMatchesIff(locate, hash, plan, files, i);
    }
    MatchesByIndex(locate, hash, plan, after);
  }

  lemma MatchesByIndex(locate: Locator, hash: Content -> Digest, plan: Plan, files: Files)
    requires plan.hashes.Keys == Elements(Paths(plan.entries))
    ensures HashesMatch(locate, hash, plan, files) <==>
      forall i :: 0 <= i < |plan.entries| ==> HashMatches(locate, hash, plan, files, plan.entries[i])
  {
    if i :| 0 <= i < |plan.entries| && !HashMatches(locate, hash, plan, files, plan.entries[i]) {
      assert plan.entries[i] in plan.entries;
    }
  }

  lemma EntryMatchesIff(locate: Locator, hash: Content -> Digest, plan: Plan, files: Files, i: nat)
    requires i < |plan.entries|
    requires forall e :: e in plan.entries ==> e.path in plan.hashes && plan.hashes[e.path] == hash(e.content)
    ensures HashMatches(locate, hash, plan, WriteAll(locate, plan.repository, plan.entries, files).0, plan.entries[i])
            <==> AgreesWithLast(locate, hash, plan.repository, plan.entries, i)
  {
    var entries := plan.entries;
    assert entries[i] in entries;
    var k := SomeEntryIsLast(locate, plan.repository, entries, i);
    LastEntryStands(locate, plan.repository, entries, files, k);
    forall j: nat | LastAtTarget(locate, plan.repository, entries, j)
                    && Located(locate, plan.repository, entries[j].path)
                      == Located(locate, plan.repository, entries[i].path)
      ensures j == k
    {
    }
  }

  /** Files after restoring all backed-up paths in reverse path order. */
  ghost function Undone(locate: Locator, repository: string, files: Files, backups: Backups): Files {
    RestoreAll(locate, repository, files, backups, Ordered(backups.Keys))
  }

  /** Of the paths that name one target, the first, which is restored last. */
  ghost predicate FirstAtTarget(locate: Locator, repository: string, paths: seq<Path>, i: nat) {
    i < |paths| && forall j :: 0 <= j < i ==>
      Located(locate, repository, paths[j]) != Located(locate, repository, paths[i])
  }

  /** Whatever the files hold now, restoring leaves the backup of the first path at every target and touches
      no other file. */
  ghost predicate PutBackAll(
    locate: Locator, repository: string, paths: seq<Path>, backups: Backups, before: Files, after: Files) {
    && (forall i: nat :: FirstAtTarget(locate, repository, paths, i) ==>
          Lookup(after, Located(locate, repository, paths[i])) == Saved(backups, paths[i]))
    && (forall t :: (forall p :: p in paths ==> Located(locate, repository, p) != t) ==>
          Lookup(after, t) == Lookup(before, t))
  }

  lemma {:induction false} FirstBackupStands(
    locate: Locator, repository: string, files: Files, backups: Backups, paths: seq<Path>, i: nat)
    requires FirstAtTarget(locate, repository, paths, i)
    ensures Lookup(RestoreAll(locate, repository, files, backups, paths), Located(locate, repository, paths[i]))
         == Saved(backups, paths[i])
    decreases |paths|
  {
    var init, last := paths[..|paths| - 1], paths[|paths| - 1];
    var next := PutBack(files, Located(locate, repository, last), Saved(backups, last));
    if i < |paths| - 1 {
      assert FirstAtTarget(locate, repository, init, i);
      FirstBackupStands(locate, repository, next, backups, init, i);
    } else {
      OthersNotRestored(locate, repository, next, backups, init, Located(locate, repository, last));
    }
  }

  lemma {:induction false} OthersNotRestored(
    locate: Locator, repository: string, files: Files, backups: Backups, paths: seq<Path>, t: Target)
    requires forall p :: p in paths ==> Located(locate, repository, p) != t
    ensures Lookup(RestoreAll(locate, repository, files, backups, paths), t) == Lookup(files, t)
    decreases |paths|
  {
    if paths != [] {
      var last := paths[|paths| - 1];
      assert last in paths;
      OthersNotRestored(locate, repository, PutBack(files, Located(locate, repository, last), Saved(backups, last)),
                        backups, paths[..|paths| - 1], t);
    }
  }

  lemma RestoringPutsBack(locate: Locator, repository: string, files: Files, backups: Backups, paths: seq<Path>)
    ensures PutBackAll(locate, repository, paths, backups, files, RestoreAll(locate, repository, files, backups, paths))
  {
    var after := RestoreAll(locate, repository, files, backups, paths);
    forall i: nat | FirstAtTarget(locate, repository, paths, i)
      ensures Lookup(after, Located(locate, repository, paths[i])) == Saved(backups, paths[i])
    {
      FirstBackupStands(locate, repository, files, backups, paths, i);
    }
    forall t | forall p :: p in paths ==> Located(locate, repository, p) != t
      ensures Lookup(after, t) == Lookup(files, t)
    {
      OthersNotRestored(locate, repository, files, backups, paths, t);
    }
  }

  /** Every target of the plan reads back its last entry, and every other file is as before. */
  ghost predicate Holds(locate: Locator, plan: Plan, before: Files, after: Files) {
    && (forall j: nat :: LastAtTarget(locate, plan.repository, plan.entries, j) ==>
          Lookup(after, Located(locate, plan.repository, plan.entries[j].path)) == Some(plan.entries[j].content))
    && (forall t :: Untargeted(locate, plan, t) ==> Lookup(after, t) == Lookup(before, t))
  }

  ghost predicate Untargeted(locate: Locator, plan: Plan, t: Target) {
    forall e :: e in plan.entries ==> Located(locate, plan.repository, e.path) != t
  }

  /** A plan is written: its files hold it and hash as planned, and the backups of its paths undo it. */
  ghost predicate Accomplished(
    locate: Locator, hash: Content -> Digest, plan: Plan, before: Files, after: Files, backups: Backups)
  {
    && Holds(locate, plan, before, after)
    && HashesMatch(locate, hash, plan, after)
    && backups.Keys == Elements(Paths(plan.entries))
    && Undone(locate, plan.repository, after, backups) == before
  }

  lemma WrittenHolds(locate: Locator, plan: Plan, before: Files, after: Files)
    requires after == WriteAll(locate, plan.repository, plan.entries, before).0
    ensures Holds(locate, plan, before, after)
  {
    forall j: nat | LastAtTarget(locate, plan.repository, plan.entries, j)
      ensures Lookup(after, Located(locate, plan.repository, plan.entries[j].path)) == Some(plan.entries[j].content)
    {
      LastEntryStands(locate, plan.repository, plan.entries, before, j);
    }
    forall t | Untargeted(locate, plan, t) ensures Lookup(after, t) == Lookup(before, t) {
      OtherFilesUntouched(locate, plan.repository, plan.entries, before, t);
    }
  }

  // ---------------------------------------------------------------- the service

  /** What the write loop does with a fault pattern: `None` when some path is refused or its write raises. */
  predicate AllWritable(locate: Locator, repository: string, entries: seq<Entry>, faults: set<Path>) {
    forall e :: e in entries ==> locate(repository, e.path).Some? && e.path !in faults
  }

  ghost predicate HashesMatch(locate: Locator, hash: Content -> Digest, plan: Plan, files: Files) {
    && plan.hashes.Keys == Elements(Paths(plan.entries))
    && forall e :: e in plan.entries ==> HashMatches(locate, hash, plan, files, e)
  }

  predicate HashMatches(locate: Locator, hash: Content -> Digest, plan: Plan, files: Files, e: Entry) {
    var t := Located(locate, plan.repository, e.path);
    t in files && e.path in plan.hashes && plan.hashes[e.path] == hash(files[t])
  }

  type PlanDigest = (string, string, string, seq<Entry>) -> Digest

  /** The build id: a truncated digest of tenant, execution and content hashes. */
  type Identifier = (string, string, map<Path, Digest>) -> string

  /** As `plan` stores it: sorted paths, the hash of every content, the digest of the whole. */
  ghost predicate WellPlanned(hash: Content -> Digest, digest: PlanDigest, plan: Plan) {
    && Ascending(Paths(plan.entries))
    && plan.hashes.Keys == Elements(Paths(plan.entries))
    && (forall e :: e in plan.entries ==> e.path in plan.hashes && plan.hashes[e.path] == hash(e.content))
    && plan.digest == digest(plan.tenant, plan.execution, plan.repository, plan.entries)
  }

  /** Every stored plan is as `plan` makes it, under the id it determines. */
  ghost predicate PlansSound(
    hash: Content -> Digest, digest: PlanDigest, identify: Identifier, plans: map<string, Plan>) {
    forall id :: id in plans ==>
      && WellPlanned(hash, digest, plans[id])
      && id == identify(plans[id].tenant, plans[id].execution, plans[id].hashes)
  }

  ghost predicate ApprovalsTraced(
    hash: Content -> Digest, digest: PlanDigest, approvals: map<string, Approval>, approved: set<(string, Plan)>)
  {
    forall id :: id in approvals ==> Traced(hash, digest, approvals[id], approved)
  }

  ghost predicate Traced(hash: Content -> Digest, digest: PlanDigest, a: Approval, approved: set<(string, Plan)>) {
    exists plan :: (a.tenant, plan) in approved && WellPlanned(hash, digest, plan) && plan.digest == a.digest
  }

  /** No two different plans share a digest. */
  ghost predicate CollisionFree(digest: PlanDigest) {
    forall t1, x1, r1, e1, t2, x2, r2, e2 ::
      digest(t1, x1, r1, e1) == digest(t2, x2, r2, e2) ==> t1 == t2 && x1 == x2 && r1 == r2 && e1 == e2
  }

  /** Unless digests collide, this very plan is among those the tenant approved. */
  ghost predicate TrulyApproved(digest: PlanDigest, approved: set<(string, Plan)>, tenant: string, plan: Plan) {
    CollisionFree(digest) ==> (tenant, plan) in approved
  }

  lemma ApprovePlan(hash: Content -> Digest, digest: PlanDigest, approvals: map<string, Approval>,
                    approved: set<(string, Plan)>, build: string, tenant: string, plan: Plan)
    requires ApprovalsTraced(hash, digest, approvals, approved) && WellPlanned(hash, digest, plan)
    ensures ApprovalsTraced(hash, digest, approvals[build := Approval(tenant, plan.digest)],
                            approved + {(tenant, plan)})
  {
    var after, more := approvals[build := Approval(tenant, plan.digest)], approved + {(tenant, plan)};
    forall id | id in after ensures Traced(hash, digest, after[id], more) {
      if id == build {
        assert (tenant, plan) in more;
      } else {
        assert Traced(hash, digest, approvals[id], approved);
      }
    }
  }

  /** With a collision-free digest, the approval of a stored plan is the approval of that very plan. */
  lemma ApprovalIsOfThisPlan(
    hash: Content -> Digest, digest: PlanDigest, a: Approval, approved: set<(string, Plan)>, plan: Plan)
    requires Traced(hash, digest, a, approved) && WellPlanned(hash, digest, plan) && a.digest == plan.digest
    ensures TrulyApproved(digest, approved, a.tenant, plan)
  {
    if CollisionFree(digest) {
      var other :| (a.tenant, other) in approved && WellPlanned(hash, digest, other) && other.digest == a.digest;
      assert other.tenant == plan.tenant && other.execution == plan.execution;
      assert other.repository == plan.repository && other.entries == plan.entries;
      SameHashes(hash, digest, other, plan);
    }
  }

  lemma SameHashes(hash: Content -> Digest, digest: PlanDigest, a: Plan, b: Plan)
    requires WellPlanned(hash, digest, a) && WellPlanned(hash, digest, b) && a.entries == b.entries
    ensures a.hashes == b.hashes
  {
    PathElements(a.entries);
    forall p | p in a.hashes ensures p in b.hashes && a.hashes[p] == b.hashes[p] {
      var e :| e in a.entries && e.path == p;
    }
  }

  class BuildWorkerService {
    const locate: Locator
    const hash: Content -> Digest
    const digest: PlanDigest
    const identify: Identifier
    var files: Files
    var plans: map<string, Plan>
    var approvals: map<string, Approval>
    var completed: set<string>
    var rollbacks: map<string, Backups>
    /** Every plan each tenant has approved so far, exactly as it was when approved. */
    ghost var approved: set<(string, Plan)>

    constructor (locate: Locator, hash: Content -> Digest, digest: PlanDigest, identify: Identifier, files: Files)
      ensures this.locate == locate && this.hash == hash && this.digest == digest
      ensures this.identify == identify && this.files == files
      ensures Valid()
      ensures plans == map[] && approvals == map[] && completed == {} && rollbacks == map[] && approved == {}
    {
      this.locate, this.hash, this.digest, this.identify, this.files := locate, hash, digest, identify, files;
      plans, approvals, completed, rollbacks, approved := map[], map[], {}, map[], {};
    }

    /** Stored plans are as `plan` makes them, and every stored approval goes back to such a plan. */
    ghost predicate Valid()
      reads this`plans, this`approvals, this`approved
    {
      && PlansSound(hash, digest, identify, plans)
      && ApprovalsTraced(hash, digest, approvals, approved)
    }

    /** Store a plan for the sorted output of the workers, under the id that tenant, execution and contents
        determine; a plan with that id is replaced. */
    method StorePlan(tenant: string, execution: string, repository: string, entries: seq<Entry>) returns (build: string)
      requires Valid() && Ascending(Paths(entries))
      modifies this`plans
      ensures Valid()
      ensures build == identify(tenant, execution, HashesOf(hash, entries))
      ensures plans == old(plans)[build := Plan(tenant, execution, repository, entries, HashesOf(hash, entries),
                                                digest(tenant, execution, repository, entries))]
    {
      AscendingIsDistinct(Paths(entries));
      HashesOfEntries(hash, entries);
      var hashes := HashesOf(hash, entries);
      build := identify(tenant, execution, hashes);
      plans := plans[build := Plan(tenant, execution, repository, entries, hashes,
                                   digest(tenant, execution, repository, entries))];
    }

    /** `_get` and `_approval` both return. */
    predicate Approved(tenant: string, build: string)
      reads this`plans, this`approvals
    {
      && build in plans && plans[build].tenant == tenant
      && build in approvals && approvals[build] == Approval(tenant, plans[build].digest)
    }

    method Approve(tenant: string, build: string) returns (r: Response)
      requires Valid()
      modifies this`approvals, this`approved
      ensures Valid()
      ensures r.Done? <==> build in plans && plans[build].tenant == tenant
      ensures r.Done? ==> Approved(tenant, build)
      ensures r.Done? ==> approvals == old(approvals)[build := Approval(tenant, plans[build].digest)]
      ensures r.Done? ==> approved == old(approved) + {(tenant, plans[build])}
      ensures !r.Done? ==> approvals == old(approvals) && approved == old(approved)
    {
      if build !in plans {
        return Refused(NotFound);
      }
      if plans[build].tenant != tenant {
        return Refused(Denied);
      }
      ApprovePlan(hash, digest, approvals, approved, build, tenant, plans[build]);
      approved := approved + {(tenant, plans[build])};
      approvals := approvals[build := Approval(tenant, plans[build].digest)];
      return Done;
    }

    /** `_restore`: sorted paths in reverse order. */
    method Restore(repository: string, backups: Backups, paths: set<Path>)
      modifies this`files
      ensures files == RestoreAll(locate, repository, old(files), backups, Ordered(paths))
      ensures PutBackAll(locate, repository, Ordered(paths), backups, old(files), files)
    {
      RestoringPutsBack(locate, repository, files, backups, Ordered(paths));
      var sorted := SortedKeys(paths);
      var i := |sorted|;
      assert sorted[..i] == sorted;
      while i > 0
        invariant 0 <= i <= |sorted|
        invariant RestoreAll(locate, repository, files, backups, sorted[..i])
               == RestoreAll(locate, repository, old(files), backups, sorted)
      {
        i := i - 1;
        var p := sorted[i];
        RestoreOne(locate, repository, files, backups, sorted, i);
        files := PutBack(files, Located(locate, repository, p), Saved(backups, p));
      }
    }

    /** The write loop: stops at the first path that is refused or whose write raises. */
    method WriteEntries(plan: Plan, faults: set<Path>) returns (ok: bool, backups: Backups, written: seq<Path>, n: nat)
      modifies this`files
      ensures ok <==> AllWritable(locate, plan.repository, plan.entries, faults)
      ensures n <= |plan.entries| && (ok ==> n == |plan.entries|)
      ensures written == Paths(plan.entries[..n])
      ensures files == WriteAll(locate, plan.repository, plan.entries[..n], old(files)).0
      ensures Distinct(Paths(plan.entries)) ==> forall p :: p in written ==>
                Saved(backups, p) == Saved(WriteAll(locate, plan.repository, plan.entries[..n], old(files)).1, p)
      ensures ok ==> backups == WriteAll(locate, plan.repository, plan.entries, old(files)).1
    {
      var entries := plan.entries;
      backups, written, n := map[], [], 0;
      ok := true;
      assert entries[..0] == [];
      while n < |entries|
        invariant n <= |entries| && ok
        invariant forall k :: 0 <= k < n ==>
            locate(plan.repository, entries[k].path).Some? && entries[k].path !in faults
        invariant written == Paths(entries[..n])
        invariant (files, backups) == WriteAll(locate, plan.repository, entries[..n], old(files))
      {
        var e := entries[n];
        assert entries[..n + 1][..|entries[..n + 1]| - 1] == entries[..n];
        var target := locate(plan.repository, e.path);
        if target.None? {
          ok := false;
          return;
        }
        ghost var before := backups;
        backups := backups[e.path := Lookup(files, target.value)];
        if e.path in faults {
          ok := false;
          FailedBackup(entries, n, before, Lookup(files, target.value), backups);
          return;
        }
        files := files[target.value := e.content];
        written := written + [e.path];
        n := n + 1;
      }
      assert entries[..n] == entries;
    }

    /** The check after the last write: every file hashes to what the plan says. */
    method CheckHashes(plan: Plan) returns (ok: bool)
      ensures ok <==> HashesMatch(locate, hash, plan, files)
    {
      PathElements(plan.entries);
      var paths := set e | e in plan.entries :: e.path;
      if plan.hashes.Keys != paths {
        return false;
      }
      var i := 0;
      while i < |plan.entries|
        invariant i <= |plan.entries|
        invariant forall k :: 0 <= k < i ==> HashMatches(locate, hash, plan, files, plan.entries[k])
      {
        var e := plan.entries[i];
        var t := Located(locate, plan.repository, e.path);
        if t !in files || e.path !in plan.hashes || plan.hashes[e.path] != hash(files[t]) {
          assert e in plan.entries && !HashMatches(locate, hash, plan, files, e);
          return false;
        }
        i := i + 1;
      }
      return true;
    }

    /** Write, check, and put everything back on any failure. */
    method WritePlan(plan: Plan, faults: set<Path>) returns (ok: bool, backups: Backups)
      requires Ascending(Paths(plan.entries))
      modifies this`files
      ensures ok <==> Succeeds(plan, faults, old(files))
      ensures ok ==> files == WriteAll(locate, plan.repository, plan.entries, old(files)).0
      ensures ok ==> backups.Keys == Elements(Paths(plan.entries))
      ensures ok ==> Undone(locate, plan.repository, files, backups) == old(files)
      ensures !ok ==> files == old(files)
    {
      AscendingIsDistinct(Paths(plan.entries));
      var written, n;
      ok, backups, written, n := WriteEntries(plan, faults);
      if ok {
        assert plan.entries[..n] == plan.entries;
        ok := CheckHashes(plan);
      }
      UndoPrefix(locate, plan, n, old(files), backups);
      if ok {
        BackupKeys(locate, plan.repository, plan.entries, old(files));
        AscendingIsUnique(Ordered(backups.Keys), Paths(plan.entries));
      } else {
        AscendingIsUnique(Ordered(Elements(written)), written);
        Restore(plan.repository, backups, Elements(written));
      }
    }

    /** No path is refused or faulty, and the written files hash to what the plan says. */
    ghost predicate Succeeds(plan: Plan, faults: set<Path>, before: Files)
    {
      && AllWritable(locate, plan.repository, plan.entries, faults)
      && HashesMatch(locate, hash, plan, WriteAll(locate, plan.repository, plan.entries, before).0)
    }

    /** Only an approved plan is written.  A build succeeds exactly when every path can be written and entries
        that share a target hash alike; it then leaves the last entry of every target and no other change, with
        backups that undo it.  A build that fails leaves every file as it was. */
    method Execute(tenant: string, build: string, faults: set<Path>) returns (r: Response)
      requires Valid()
      modifies this`files, this`completed, this`rollbacks
      ensures Valid()
      ensures Approved(tenant, build) && build !in old(completed) ==>
        (r.Done? <==> AllWritable(locate, plans[build].repository, plans[build].entries, faults)
                      && TargetsAgree(locate, hash, plans[build].repository, plans[build].entries))
      ensures r.Done? && build !in old(completed) ==>
        && Approved(tenant, build) && TrulyApproved(digest, approved, tenant, plans[build])
        && completed == old(completed) + {build}
        && build in rollbacks && rollbacks == old(rollbacks)[build := rollbacks[build]]
        && Accomplished(locate, hash, plans[build], old(files), files, rollbacks[build])
      ensures r.Done? && build in old(completed) ==>
        build in plans && plans[build].tenant == tenant
        && files == old(files) && completed == old(completed) && rollbacks == old(rollbacks)
      ensures r.Refused? ==> files == old(files) && completed == old(completed) && rollbacks == old(rollbacks)
    {
      if build !in plans {
        return Refused(NotFound);
      }
      var plan := plans[build];
      if plan.tenant != tenant {
        return Refused(Denied);
      }
      if build in completed {
        return Done;
      }
      if !Approved(tenant, build) {
        return Refused(Denied);
      }
      ApprovalIsOfThisPlan(hash, digest, approvals[build], approved, plan);
      PlanOutcome(plan, faults, files);
      var ok := Carry(build, faults);
      return if ok then Done else Refused(WriteFailed);
    }

    /** What writing a stored plan comes to. */
    lemma PlanOutcome(plan: Plan, faults: set<Path>, before: Files)
      requires WellPlanned(hash, digest, plan)
      ensures Succeeds(plan, faults, before) <==>
        && AllWritable(locate, plan.repository, plan.entries, faults)
        && TargetsAgree(locate, hash, plan.repository, plan.entries)
    {
      CheckPassesIff(locate, hash, plan, before);
    }

    /** What an approved execution does. */
    method Carry(build: string, faults: set<Path>) returns (ok: bool)
      requires build in plans && Ascending(Paths(plans[build].entries))
      modifies this`files, this`completed, this`rollbacks
      ensures ok <==> Succeeds(plans[build], faults, old(files))
      ensures ok ==>
        && completed == old(completed) + {build}
        && build in rollbacks && rollbacks == old(rollbacks)[build := rollbacks[build]]
        && Accomplished(locate, hash, plans[build], old(files), files, rollbacks[build])
      ensures !ok ==> files == old(files) && completed == old(completed) && rollbacks == old(rollbacks)
    {
      var backups;
      ok, backups := WritePlan(plans[build], faults);
      if ok {
        WrittenHolds(locate, plans[build], old(files), files);
        rollbacks := rollbacks[build := backups];
        completed := completed + {build};
      }
    }

    /** Puts back every backed-up path, last one first. */
    method Rollback(tenant: string, build: string) returns (r: Response)
      requires Valid()
      modifies this`files
      ensures r.Done? <==> Approved(tenant, build) && build in rollbacks
      ensures r.Done? ==>
        && TrulyApproved(digest, approved, tenant, plans[build])
        && files == Undone(locate, plans[build].repository, old(files), rollbacks[build])
        && PutBackAll(locate, plans[build].repository, Ordered(rollbacks[build].Keys), rollbacks[build],
                      old(files), files)
      ensures r.Refused? ==> files == old(files)
    {
      if build !in plans {
        return Refused(NotFound);
      }
      if !Approved(tenant, build) {
        return Refused(Denied);
      }
      if build !in rollbacks {
        return Refused(RollbackMissing);
      }
      ApprovalIsOfThisPlan(hash, digest, approvals[build], approved, plans[build]);
      Restore(plans[build].repository, rollbacks[build], rollbacks[build].Keys);
      return Done;
    }

    /** Executing a build and rolling it back is the identity on files. */
    method ExecuteThenRollback(tenant: string, build: string, faults: set<Path>) returns (r: Response)
      requires Valid() && build !in completed
      modifies this`files, this`completed, this`rollbacks
      ensures files == old(files)
    {
      ghost var before := files;
      r := Execute(tenant, build, faults);
      if r.Done? {
        ghost var undone := Undone(locate, plans[build].repository, files, rollbacks[build]);
        assert undone == before && Approved(tenant, build) && build in rollbacks;
        r := Rollback(tenant, build);
        assert r.Done? && files == undone;
      }
    }
  }

  lemma PathElements(entries: seq<Entry>)
    ensures Elements(Paths(entries)) == set e | e in entries :: e.path
  {
    forall p | p in Paths(entries) ensures exists e :: e in entries && e.path == p {
      var i :| 0 <= i < |entries| && Paths(entries)[i] == p;
      assert entries[i] in entries;
    }
    forall e | e in entries ensures e.path in Paths(entries) {
      var i :| 0 <= i < |entries| && entries[i] == e;
      assert Paths(entries)[i] == e.path;
    }
  }

  /** Undoing the part of the plan that was written. */
  lemma UndoPrefix(locate: Locator, plan: Plan, n: nat, files: Files, backups: Backups)
    requires Ascending(Paths(plan.entries)) && Distinct(Paths(plan.entries)) && n <= |plan.entries|
    requires forall p :: p in Paths(plan.entries[..n]) ==>
               Saved(backups, p) == Saved(WriteAll(locate, plan.repository, plan.entries[..n], files).1, p)
    ensures RestoreAll(locate, plan.repository, WriteAll(locate, plan.repository, plan.entries[..n], files).0,
                       backups, Paths(plan.entries[..n])) == files
    ensures Ascending(Paths(plan.entries[..n])) && Distinct(Paths(plan.entries[..n]))
  {
    var some, all := Paths(plan.entries[..n]), Paths(plan.entries);
    assert forall i :: 0 <= i < |some| ==> some[i] == all[i];
    UndoRestores(locate, plan.repository, plan.entries[..n], files, backups);
  }

  /** A backup taken for a write that then raised does not disturb the others. */
  lemma FailedBackup(entries: seq<Entry>, n: nat, before: Backups, saved: Option<Content>, after: Backups)
    requires n < |entries| && after == before[entries[n].path := saved]
    ensures Distinct(Paths(entries)) ==> forall p :: p in Paths(entries[..n]) ==> Saved(after, p) == Saved(before, p)
  {
    if Distinct(Paths(entries)) {
      forall p | p in Paths(entries[..n]) ensures p != entries[n].path {
        var i :| 0 <= i < n && Paths(entries[..n])[i] == p;
        assert Paths(entries)[i] == p && Paths(entries)[n] == entries[n].path;
      }
    }
  }

  /** With a collision-free hash, a build whose paths alias one file with different contents never
      passes the check: after a success every path reads back the planned content. */
  lemma CheckedContentsAreThePlan(locate: Locator, hash: Content -> Digest, plan: Plan, files: Files, e: Entry)
    requires forall a, b :: hash(a) == hash(b) ==> a == b
    requires HashesMatch(locate, hash, plan, files)
    requires forall x :: x in plan.entries ==> x.path in plan.hashes && plan.hashes[x.path] == hash(x.content)
    requires e in plan.entries
    ensures Lookup(files, Located(locate, plan.repository, e.path)) == Some(e.content)
  {
    assert HashMatches(locate, hash, plan, files, e);
  }
}
