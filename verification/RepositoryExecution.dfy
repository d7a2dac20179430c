/** Approval-gated repository execution: a plan is written only as it was approved, all or
    nothing, and never over an existing file. */
module RepositoryExecution {
  import opened Digraphs
  import opened Values
  import opened BuildWorker

  // ---------------------------------------------------------------- the artifact writer

  /** Files after writing the entries in order; `None` when a path is refused, an existing
      file differs, or reading or writing raises. */
  function WriteNew(
    locate: Locator, repository: string, entries: seq<Entry>, faults: set<Path>, files: Files): Option<Files> {
    if entries == [] then
      Some(files)
    else
      match WriteNew(locate, repository, entries[..|entries| - 1], faults, files)
      case None => None
      case Some(fs) => WriteOne(locate(repository, entries[|entries| - 1].path), entries[|entries| - 1], faults, fs)
  }

  function WriteOne(target: Option<Target>, e: Entry, faults: set<Path>, files: Files): Option<Files> {
    match target
    case None => None
    case Some(t) =>
      if e.path in faults then None
      else if t !in files then Some(files[t := e.content])
      else if files[t] == e.content then Some(files)
      else None
  }

  function Targets(locate: Locator, repository: string, entries: seq<Entry>): set<Target> {
    set e | e in entries :: Located(locate, repository, e.path)
  }

  /** A write that succeeds alters no existing file, adds only targets of the plan, and
      leaves every path of the plan reading back its content. */
  lemma {:induction false} WriteNewAddsThePlan(
    locate: Locator, repository: string, entries: seq<Entry>, faults: set<Path>, files: Files)
    requires WriteNew(locate, repository, entries, faults, files).Some?
    ensures
      var fs := WriteNew(locate, repository, entries, faults, files).value;
      && (forall t :: t in files ==> t in fs && fs[t] == files[t])
      && fs.Keys == files.Keys + Targets(locate, repository, entries)
      && (forall e :: e in entries ==> Lookup(fs, Located(locate, repository, e.path)) == Some(e.content))
  {
    if entries != [] {
      var init, last := entries[..|entries| - 1], entries[|entries| - 1];
      WriteNewAddsThePlan(locate, repository, init, faults, files);
      TargetsSplit(locate, repository, entries);
      var before := WriteNew(locate, repository, init, faults, files).value;
      var fs := WriteOne(locate(repository, last.path), last, faults, before).value;
      assert fs.Keys == before.Keys + {Located(locate, repository, last.path)};
      forall e | e in entries ensures Lookup(fs, Located(locate, repository, e.path)) == Some(e.content) {
        assert e != last ==> e in init;
      }
    }
  }

  lemma TargetsSplit(locate: Locator, repository: string, entries: seq<Entry>)
    requires entries != []
    ensures
      var init, last := entries[..|entries| - 1], entries[|entries| - 1];
      && Targets(locate, repository, entries)
        == Targets(locate, repository, init) + {Located(locate, repository, last.path)}
      && forall e :: e in entries <==> e in init || e == last
  {
    assert entries == entries[..|entries| - 1] + [entries[|entries| - 1]];
  }

  /** Every path is accepted and handled without a fault, a file that exists already holds the planned content,
      and entries that share a target plan the same. */
  ghost predicate Writable(locate: Locator, repository: string, entries: seq<Entry>, faults: set<Path>, files: Files) {
    && (forall e :: e in entries ==>
          var t := locate(repository, e.path);
          t.Some? && e.path !in faults && (t.value in files ==> files[t.value] == e.content))
    && (forall d, e :: d in entries && e in entries
                       && Located(locate, repository, d.path) == Located(locate, repository, e.path) ==>
          d.content == e.content)
  }

  /** A write succeeds exactly when that is so. */
  lemma {:induction false} WriteNewSucceedsIff(
    locate: Locator, repository: string, entries: seq<Entry>, faults: set<Path>, files: Files)
    ensures WriteNew(locate, repository, entries, faults, files).Some?
        <==> Writable(locate, repository, entries, faults, files)
  {
    if entries != [] {
      var init, last := entries[..|entries| - 1], entries[|entries| - 1];
      TargetsSplit(locate, repository, entries);
      WriteNewSucceedsIff(locate, repository, init, faults, files);
      if WriteNew(locate, repository, init, faults, files).Some? {
        WriteNewAddsThePlan(locate, repository, init, faults, files);
        LastFits(locate, repository, init, last, faults, files,
          WriteNew(locate, repository, init, faults, files).value);
      }
      assert last in entries && forall e :: e in init ==> e in entries;
    }
  }

  lemma LastFits(locate: Locator, repository: string, init: seq<Entry>, last: Entry, faults: set<Path>,
                 files: Files, fs: Files)
    requires Writable(locate, repository, init, faults, files)
    requires forall t :: t in files ==> t in fs && fs[t] == files[t]
    requires fs.Keys == files.Keys + Targets(locate, repository, init)
    requires forall e :: e in init ==> Lookup(fs, Located(locate, repository, e.path)) == Some(e.content)
    ensures WriteOne(locate(repository, last.path), last, faults, fs).Some? <==>
      && locate(repository, last.path).Some? && last.path !in faults
      && (Located(locate, repository, last.path) in files ==>
            files[Located(locate, repository, last.path)] == last.content)
      && (forall e :: e in init && Located(locate, repository, e.path) == Located(locate, repository, last.path) ==>
            e.content == last.content)
  {
    var t := Located(locate, repository, last.path);
    if t in fs && t !in files {
      assert t in Targets(locate, repository, init);
    }
  }

  lemma {:induction false} WriteNewFailsForGood(
    locate: Locator, repository: string, entries: seq<Entry>, faults: set<Path>, files: Files, n: nat)
    requires n <= |entries| && WriteNew(locate, repository, entries[..n], faults, files).None?
    ensures WriteNew(locate, repository, entries, faults, files).None?
  {
    if n == |entries| {
      assert entries[..n] == entries;
    } else {
      var init := entries[..|entries| - 1];
      assert init[..n] == entries[..n];
      WriteNewFailsForGood(locate, repository, init, faults, files, n);
    }
  }

  class ArtifactWriter {
    const locate: Locator
    var files: Files

    constructor (locate: Locator, files: Files)
      ensures this.locate == locate && this.files == files
    {
      this.locate, this.files := locate, files;
    }

    /** All or nothing. */
    method Write(repository: string, entries: seq<Entry>, faults: set<Path>) returns (ok: bool)
      modifies this
      ensures ok <==> Writable(locate, repository, entries, faults, old(files))
      ensures ok <==> WriteNew(locate, repository, entries, faults, old(files)).Some?
      ensures ok ==> files == WriteNew(locate, repository, entries, faults, old(files)).value
      ensures !ok ==> files == old(files)
    {
      WriteNewSucceedsIff(locate, repository, entries, faults, files);
      ok := Attempt(repository, entries, faults);
    }

    /** The loop and its clean-up. */
    method Attempt(repository: string, entries: seq<Entry>, faults: set<Path>) returns (ok: bool)
      modifies this
      ensures ok <==> WriteNew(locate, repository, entries, faults, old(files)).Some?
      ensures ok ==> files == WriteNew(locate, repository, entries, faults, old(files)).value
      ensures !ok ==> files == old(files)
    {
      var written: seq<Target> := [];
      var i := 0;
      assert entries[..0] == [];
      while i < |entries|
        invariant i <= |entries|
        invariant WriteNew(locate, repository, entries[..i], faults, old(files)) == Some(files)
        invariant Distinct(written) && Elements(written) !! old(files).Keys
        invariant Elements(written) <= files.Keys && files - Elements(written) == old(files)
      {
        var e := entries[i];
        assert entries[..i + 1][..|entries[..i + 1]| - 1] == entries[..i];
        var target := locate(repository, e.path);
        if target.None? || e.path in faults || (target.value in files && files[target.value] != e.content) {
          WriteNewFailsForGood(locate, repository, entries, faults, old(files), i + 1);
          Unlink(written);
          return false;
        }
        if target.value !in files {
          AddedFile(files, written, target.value, e.content);
          files := files[target.value := e.content];
          written := written + [target.value];
        }
        i := i + 1;
      }
      assert entries[..i] == entries;
      return true;
    }

    /** The clean-up loop: the written targets, last one first. */
    method Unlink(written: seq<Target>)
      modifies this
      ensures files == old(files) - Elements(written)
    {
      var i := |written|;
      assert Elements(written[i..]) == {};
      while i > 0
        invariant 0 <= i <= |written|
        invariant files == old(files) - Elements(written[i..])
      {
        i := i - 1;
        assert written[i..] == [written[i]] + written[i + 1..];
        files := files - {written[i]};
      }
      assert written[0..] == written;
    }

    /** Deletes the listed paths, last one first, whoever wrote them; stops at the first refused path it meets. */
    method Remove(repository: string, entries: seq<Entry>) returns (ok: bool)
      modifies this
      ensures ok <==> forall e :: e in entries ==> locate(repository, e.path).Some?
      ensures files == old(files) - Targets(locate, repository, entries[Reach(locate, repository, entries)..])
    {
      ReachOfLocated(locate, repository, entries);
      var i := |entries|;
      assert entries[i..] == [] && entries[..i] == entries;
      while i > 0
        invariant 0 <= i <= |entries|
        invariant files == old(files) - Targets(locate, repository, entries[i..])
        invariant Reach(locate, repository, entries[..i]) == Reach(locate, repository, entries)
      {
        RemoveStep(locate, repository, entries, i - 1, old(files));
        i := i - 1;
        var target := locate(repository, entries[i].path);
        if target.None? {
          return false;
        }
        files := files - {target.value};
      }
      return true;
    }
  }

  lemma RemoveStep(locate: Locator, repository: string, entries: seq<Entry>, i: nat, files: Files)
    requires i < |entries|
    ensures Reach(locate, repository, entries[..i + 1])
         == if locate(repository, entries[i].path).None? then i + 1 else Reach(locate, repository, entries[..i])
    ensures files - Targets(locate, repository, entries[i..])
         == files - Targets(locate, repository, entries[i + 1..]) - {Located(locate, repository, entries[i].path)}
  {
    assert entries[..i + 1][..|entries[..i + 1]| - 1] == entries[..i];
    assert entries[i..] == [entries[i]] + entries[i + 1..];
    assert Targets(locate, repository, entries[i..])
        == {Located(locate, repository, entries[i].path)} + Targets(locate, repository, entries[i + 1..]);
  }

  /** Where going backwards through the entries stops: just behind the last refused one, or at the start. */
  function Reach(locate: Locator, repository: string, entries: seq<Entry>): (n: nat)
    ensures n <= |entries|
  {
    if entries == [] then 0
    else if locate(repository, entries[|entries| - 1].path).None? then |entries|
    else Reach(locate, repository, entries[..|entries| - 1])
  }

  lemma {:induction false} ReachOfLocated(locate: Locator, repository: string, entries: seq<Entry>)
    ensures Reach(locate, repository, entries) == 0 <==> forall e :: e in entries ==> locate(repository, e.path).Some?
  {
    if entries != [] {
      var last := entries[|entries| - 1];
      assert last in entries;
      ReachOfLocated(locate, repository, entries[..|entries| - 1]);
      assert entries == entries[..|entries| - 1] + [last];
    }
  }

  lemma AddedFile(files: Files, written: seq<Target>, t: Target, c: Content)
    requires t !in files && Elements(written) <= files.Keys
    ensures files[t := c] - Elements(written + [t]) == files - Elements(written)
    ensures Elements(written + [t]) == Elements(written) + {t}
  {
    assert Elements(written + [t]) == Elements(written) + {t};
  }

  /** Deleting the plan's paths after a successful write restores the files exactly when none of them existed before. */
  lemma RollbackRestoresUnlessPresentBefore(
    locate: Locator, repository: string, entries: seq<Entry>, faults: set<Path>, files: Files)
    requires WriteNew(locate, repository, entries, faults, files).Some?
    ensures WriteNew(locate, repository, entries, faults, files).value - Targets(locate, repository, entries) == files
            <==> Targets(locate, repository, entries) !! files.Keys
  {
    WriteNewAddsThePlan(locate, repository, entries, faults, files);
    var fs := WriteNew(locate, repository, entries, faults, files).value;
    var ts := Targets(locate, repository, entries);
    if ts !! files.Keys {
      assert fs - ts == files;
    } else {
      var t :| t in ts && t in files;
      assert t !in fs - ts;
    }
  }

  /** A file that was there with the planned content: writing changes nothing, rolling back deletes it. */
  lemma RollbackLosesAnOldFile(locate: Locator, entries: seq<Entry>, files: Files)
    requires locate == ((repository, path) => Some(path))
    requires entries == [Entry("README.md", "hello")] && files == map["README.md" := "hello"]
    ensures WriteNew(locate, "repo", entries, {}, files) == Some(files)
    ensures files - Targets(locate, "repo", entries) == map[]
  {
    assert WriteNew(locate, "repo", entries[..0], {}, files) == Some(files);
    assert entries[0] in entries;
    assert Targets(locate, "repo", entries) == {"README.md"};
  }

  // ---------------------------------------------------------------- plans and approvals

  /** `context` stands for the platform, the blueprint version and the knowledge pack version. */
  datatype ExecutionPlan = ExecutionPlan(
    id: string, tenant: string, organization: string, principal: string, context: string, repository: string,
    entries: seq<Entry>, hashes: map<Path, Digest>)

  /** The truncated digest of everything that identifies a plan: all of it but the principal. */
  type PlanIdentifier = (string, string, string, string, map<Path, Digest>) -> string

  datatype Failed = Missing | CrossTenant | NotApproved | NotWritten

  datatype Outcome = Written | AlreadyWritten | Failure(reason: Failed)

  type ExecutionDigest = ExecutionPlan -> Digest

  ghost predicate Injective(digest: ExecutionDigest) {
    forall p, q :: digest(p) == digest(q) ==> p == q
  }

  class ExecutionEngine {
    const hash: Content -> Digest
    const digest: ExecutionDigest
    const identify: PlanIdentifier
    const writer: ArtifactWriter
    var plans: map<string, ExecutionPlan>
    var approvals: map<string, Approval>
    var completed: set<string>
    /** Every plan each tenant has approved so far, exactly as it was when approved. */
    ghost var approved: set<(string, ExecutionPlan)>

    constructor (
      hash: Content -> Digest, digest: ExecutionDigest, identify: PlanIdentifier, locate: Locator, files: Files)
      ensures this.hash == hash && this.digest == digest && this.identify == identify && fresh(writer)
      ensures writer.locate == locate && writer.files == files && Valid()
      ensures plans == map[] && approvals == map[] && completed == {} && approved == {}
    {
      this.hash, this.digest, this.identify := hash, digest, identify;
      this.writer := new ArtifactWriter(locate, files);
      plans, approvals, completed, approved := map[], map[], {}, {};
    }

    /** Every stored approval goes back to a plan its tenant approved. */
    ghost predicate Valid()
      reads this`plans, this`approvals, this`approved
    {
      && (forall id :: id in plans ==>
            var p := plans[id];
            p.id == id && p == PlanFor(p.tenant, p.organization, p.principal, p.context, p.repository, p.entries))
      && (forall id :: id in approvals ==>
            exists plan :: (approvals[id].tenant, plan) in approved && digest(plan) == approvals[id].digest)
    }

    /** The plan for these contents, under the id they determine. */
    function PlanFor(tenant: string, organization: string, principal: string, context: string, repository: string,
                     entries: seq<Entry>): ExecutionPlan
    {
      var hashes := HashesOf(hash, entries);
      ExecutionPlan(identify(tenant, organization, context, repository, hashes),
                    tenant, organization, principal, context, repository, entries, hashes)
    }

    /** Store a plan under its id; an older plan with that id is replaced. */
    method MakePlan(tenant: string, organization: string, principal: string, context: string, repository: string,
                    entries: seq<Entry>) returns (plan: ExecutionPlan)
      requires Valid()
      modifies this`plans
      ensures Valid()
      ensures plan == PlanFor(tenant, organization, principal, context, repository, entries)
      ensures plan.tenant == tenant && plan.organization == organization && plan.principal == principal
      ensures plan.context == context && plan.repository == repository && plan.entries == entries
      ensures plan.id == identify(tenant, organization, context, repository, plan.hashes)
      ensures plans == old(plans)[plan.id := plan]
    {
      var hashes := HashesOf(hash, entries);
      var id := identify(tenant, organization, context, repository, hashes);
      plan := ExecutionPlan(id, tenant, organization, principal, context, repository, entries, hashes);
      plans := plans[id := plan];
    }

    /** Plans the contents `entries` again and compares; the new plan is stored before the comparison.
        With the organization it was planned for, a replay fails exactly when some content hashes differently. */
    method Replay(tenant: string, organization: string, principal: string, id: string, entries: seq<Entry>)
      returns (ok: bool)
      requires Valid()
      modifies this`plans
      ensures Valid()
      ensures !(id in old(plans) && old(plans)[id].tenant == tenant) ==> !ok && plans == old(plans)
      ensures id in old(plans) && old(plans)[id].tenant == tenant ==>
        var before := old(plans)[id];
        var plan := PlanFor(tenant, organization, principal, before.context, before.repository, entries);
        && plans == old(plans)[plan.id := plan]
        && (ok <==> plan.id == id && plan.hashes == before.hashes)
        && (organization == before.organization ==> (ok <==> HashesOf(hash, entries) == before.hashes))
    {
      if id !in plans || plans[id].tenant != tenant {
        return false;
      }
      var before := plans[id];
      var plan := MakePlan(tenant, organization, principal, before.context, before.repository, entries);
      return plan.id == id && plan.hashes == before.hashes;
    }

    method Approve(tenant: string, id: string) returns (ok: bool)
      requires Valid()
      modifies this`approvals, this`approved
      ensures Valid() && old(approved) <= approved
      ensures ok <==> id in plans && plans[id].tenant == tenant
      ensures ok ==> approvals == old(approvals)[id := Approval(tenant, digest(plans[id]))]
      ensures ok ==> approved == old(approved) + {(tenant, plans[id])}
      ensures !ok ==> approvals == old(approvals) && approved == old(approved)
    {
      if id !in plans || plans[id].tenant != tenant {
        return false;
      }
      approvals := approvals[id := Approval(tenant, digest(plans[id]))];
      approved := approved + {(tenant, plans[id])};
      return true;
    }

    /** Whatever is written is, path for path, a plan that this tenant approved; existing files
        keep their content; and a run that writes nothing changes nothing. */
    method Execute(tenant: string, id: string, faults: set<Path>) returns (r: Outcome)
      requires Valid()
      modifies this`completed, writer
      ensures Valid()
      ensures r.Written? ==>
        && id in plans && plans[id].tenant == tenant
        && (Injective(digest) ==> (tenant, plans[id]) in approved)
        && (forall e :: e in plans[id].entries ==>
              Lookup(writer.files, Located(writer.locate, plans[id].repository, e.path)) == Some(e.content))
        && (forall t :: t in old(writer.files) ==> Lookup(writer.files, t) == Some(old(writer.files)[t]))
        && writer.files.Keys == old(writer.files).Keys + Targets(writer.locate, plans[id].repository, plans[id].entries)
        && completed == old(completed) + {id}
      ensures !r.Written? ==> writer.files == old(writer.files) && completed == old(completed)
      ensures r.AlreadyWritten? <==> id in plans && plans[id].tenant == tenant && id in old(completed)
      ensures id in plans && plans[id].tenant == tenant && id !in old(completed) ==>
        (r.Written? <==>
          && id in approvals && approvals[id] == Approval(tenant, digest(plans[id]))
          && Writable(writer.locate, plans[id].repository, plans[id].entries, faults, old(writer.files)))
    {
      if id !in plans {
        return Failure(Missing);
      }
      var plan := plans[id];
      if plan.tenant != tenant {
        return Failure(CrossTenant);
      }
      if id in completed {
        return AlreadyWritten;
      }
      if id !in approvals || approvals[id] != Approval(tenant, digest(plan)) {
        return Failure(NotApproved);
      }
      var ok := writer.Write(plan.repository, plan.entries, faults);
      if !ok {
        return Failure(NotWritten);
      }
      WriteNewAddsThePlan(writer.locate, plan.repository, plan.entries, faults, old(writer.files));
      completed := completed + {id};
      return Written;
    }

    /** The tenant's own plan, approved as it is stored now. */
    ghost predicate Approved(tenant: string, id: string)
      reads this`plans, this`approvals
    {
      && id in plans && plans[id].tenant == tenant
      && id in approvals && approvals[id] == Approval(tenant, digest(plans[id]))
    }

    /** Deletes nothing without the approval of the plan as it is stored now; with it, everything up to
        the first refused path. */
    method Rollback(tenant: string, id: string) returns (ok: bool)
      requires Valid()
      modifies writer
      ensures Valid()
      ensures !Approved(tenant, id) ==> !ok && writer.files == old(writer.files)
      ensures Approved(tenant, id) ==>
        var plan := plans[id];
        && (ok <==> forall e :: e in plan.entries ==> writer.locate(plan.repository, e.path).Some?)
        && writer.files == old(writer.files)
             - Targets(writer.locate, plan.repository,
               plan.entries[Reach(writer.locate, plan.repository, plan.entries)..])
        && (Injective(digest) ==> (tenant, plan) in approved)
      ensures ok ==> writer.files == old(writer.files) - Targets(writer.locate, plans[id].repository, plans[id].entries)
    {
      if id !in plans || plans[id].tenant != tenant || id !in approvals
         || approvals[id] != Approval(tenant, digest(plans[id])) {
        return false;
      }
      ok := writer.Remove(plans[id].repository, plans[id].entries);
      ReachOfLocated(writer.locate, plans[id].repository, plans[id].entries);
    }
  }
}
