/** Consensus evaluation of governed proposals, in every mode. */
module Consensus {
  import opened Values

  datatype Ballot = Approve | Reject | Abstain | Escalate | Other(text: string)

  datatype Vote = Vote(
    id: string, proposal: string, tenant: string, voter: string, role: string, ballot: Ballot, weight: int)

  datatype Mode =
    | SingleApprover | Majority | Supermajority | Unanimous | Weighted
    | HumanRequired | SecurityRequired | ComplianceRequired | Unsupported(name: string)

  datatype Policy = Policy(mode: Mode, threshold: real, requiredRoles: seq<string>, requiredApprovals: int)

  /** What the engine looks at in a proposal. */
  datatype Matter = Matter(expired: bool, risk: string, required: int)

  datatype Authority = Authority(maxRisk: string, selfApprovalAllowed: bool)

  datatype Decision = Expired | Blocked | Pending | Escalated | Rejected | Approved | AwaitingHuman

  datatype Reason =
    | ProposalExpired | RiskExceedsAuthority | NoVotes | ProposalEscalated | ProposalRejected
    | MissingRoles(roles: seq<string>) | NotEnoughApprovals | ModeEvaluated(mode: Mode)

  datatype Verdict = Verdict(
    reached: bool, decision: Decision, reason: Reason, approvals: int, rejections: int, abstentions: int)

  datatype Problem = UnauthorizedRole | UnsupportedVote | DivisionByZero | UnsupportedMode

  datatype Evaluation = Result(verdict: Verdict) | Raised(problem: Problem)

  const VOTING_ROLES: set<string> :=
    {"planner", "executor", "reviewer", "compliance_reviewer", "security_reviewer", "human_approver"}

  function RiskRank(risk: string, unknown: int): int {
    if risk == "low" then 1 else if risk == "medium" then 2 else if risk == "high" then 3
    else if risk == "critical" then 4 else unknown
  }

  predicate WithinAuthority(a: Authority, risk: string) {
    RiskRank(risk, 99) <= RiskRank(a.maxRisk, 0)
  }

  // ---------------------------------------------------------------- tallies

  function Tally(votes: seq<Vote>, f: Vote -> int): int {
    if votes == [] then 0 else Tally(votes[..|votes| - 1], f) + f(votes[|votes| - 1])
  }

  function Is(b: Ballot): Vote -> int {
    (v: Vote) => if v.ballot == b then 1 else 0
  }

  function WeightOf(b: Ballot): Vote -> int {
    (v: Vote) => if v.ballot == b then v.weight else 0
  }

  function Approvals(votes: seq<Vote>): int { Tally(votes, Is(Approve)) }
  function Rejections(votes: seq<Vote>): int { Tally(votes, Is(Reject)) }
  function Abstentions(votes: seq<Vote>): int { Tally(votes, Is(Abstain)) }

  predicate HasBallot(votes: seq<Vote>, b: Ballot) {
    exists v :: v in votes && v.ballot == b
  }

  predicate ApprovedByRole(votes: seq<Vote>, role: string) {
    exists v :: v in votes && v.ballot == Approve && v.role == role
  }

  function Missing(roles: seq<string>, votes: seq<Vote>): seq<string> {
    if roles == [] then []
    else
      Missing(roles[..|roles| - 1], votes)
      + if ApprovedByRole(votes, roles[|roles| - 1]) then [] else [roles[|roles| - 1]]
  }

  /** The first complaint of the validation loop. */
  function FirstProblem(votes: seq<Vote>): (r: seq<Problem>)
    ensures |r| <= 1
  {
    if votes == [] then
      []
    else if votes[0].role !in VOTING_ROLES then
      [UnauthorizedRole]
    else if votes[0].ballot.Other? then
      [UnsupportedVote]
    else
      FirstProblem(votes[1..])
  }

  predicate Acceptable(v: Vote) {
    v.role in VOTING_ROLES && !v.ballot.Other?
  }

  function Max(a: int, b: int): int {
    if a < b then b else a
  }

  function MaxReal(a: real, b: real): real {
    if a < b then b else a
  }

  // ---------------------------------------------------------------- evaluation

  /** The approvals that policy and proposal ask for. */
  function Needed(m: Matter, policy: Policy): int {
    Max(policy.requiredApprovals, m.required)
  }

  /** Everything that is decided before the mode is looked at. */
  function Early(m: Matter, votes: seq<Vote>, policy: Policy, a: Authority): Option<Evaluation> {
    var approvals, rejections, abstentions := Approvals(votes), Rejections(votes), Abstentions(votes);
    var missing := Missing(policy.requiredRoles, votes);
    if m.expired then
      Some(Result(Verdict(false, Expired, ProposalExpired, 0, 0, 0)))
    else if !WithinAuthority(a, m.risk) && !policy.mode.HumanRequired? then
      Some(Result(Verdict(false, Blocked, RiskExceedsAuthority, 0, 0, 0)))
    else if votes == [] then
      Some(Result(Verdict(false, Pending, NoVotes, 0, 0, 0)))
    else if FirstProblem(votes) != [] then
      Some(Raised(FirstProblem(votes)[0]))
    else if HasBallot(votes, Escalate) then
      Some(Result(Verdict(false, Escalated, ProposalEscalated, approvals, rejections, abstentions)))
    else if HasBallot(votes, Reject) && (policy.mode.SingleApprover? || policy.mode.Unanimous?) then
      Some(Result(Verdict(false, Rejected, ProposalRejected, approvals, rejections, abstentions)))
    else if missing != [] then
      Some(Result(Verdict(false, Pending, MissingRoles(missing), approvals, rejections, abstentions)))
    else if approvals < Needed(m, policy) then
      Some(Result(Verdict(false, Pending, NotEnoughApprovals, approvals, rejections, abstentions)))
    else
      None
  }

  /** The policy that the security and compliance modes hand over to. */
  function Delegate(policy: Policy, needed: int): Option<Policy> {
    match policy.mode
    case SecurityRequired => Some(Policy(Majority, 0.5, ["security_reviewer"], needed))
    case ComplianceRequired => Some(Policy(Majority, 0.5, ["compliance_reviewer"], needed))
    case _ => None
  }

  function Depth(policy: Policy): nat {
    if policy.mode.SecurityRequired? || policy.mode.ComplianceRequired? then 1 else 0
  }

  /** `ConsensusEngine.evaluate` */
  function Evaluate(m: Matter, votes: seq<Vote>, policy: Policy, a: Authority): Evaluation
    decreases Depth(policy)
  {
    match Early(m, votes, policy, a)
    case Some(e) => e
    case None =>
      match Delegate(policy, Needed(m, policy))
      case Some(inner) => Evaluate(m, votes, inner, a)
      case None => ByMode(votes, policy, Needed(m, policy))
  }

  function Outcome(reached: bool, votes: seq<Vote>, mode: Mode): Evaluation {
    Result(Verdict(reached, if reached then Approved else Pending, ModeEvaluated(mode),
                   Approvals(votes), Rejections(votes), Abstentions(votes)))
  }

  /** The branches of the modes that decide themselves, once enough approvals are in. */
  function ByMode(votes: seq<Vote>, policy: Policy, needed: int): Evaluation {
    var approvals, counted := Approvals(votes), Approvals(votes) + Rejections(votes);
    var total := Max(counted, needed);
    match policy.mode
    case SingleApprover => Outcome(true, votes, policy.mode)
    case Majority => Outcome(2 * approvals > total, votes, policy.mode)
    case Supermajority =>
      if total == 0 then Raised(DivisionByZero)
      else Outcome(approvals as real / total as real >= MaxReal(policy.threshold, 2.0 / 3.0), votes, policy.mode)
    case Unanimous =>
      Outcome(!HasBallot(votes, Reject) && approvals >= needed && counted == approvals, votes, policy.mode)
    case Weighted =>
      var yes, no := Tally(votes, WeightOf(Approve)), Tally(votes, WeightOf(Reject));
      Outcome(yes + no > 0 && yes as real / (yes + no) as real >= policy.threshold, votes, policy.mode)
    case HumanRequired =>
      Result(Verdict(true, AwaitingHuman, ModeEvaluated(policy.mode), approvals, Rejections(votes), Abstentions(votes)))
    case _ => Raised(UnsupportedMode)
  }

  predicate IsApproved(e: Evaluation) {
    e.Result? && e.verdict.decision == Approved
  }

  // ---------------------------------------------------------------- order does not matter

  lemma {:induction false} TallyRemove(votes: seq<Vote>, f: Vote -> int, i: nat)
    requires i < |votes|
    ensures Tally(votes, f) == Tally(votes[..i] + votes[i + 1..], f) + f(votes[i])
  {
    var rest := votes[..i] + votes[i + 1..];
    if i == |votes| - 1 {
      assert rest == votes[..|votes| - 1];
    } else {
      var init := votes[..|votes| - 1];
      TallyRemove(init, f, i);
      assert rest[..|rest| - 1] == init[..i] + init[i + 1..];
      assert rest[|rest| - 1] == votes[|votes| - 1];
    }
  }

  lemma RemoveFromBag<T>(s: seq<T>, i: nat)
    requires i < |s|
    ensures multiset(s[..i] + s[i + 1..]) == multiset(s) - multiset{s[i]}
  {
    assert s == s[..i] + [s[i]] + s[i + 1..];
  }

  lemma {:induction false} TallyPermuted(a: seq<Vote>, b: seq<Vote>, f: Vote -> int)
    requires multiset(a) == multiset(b)
    ensures Tally(a, f) == Tally(b, f)
    decreases |a|
  {
    assert |a| == |multiset(a)| == |b|;
    if a != [] {
      var x := a[|a| - 1];
      assert x in multiset(b);
      var i :| 0 <= i < |b| && b[i] == x;
      var rest := b[..i] + b[i + 1..];
      RemoveFromBag(b, i);
      RemoveFromBag(a, |a| - 1);
      assert a[..|a| - 1] + a[|a|..] == a[..|a| - 1];
      TallyPermuted(a[..|a| - 1], rest, f);
      TallyRemove(b, f, i);
    }
  }

  lemma PermutedMembers(a: seq<Vote>, b: seq<Vote>)
    requires multiset(a) == multiset(b)
    ensures forall v :: v in a <==> v in b
  {
    forall v ensures v in a <==> v in b {
      assert v in a <==> v in multiset(a);
      assert v in b <==> v in multiset(b);
    }
  }

  lemma {:induction false} NoProblem(votes: seq<Vote>)
    ensures FirstProblem(votes) == [] <==> forall v :: v in votes ==> Acceptable(v)
  {
    if votes != [] {
      NoProblem(votes[1..]);
      assert votes == [votes[0]] + votes[1..];
      assert votes[0] in votes;
    }
  }

  lemma {:induction false} MissingSame(roles: seq<string>, a: seq<Vote>, b: seq<Vote>)
    requires forall v :: v in a <==> v in b
    ensures Missing(roles, a) == Missing(roles, b)
  {
    if roles != [] {
      MissingSame(roles[..|roles| - 1], a, b);
    }
  }

  lemma TalliesPermuted(a: seq<Vote>, b: seq<Vote>)
    requires multiset(a) == multiset(b)
    ensures Approvals(a) == Approvals(b) && Rejections(a) == Rejections(b) && Abstentions(a) == Abstentions(b)
    ensures forall ballot :: HasBallot(a, ballot) == HasBallot(b, ballot)
    ensures forall ballot :: Tally(a, WeightOf(ballot)) == Tally(b, WeightOf(ballot))
    ensures a == [] <==> b == []
    ensures FirstProblem(a) == [] <==> FirstProblem(b) == []
  {
    TallyPermuted(a, b, Is(Approve));
    TallyPermuted(a, b, Is(Reject));
    TallyPermuted(a, b, Is(Abstain));
    PermutedMembers(a, b);
    forall ballot ensures Tally(a, WeightOf(ballot)) == Tally(b, WeightOf(ballot)) {
      TallyPermuted(a, b, WeightOf(ballot));
    }
    assert |a| == |multiset(a)| && |b| == |multiset(b)|;
    NoProblem(a);
    NoProblem(b);
  }

  lemma EarlyPermuted(m: Matter, a: seq<Vote>, b: seq<Vote>, policy: Policy, auth: Authority)
    requires multiset(a) == multiset(b)
    ensures
      var x, y := Early(m, a, policy, auth), Early(m, b, policy, auth);
      x == y || (x.Some? && y.Some? && x.value.Raised? && y.value.Raised?)
  {
    TalliesPermuted(a, b);
    PermutedMembers(a, b);
    MissingSame(policy.requiredRoles, a, b);
  }

  lemma ByModePermuted(a: seq<Vote>, b: seq<Vote>, policy: Policy, needed: int)
    requires multiset(a) == multiset(b)
    ensures ByMode(a, policy, needed) == ByMode(b, policy, needed)
  {
    TalliesPermuted(a, b);
  }

  /** In every mode, reordering the votes changes nothing but, at most, which bad vote is complained about. */
  lemma {:induction false} OrderDoesNotMatter(m: Matter, a: seq<Vote>, b: seq<Vote>, policy: Policy, auth: Authority)
    requires multiset(a) == multiset(b)
    ensures
      var x, y := Evaluate(m, a, policy, auth), Evaluate(m, b, policy, auth);
      x == y || (x.Raised? && y.Raised?)
    decreases Depth(policy)
  {
    EarlyPermuted(m, a, b, policy, auth);
    match Delegate(policy, Needed(m, policy)) {
      case Some(inner) => OrderDoesNotMatter(m, a, b, inner, auth);
      case None => ByModePermuted(a, b, policy, Needed(m, policy));
    }
  }

  // ---------------------------------------------------------------- what approval means

  lemma {:induction false} NoneMissing(roles: seq<string>, votes: seq<Vote>)
    ensures Missing(roles, votes) == [] <==> forall r :: r in roles ==> ApprovedByRole(votes, r)
  {
    if roles != [] {
      NoneMissing(roles[..|roles| - 1], votes);
      assert roles == roles[..|roles| - 1] + [roles[|roles| - 1]];
    }
  }

  /** Nothing stands in the way of looking at the mode. */
  predicate Open(m: Matter, votes: seq<Vote>, policy: Policy, a: Authority) {
    && !m.expired && (WithinAuthority(a, m.risk) || policy.mode.HumanRequired?)
    && votes != [] && FirstProblem(votes) == [] && !HasBallot(votes, Escalate)
    && (HasBallot(votes, Reject) ==> !policy.mode.SingleApprover? && !policy.mode.Unanimous?)
    && Missing(policy.requiredRoles, votes) == [] && Approvals(votes) >= Needed(m, policy)
  }

  lemma EarlyUnlessOpen(m: Matter, votes: seq<Vote>, policy: Policy, a: Authority)
    ensures Early(m, votes, policy, a).None? <==> Open(m, votes, policy, a)
    ensures Early(m, votes, policy, a).Some? ==> !IsApproved(Early(m, votes, policy, a).value)
  {
  }

  /** Approval needs an unexpired proposal within agent authority, authorised votes only, no
      escalation, enough approvals from both sides' point of view, and every required role. */
  lemma {:induction false} ApprovalMeans(m: Matter, votes: seq<Vote>, policy: Policy, a: Authority)
    requires IsApproved(Evaluate(m, votes, policy, a))
    ensures !m.expired && WithinAuthority(a, m.risk) && votes != []
    ensures forall v :: v in votes ==> Acceptable(v) && v.ballot != Escalate
    ensures Approvals(votes) >= policy.requiredApprovals && Approvals(votes) >= m.required
    ensures forall r :: r in policy.requiredRoles ==> ApprovedByRole(votes, r)
    ensures policy.mode.SecurityRequired? ==> ApprovedByRole(votes, "security_reviewer")
    ensures policy.mode.ComplianceRequired? ==> ApprovedByRole(votes, "compliance_reviewer")
    ensures !policy.mode.HumanRequired? && !policy.mode.Unsupported?
    decreases Depth(policy)
  {
    EarlyUnlessOpen(m, votes, policy, a);
    NoProblem(votes);
    NoneMissing(policy.requiredRoles, votes);
    assert !HasBallot(votes, Escalate);
    match Delegate(policy, Needed(m, policy)) {
      case Some(inner) =>
        assert inner.requiredRoles[0] in inner.requiredRoles;
        ApprovalMeans(m, votes, inner, a);
      case None =>
    }
  }

  /** One escalating vote rules out approval under every policy. */
  lemma EscalationBlocks(m: Matter, votes: seq<Vote>, policy: Policy, a: Authority)
    requires HasBallot(votes, Escalate)
    ensures
      var e := Evaluate(m, votes, policy, a);
      e.Raised? || e.verdict.decision in {Expired, Blocked, Escalated}
  {
  }

  /** In the simplest mode one authorised approval decides. */
  lemma OneApproverSuffices(m: Matter, v: Vote, policy: Policy, a: Authority)
    requires !m.expired && WithinAuthority(a, m.risk) && v.ballot == Approve && Acceptable(v)
    requires policy.mode.SingleApprover? && policy.requiredRoles == [] && Max(policy.requiredApprovals, m.required) <= 1
    ensures IsApproved(Evaluate(m, [v], policy, a))
  {
    AddVote([], v);
    assert [] + [v] == [v];
    assert Approvals([v]) == 1;
    NoProblem([v]);
    assert !HasBallot([v], Escalate) && !HasBallot([v], Reject);
  }

  lemma OneEscalationDecides(m: Matter, v: Vote, policy: Policy, a: Authority)
    requires !m.expired && WithinAuthority(a, m.risk) && v.ballot == Escalate && Acceptable(v)
    ensures
      var e := Evaluate(m, [v], policy, a);
      e.Result? && e.verdict.decision == Escalated
  {
    NoProblem([v]);
    assert v in [v] && HasBallot([v], Escalate);
  }

  // ---------------------------------------------------------------- monotonicity

  lemma AddVote(votes: seq<Vote>, v: Vote)
    ensures forall f :: Tally(votes + [v], f) == Tally(votes, f) + f(v)
    ensures forall b :: HasBallot(votes + [v], b) <==> HasBallot(votes, b) || v.ballot == b
    ensures forall r ::
      ApprovedByRole(votes + [v], r) <==> ApprovedByRole(votes, r) || (v.ballot == Approve && v.role == r)
    ensures forall x :: x in votes + [v] <==> x in votes || x == v
  {
    assert (votes + [v])[..|votes + [v]| - 1] == votes;
    assert forall x :: x in votes ==> x in votes + [v];
    assert v in votes + [v];
  }

  lemma {:induction false} TallyNonNegative(votes: seq<Vote>, f: Vote -> int)
    requires forall v :: v in votes ==> f(v) >= 0
    ensures Tally(votes, f) >= 0
  {
    if votes != [] {
      assert votes[|votes| - 1] in votes;
      TallyNonNegative(votes[..|votes| - 1], f);
    }
  }

  lemma {:induction false} MissingShrinks(roles: seq<string>, votes: seq<Vote>, v: Vote)
    ensures Missing(roles, votes) == [] ==> Missing(roles, votes + [v]) == []
    ensures v.ballot != Approve ==> Missing(roles, votes + [v]) == Missing(roles, votes)
  {
    AddVote(votes, v);
    if roles != [] {
      MissingShrinks(roles[..|roles| - 1], votes, v);
    }
  }

  /** Adding the same amount to part and whole does not lower a ratio that is at most one. */
  lemma RatioGrows(yes: int, all: int, w: int, bound: real)
    requires 0 <= yes <= all && all > 0 && w >= 0 && yes as real / all as real >= bound
    ensures (yes + w) as real / (all + w) as real >= bound
  {
    var y, n, x := yes as real, all as real, w as real;
    RatioCross(y, n, bound);
    if bound > 0.0 {
      assert bound <= 1.0;
      assert bound * x <= x;
      assert bound * (n + x) == bound * n + bound * x;
    } else {
      assert bound * (n + x) <= 0.0;
    }
    RatioCross(y + x, n + x, bound);
  }

  lemma RatioCross(y: real, n: real, bound: real)
    requires n > 0.0
    ensures y / n >= bound <==> y >= bound * n
  {
    var q := y / n;
    assert q * n == y;
    if q >= bound {
      assert q * n >= bound * n;
    } else {
      assert q * n < bound * n;
    }
  }

  /** Enlarging only the whole does not raise a ratio of non-negative parts. */
  lemma RatioFalls(yes: int, all: int, w: int, bound: real)
    requires 0 <= yes && all > 0 && w >= 0 && bound > 0.0 && yes as real / all as real < bound
    ensures yes as real / (all + w) as real < bound
  {
    var y, n, x := yes as real, all as real, w as real;
    RatioCross(y, n, bound);
    assert bound * x >= 0.0;
    assert bound * (n + x) == bound * n + bound * x;
    RatioCross(y, n + x, bound);
  }

  ghost predicate NonNegativeWeights(votes: seq<Vote>) {
    forall v :: v in votes ==> v.weight >= 0
  }

  lemma TalliesNonNegative(votes: seq<Vote>)
    requires NonNegativeWeights(votes)
    ensures Approvals(votes) >= 0 && Rejections(votes) >= 0
    ensures Tally(votes, WeightOf(Approve)) >= 0 && Tally(votes, WeightOf(Reject)) >= 0
  {
    TallyNonNegative(votes, Is(Approve));
    TallyNonNegative(votes, Is(Reject));
    TallyNonNegative(votes, WeightOf(Approve));
    TallyNonNegative(votes, WeightOf(Reject));
  }

  lemma ApprovalKeepsMode(votes: seq<Vote>, v: Vote, policy: Policy, needed: int)
    requires v.ballot == Approve && v.weight >= 0 && NonNegativeWeights(votes) && Approvals(votes) >= needed
    requires IsApproved(ByMode(votes, policy, needed))
    ensures IsApproved(ByMode(votes + [v], policy, needed))
  {
    AddVote(votes, v);
    TalliesNonNegative(votes);
    var a, r := Approvals(votes), Rejections(votes);
    assert Approvals(votes + [v]) == a + 1 && Rejections(votes + [v]) == r;
    match policy.mode {
      case Supermajority => RatioGrows(a, a + r, 1, MaxReal(policy.threshold, 2.0 / 3.0));
      case Weighted =>
        var yes, no := Tally(votes, WeightOf(Approve)), Tally(votes, WeightOf(Reject));
        assert Tally(votes + [v], WeightOf(Approve)) == yes + v.weight && Tally(votes + [v], WeightOf(Reject)) == no;
        RatioGrows(yes, yes + no, v.weight, policy.threshold);
      case _ =>
    }
  }

  lemma RejectionKeepsMode(votes: seq<Vote>, v: Vote, policy: Policy, needed: int)
    requires v.ballot == Reject && v.weight >= 0 && NonNegativeWeights(votes) && Approvals(votes) >= needed
    requires policy.threshold > 0.0 && !policy.mode.SingleApprover?
    requires IsApproved(ByMode(votes + [v], policy, needed))
    ensures IsApproved(ByMode(votes, policy, needed))
  {
    AddVote(votes, v);
    TalliesNonNegative(votes);
    var a, r := Approvals(votes), Rejections(votes);
    assert Approvals(votes + [v]) == a && Rejections(votes + [v]) == r + 1;
    match policy.mode {
      case Supermajority =>
        var bound := MaxReal(policy.threshold, 2.0 / 3.0);
        if a + r > 0 && a as real / (a + r) as real < bound {
          RatioFalls(a, a + r, 1, bound);
        }
      case Weighted =>
        var yes, no := Tally(votes, WeightOf(Approve)), Tally(votes, WeightOf(Reject));
        assert Tally(votes + [v], WeightOf(Approve)) == yes && Tally(votes + [v], WeightOf(Reject)) == no + v.weight;
        if yes + no > 0 && yes as real / (yes + no) as real < policy.threshold {
          RatioFalls(yes, yes + no, v.weight, policy.threshold);
        }
      case _ =>
    }
  }

  lemma ApprovalKeepsOpen(m: Matter, votes: seq<Vote>, v: Vote, policy: Policy, a: Authority)
    requires v.ballot == Approve && Acceptable(v) && Open(m, votes, policy, a)
    ensures Open(m, votes + [v], policy, a)
  {
    AddVote(votes, v);
    NoProblem(votes);
    NoProblem(votes + [v]);
    MissingShrinks(policy.requiredRoles, votes, v);
    assert Approvals(votes + [v]) == Approvals(votes) + 1;
  }

  /** An added authorised approval never undoes approval, in any mode. */
  lemma {:induction false} AddedApprovalKeepsApproval(
    m: Matter, votes: seq<Vote>, v: Vote, policy: Policy, a: Authority)
    requires v.ballot == Approve && Acceptable(v) && v.weight >= 0 && NonNegativeWeights(votes)
    requires IsApproved(Evaluate(m, votes, policy, a))
    ensures IsApproved(Evaluate(m, votes + [v], policy, a))
    decreases Depth(policy)
  {
    EarlyUnlessOpen(m, votes, policy, a);
    ApprovalKeepsOpen(m, votes, v, policy, a);
    EarlyUnlessOpen(m, votes + [v], policy, a);
    match Delegate(policy, Needed(m, policy)) {
      case Some(inner) => AddedApprovalKeepsApproval(m, votes, v, inner, a);
      case None => ApprovalKeepsMode(votes, v, policy, Needed(m, policy));
    }
  }

  lemma RejectionKeepsOpen(m: Matter, votes: seq<Vote>, v: Vote, policy: Policy, a: Authority)
    requires v.ballot == Reject && Open(m, votes + [v], policy, a)
    ensures votes == [] || Open(m, votes, policy, a)
    ensures Approvals(votes) >= Needed(m, policy) && !policy.mode.SingleApprover?
  {
    AddVote(votes, v);
    NoProblem(votes);
    NoProblem(votes + [v]);
    MissingShrinks(policy.requiredRoles, votes, v);
    assert Approvals(votes + [v]) == Approvals(votes);
  }

  /** An added rejection never creates approval, in any mode with a positive threshold. */
  lemma {:induction false} AddedRejectionNeverApproves(
    m: Matter, votes: seq<Vote>, v: Vote, policy: Policy, a: Authority)
    requires v.ballot == Reject && v.weight >= 0 && NonNegativeWeights(votes) && policy.threshold > 0.0
    requires !IsApproved(Evaluate(m, votes, policy, a))
    ensures !IsApproved(Evaluate(m, votes + [v], policy, a))
    decreases Depth(policy)
  {
    EarlyUnlessOpen(m, votes, policy, a);
    EarlyUnlessOpen(m, votes + [v], policy, a);
    if Open(m, votes + [v], policy, a) {
      RejectionKeepsOpen(m, votes, v, policy, a);
      match Delegate(policy, Needed(m, policy)) {
        case Some(inner) => AddedRejectionNeverApproves(m, votes, v, inner, a);
        case None => RejectionDecidesNothing(votes, v, policy, Needed(m, policy));
      }
    }
  }

  /** Once a mode is reached, taking a rejection away keeps approval; and a lone rejection is none. */
  lemma RejectionDecidesNothing(votes: seq<Vote>, v: Vote, policy: Policy, needed: int)
    requires v.ballot == Reject && v.weight >= 0 && NonNegativeWeights(votes) && policy.threshold > 0.0
    requires Approvals(votes) >= needed && !policy.mode.SingleApprover?
    ensures IsApproved(ByMode(votes + [v], policy, needed)) ==> votes != [] && IsApproved(ByMode(votes, policy, needed))
  {
    if IsApproved(ByMode(votes + [v], policy, needed)) {
      RejectionKeepsMode(votes, v, policy, needed);
      if votes == [] {
        assert [] + [v] == [v];
        OneRejection(v, policy, needed);
      }
    }
  }

  lemma OneRejection(v: Vote, policy: Policy, needed: int)
    requires v.ballot == Reject && v.weight >= 0 && policy.threshold > 0.0 && !policy.mode.SingleApprover?
        && needed <= 0
    ensures !IsApproved(ByMode([v], policy, needed))
  {
    AddVote([], v);
    assert [] + [v] == [v];
    assert Approvals([v]) == 0 && Rejections([v]) == 1;
    match policy.mode {
      case Supermajority => assert 0.0 / 1.0 == 0.0;
      case Weighted =>
        assert Tally([v], WeightOf(Approve)) == 0 && Tally([v], WeightOf(Reject)) == v.weight;
        if v.weight > 0 {
          assert 0.0 / v.weight as real == 0.0;
        }
      case _ =>
    }
  }

  // ---------------------------------------------------------------- verdicts in counts of votes

  const RISKS := ["low", "medium", "high", "critical"]

  /** A risk is within authority exactly when both are known levels and it is not the higher one. */
  lemma AuthorityMeans(a: Authority, risk: string)
    ensures WithinAuthority(a, risk)
        <==> exists i, j :: 0 <= i <= j < |RISKS| && RISKS[i] == risk && RISKS[j] == a.maxRisk
  {
    assert RISKS[0] == "low" && RISKS[1] == "medium" && RISKS[2] == "high" && RISKS[3] == "critical";
    DistinctRisks();
    if WithinAuthority(a, risk) {
      var i, j := RiskRank(risk, 99) - 1, RiskRank(a.maxRisk, 0) - 1;
      assert RISKS[i] == risk && RISKS[j] == a.maxRisk;
    }
    if i, j :| 0 <= i <= j < |RISKS| && RISKS[i] == risk && RISKS[j] == a.maxRisk {
      assert RiskRank(risk, 99) == i + 1 && RiskRank(a.maxRisk, 0) == j + 1;
    }
  }

  lemma DistinctRisks()
    ensures "low" != "medium" && "low" != "high" && "low" != "critical"
    ensures "medium" != "high" && "medium" != "critical" && "high" != "critical"
  {
    assert "low"[0] == 'l' && "medium"[0] == 'm' && "high"[0] == 'h' && "critical"[0] == 'c';
  }

  /** The votes with this ballot, by their place in the list. */
  ghost function Places(votes: seq<Vote>, b: Ballot): set<nat> {
    set i: nat | i < |votes| && votes[i].ballot == b
  }

  lemma PlacesOfLast(votes: seq<Vote>, b: Ballot)
    requires votes != []
    ensures
      var n := |votes| - 1;
      Places(votes, b) == Places(votes[..n], b) + if votes[n].ballot == b then {n} else {}
  {
    var n := |votes| - 1;
    var all, init := Places(votes, b), Places(votes[..n], b);
    forall i: nat ensures i in all <==> i in init || (i == n && votes[n].ballot == b) {
      if i < n {
        assert votes[..n][i] == votes[i];
      }
    }
  }

  lemma {:induction false} TallyCounts(votes: seq<Vote>, b: Ballot)
    ensures Tally(votes, Is(b)) == |Places(votes, b)|
  {
    if votes != [] {
      TallyCounts(votes[..|votes| - 1], b);
      PlacesOfLast(votes, b);
    }
  }

  lemma BallotHasPlace(votes: seq<Vote>, b: Ballot)
    ensures HasBallot(votes, b) <==> |Places(votes, b)| > 0
  {
    if v :| v in votes && v.ballot == b {
      var i :| 0 <= i < |votes| && votes[i] == v;
      assert i in Places(votes, b);
    } else {
      assert Places(votes, b) == {};
    }
  }

  /** The weights of the votes with this ballot, added up. */
  ghost function Weight(votes: seq<Vote>, b: Ballot): int {
    if votes == [] then 0
    else Weight(votes[1..], b) + if votes[0].ballot == b then votes[0].weight else 0
  }

  lemma {:induction false} TallyWeighs(votes: seq<Vote>, b: Ballot)
    ensures Tally(votes, WeightOf(b)) == Weight(votes, b)
  {
    if votes != [] {
      TallyRemove(votes, WeightOf(b), 0);
      assert votes[..0] + votes[1..] == votes[1..];
      TallyWeighs(votes[1..], b);
    }
  }

  /** What each mode asks for once nothing stands in the way. */
  ghost predicate Reached(votes: seq<Vote>, policy: Policy, needed: int) {
    var yes, no := |Places(votes, Approve)|, |Places(votes, Reject)|;
    var total: int := if yes + no < needed then needed else yes + no;
    match policy.mode
    case SingleApprover => true
    case Majority => 2 * yes > total
    case Supermajority => total > 0 && 3 * yes >= 2 * total && yes as real >= policy.threshold * total as real
    case Unanimous => no == 0
    case Weighted =>
      var pro, contra := Weight(votes, Approve), Weight(votes, Reject);
      pro + contra > 0 && pro as real >= policy.threshold * (pro + contra) as real
    case SecurityRequired => 2 * yes > total && ApprovedByRole(votes, "security_reviewer")
    case ComplianceRequired => 2 * yes > total && ApprovedByRole(votes, "compliance_reviewer")
    case HumanRequired => false
    case Unsupported(_) => false
  }

  /** Everything before the mode, in terms of the votes themselves. */
  ghost predicate Admissible(m: Matter, votes: seq<Vote>, policy: Policy, a: Authority) {
    && !m.expired && (WithinAuthority(a, m.risk) || policy.mode.HumanRequired?) && votes != []
    && (forall v :: v in votes ==> Acceptable(v) && v.ballot != Escalate)
    && (forall v :: v in votes && v.ballot == Reject ==> !policy.mode.SingleApprover? && !policy.mode.Unanimous?)
    && (forall r :: r in policy.requiredRoles ==> ApprovedByRole(votes, r))
    && |Places(votes, Approve)| >= policy.requiredApprovals && |Places(votes, Approve)| >= m.required
  }

  lemma OpenIffAdmissible(m: Matter, votes: seq<Vote>, policy: Policy, a: Authority)
    ensures Open(m, votes, policy, a) <==> Admissible(m, votes, policy, a)
  {
    NoProblem(votes);
    NoneMissing(policy.requiredRoles, votes);
    TallyCounts(votes, Approve);
  }

  lemma SupermajorityIff(yes: int, total: int, threshold: real)
    requires total > 0
    ensures yes as real / total as real >= MaxReal(threshold, 2.0 / 3.0)
            <==> 3 * yes >= 2 * total && yes as real >= threshold * total as real
  {
    RatioCross(yes as real, total as real, threshold);
    RatioCross(yes as real, total as real, 2.0 / 3.0);
    assert (2.0 / 3.0) * total as real == (2.0 * total as real) / 3.0;
  }

  lemma ModeReaches(votes: seq<Vote>, policy: Policy, needed: int)
    requires Approvals(votes) >= needed && Delegate(policy, needed).None?
    ensures IsApproved(ByMode(votes, policy, needed)) <==> Reached(votes, policy, needed)
  {
    match policy.mode {
      case Supermajority => SupermajorityReaches(votes, policy, needed);
      case Weighted => WeightedReaches(votes, policy, needed);
      case Unanimous =>
        TallyCounts(votes, Approve);
        TallyCounts(votes, Reject);
        BallotHasPlace(votes, Reject);
      case _ =>
        TallyCounts(votes, Approve);
        TallyCounts(votes, Reject);
    }
  }

  lemma SupermajorityReaches(votes: seq<Vote>, policy: Policy, needed: int)
    requires policy.mode.Supermajority?
    ensures IsApproved(ByMode(votes, policy, needed)) <==> Reached(votes, policy, needed)
  {
    TallyCounts(votes, Approve);
    TallyCounts(votes, Reject);
    var total := Max(Approvals(votes) + Rejections(votes), needed);
    if total > 0 {
      SupermajorityIff(Approvals(votes), total, policy.threshold);
    }
  }

  lemma WeightedReaches(votes: seq<Vote>, policy: Policy, needed: int)
    requires policy.mode.Weighted?
    ensures IsApproved(ByMode(votes, policy, needed)) <==> Reached(votes, policy, needed)
  {
    TallyWeighs(votes, Approve);
    TallyWeighs(votes, Reject);
    var pro, contra := Weight(votes, Approve), Weight(votes, Reject);
    if pro + contra > 0 {
      RatioCross(pro as real, (pro + contra) as real, policy.threshold);
    }
  }

  /** A proposal is approved exactly when nothing stands in the way and the counts reach what the mode asks for. */
  lemma ApprovedIff(m: Matter, votes: seq<Vote>, policy: Policy, a: Authority)
    ensures IsApproved(Evaluate(m, votes, policy, a)) <==>
      Admissible(m, votes, policy, a) && Reached(votes, policy, Needed(m, policy))
  {
    EarlyUnlessOpen(m, votes, policy, a);
    OpenIffAdmissible(m, votes, policy, a);
    if Open(m, votes, policy, a) {
      match Delegate(policy, Needed(m, policy)) {
        case Some(inner) => DelegateReaches(m, votes, policy, a, inner);
        case None => ModeReaches(votes, policy, Needed(m, policy));
      }
    }
  }

  lemma DelegateReaches(m: Matter, votes: seq<Vote>, policy: Policy, a: Authority, inner: Policy)
    requires Open(m, votes, policy, a) && Delegate(policy, Needed(m, policy)) == Some(inner)
    ensures IsApproved(Evaluate(m, votes, inner, a)) <==> Reached(votes, policy, Needed(m, policy))
  {
    EarlyUnlessOpen(m, votes, inner, a);
    NoneMissing(inner.requiredRoles, votes);
    assert inner.requiredRoles[0] in inner.requiredRoles;
    assert Needed(m, inner) == Needed(m, policy);
    ModeReaches(votes, inner, Needed(m, inner));
  }

  /** The verdicts that are reached before the mode, in the order of their precedence. */
  lemma VerdictMeans(m: Matter, votes: seq<Vote>, policy: Policy, a: Authority)
    ensures
      var e := Evaluate(m, votes, policy, a);
      var past := !m.expired && (WithinAuthority(a, m.risk) || policy.mode.HumanRequired?);
      var bad := exists v :: v in votes && !Acceptable(v);
      var escalated := exists v :: v in votes && v.ballot == Escalate;
      var rejected := (exists v :: v in votes && v.ballot == Reject)
        && (policy.mode.SingleApprover? || policy.mode.Unanimous?);
      && (e.Result? && e.verdict.decision == Expired <==> m.expired)
      && (e.Result? && e.verdict.decision == Blocked <==> !m.expired && !past)
      && (past && votes == [] ==> e.Result? && e.verdict.decision == Pending)
      && (past && bad ==> e.Raised?)
      && (e.Result? && e.verdict.decision == Escalated <==> past && !bad && escalated)
      && (e.Result? && e.verdict.decision == Rejected <==> past && !bad && !escalated && rejected)
  {
    NoProblem(votes);
    EarlyUnlessOpen(m, votes, policy, a);
    assert forall b :: HasBallot(votes, b) <==> exists v :: v in votes && v.ballot == b;
    if Open(m, votes, policy, a) {
      LateVerdicts(m, votes, policy, a);
    }
  }

  lemma LateVerdicts(m: Matter, votes: seq<Vote>, policy: Policy, a: Authority)
    requires Open(m, votes, policy, a)
    ensures
      var e := Evaluate(m, votes, policy, a);
      e.Raised? || e.verdict.decision in {Pending, Approved, AwaitingHuman}
  {
    EarlyUnlessOpen(m, votes, policy, a);
    match Delegate(policy, Needed(m, policy)) {
      case Some(inner) => EarlyUnlessOpen(m, votes, inner, a);
      case None =>
    }
  }

  /** The verdict reports how many votes of each kind were counted. */
  lemma {:induction false} VerdictCounts(m: Matter, votes: seq<Vote>, policy: Policy, a: Authority)
    requires Evaluate(m, votes, policy, a).Result?
    requires Evaluate(m, votes, policy, a).verdict.decision !in {Expired, Blocked}
    ensures
      var v := Evaluate(m, votes, policy, a).verdict;
      && v.approvals == |Places(votes, Approve)| && v.rejections == |Places(votes, Reject)|
      && v.abstentions == |Places(votes, Abstain)|
    decreases Depth(policy)
  {
    TallyCounts(votes, Approve);
    TallyCounts(votes, Reject);
    TallyCounts(votes, Abstain);
    EarlyUnlessOpen(m, votes, policy, a);
    if Open(m, votes, policy, a) {
      match Delegate(policy, Needed(m, policy)) {
        case Some(inner) => VerdictCounts(m, votes, inner, a);
        case None =>
      }
    }
  }
}
