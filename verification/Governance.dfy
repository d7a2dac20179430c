/** The life cycle of governed proposals over whole runs. */
module Governance {
  import opened Digraphs
  import opened TextOrder
  import C = Consensus

  datatype Status = Pending | AwaitingHuman | Approved | Rejected | Escalated | Expired | Executed | Blocked

  datatype Proposal = Proposal(
    id: string, tenant: string, proposer: string, risk: string, required: int, expiresAt: int, status: Status)

  datatype Denial =
    | NotFound | ClosedProposal | SelfApproval | NotFinalized | HumanMissing | PolicyDenied | EvaluationRaised

  datatype Response<+T> = Ok(value: T) | Denied(reason: Denial)

  /** What a vote is evaluated under; `later` is the time at which the evaluation reads the clock. */
  datatype Terms = Terms(policy: C.Policy, authority: C.Authority, later: int)

  /** One evaluation of the votes of a proposal, as it happened. */
  datatype Record = Record(
    proposal: string, expired: bool, votes: seq<C.Vote>, policy: C.Policy, authority: C.Authority, result: C.Evaluation)

  /** Stored votes by their id: a vote with a used id replaces the one stored under it. */
  type Table = map<string, C.Vote>

  predicate Final(s: Status) {
    s == Executed || s == Rejected || s == Expired
  }

  // ---------------------------------------------------------------- the votes that count

  predicate Concerns(v: C.Vote, tenant: string, proposal: string) {
    v.tenant == tenant && v.proposal == proposal
  }

  /** The votes for a proposal among the listed ids. */
  function Select(votes: Table, order: seq<string>, tenant: string, proposal: string): seq<C.Vote>
    requires forall id :: id in order ==> id in votes
  {
    if order == [] then
      []
    else
      var v := votes[order[|order| - 1]];
      Select(votes, order[..|order| - 1], tenant, proposal) + if Concerns(v, tenant, proposal) then [v] else []
  }

  /** `votes_for`: the table is listed in order of id. */
  ghost function VotesFor(votes: Table, tenant: string, proposal: string): seq<C.Vote> {
    var order := Ordered(votes.Keys);
    assert forall id :: id in order ==> id in Elements(order);
    Select(votes, order, tenant, proposal)
  }

  ghost predicate UnderOwnId(votes: Table) {
    forall id :: id in votes ==> votes[id].id == id
  }

  function VoteIds(votes: seq<C.Vote>): seq<string> {
    seq(|votes|, i requires 0 <= i < |votes| => votes[i].id)
  }

  lemma {:induction false} SelectMembers(votes: Table, order: seq<string>, tenant: string, proposal: string, v: C.Vote)
    requires forall id :: id in order ==> id in votes
    ensures v in Select(votes, order, tenant, proposal)
            <==> Concerns(v, tenant, proposal) && exists id :: id in order && votes[id] == v
  {
    if order != [] {
      var init, last := order[..|order| - 1], order[|order| - 1];
      SelectMembers(votes, init, tenant, proposal, v);
      assert order == init + [last];
      assert last in order && forall id :: id in order <==> id in init || id == last;
    }
  }

  lemma {:induction false} SelectInOrder(votes: Table, order: seq<string>, tenant: string, proposal: string)
    requires UnderOwnId(votes) && Ascending(order) && forall id :: id in order ==> id in votes
    ensures Ascending(VoteIds(Select(votes, order, tenant, proposal)))
    ensures forall id :: id in VoteIds(Select(votes, order, tenant, proposal)) ==> id in order
  {
    if order != [] {
      var init, last := order[..|order| - 1], order[|order| - 1];
      SelectInOrder(votes, init, tenant, proposal);
      var s, v := Select(votes, init, tenant, proposal), votes[last];
      assert order == init + [last];
      if Concerns(v, tenant, proposal) {
        assert VoteIds(s + [v]) == VoteIds(s) + [last];
        forall i | 0 <= i < |s| ensures Less(VoteIds(s)[i], last) {
          assert VoteIds(s)[i] in VoteIds(s);
          var j :| 0 <= j < |init| && init[j] == VoteIds(s)[i];
          assert Less(order[j], order[|order| - 1]);
        }
      } else {
        assert s + [] == s;
      }
    }
  }

  /** Exactly the stored votes of the tenant for the proposal count, each once and in order of id. */
  lemma VotesForMembers(votes: Table, tenant: string, proposal: string)
    ensures forall v :: v in VotesFor(votes, tenant, proposal)
                        <==> v.tenant == tenant && v.proposal == proposal && exists id :: id in votes && votes[id] == v
    ensures UnderOwnId(votes) ==> Ascending(VoteIds(VotesFor(votes, tenant, proposal)))
  {
    var order := Ordered(votes.Keys);
    assert forall id :: id in order <==> id in Elements(order);
    forall v ensures v in VotesFor(votes, tenant, proposal)
                     <==> Concerns(v, tenant, proposal) && exists id :: id in votes && votes[id] == v {
      SelectMembers(votes, order, tenant, proposal, v);
    }
    if UnderOwnId(votes) {
      SelectInOrder(votes, order, tenant, proposal);
    }
  }

  // ---------------------------------------------------------------- one call as a function

  /** Status after an evaluation; a pending verdict keeps the old one. */
  function StatusAfter(before: Status, d: C.Decision): Status {
    match d
    case Approved => Approved
    case Rejected => Rejected
    case Blocked => Blocked
    case Expired => Expired
    case Escalated => Escalated
    case AwaitingHuman => AwaitingHuman
    case Pending => before
  }

  /** A high-risk proposal's own proposer votes without leave: the call is turned away, nothing is stored. */
  predicate SelfVote(p: Proposal, vote: C.Vote, authority: C.Authority) {
    p.risk in {"high", "critical"} && vote.voter == p.proposer && !authority.selfApprovalAllowed
  }

  function Evaluation(p: Proposal, counted: seq<C.Vote>, t: Terms): C.Evaluation {
    C.Evaluate(C.Matter(t.later > p.expiresAt, p.risk, p.required), counted, t.policy, t.authority)
  }

  /** What `cast_vote` answers about a proposal it has found, once the vote is among those counted. */
  function Reply(p: Proposal, vote: C.Vote, counted: seq<C.Vote>, t: Terms): Response<C.Verdict> {
    if Final(p.status) then
      Denied(ClosedProposal)
    else if SelfVote(p, vote, t.authority) then
      Denied(SelfApproval)
    else
      match Evaluation(p, counted, t)
      case Raised(_) => Denied(EvaluationRaised)
      case Result(v) => Ok(v)
  }

  function AfterCast(p: Proposal, reply: Response<C.Verdict>): Proposal {
    if reply.Ok? then p.(status := StatusAfter(p.status, reply.value.decision)) else p
  }

  function RecordOf(p: Proposal, counted: seq<C.Vote>, t: Terms): Record {
    Record(p.id, t.later > p.expiresAt, counted, t.policy, t.authority, Evaluation(p, counted, t))
  }

  /** A call that returns leaves one evaluation on record. */
  function RecordsOf(p: Proposal, counted: seq<C.Vote>, t: Terms, reply: Response<C.Verdict>): seq<Record> {
    if reply.Ok? then [RecordOf(p, counted, t)] else []
  }

  /** The vote is stored unless the call is turned away before evaluation. */
  predicate IsStored(reply: Response<C.Verdict>) {
    reply.Ok? || reply.reason == EvaluationRaised
  }

  /** How a cast moves a proposal: it closes an overdue one, leaves one alone that was closed before or whose
      call did not return, and otherwise follows the verdict, which only while pending leaves the status. */
  ghost predicate Moves(before: Proposal, after: Proposal, now: int, reply: Response<C.Verdict>) {
    && after == before.(status := after.status)
    && (before.status in {Executed, Rejected, Expired} ==> after == before && reply == Denied(ClosedProposal))
    && (before.status !in {Executed, Rejected, Expired} && now > before.expiresAt ==>
          after.status == Expired && reply == Denied(ClosedProposal))
    && (before.status !in {Executed, Rejected, Expired} && now <= before.expiresAt && reply.Denied? ==> after == before)
    && (reply.Ok? ==>
          && before.status !in {Executed, Rejected, Expired} && now <= before.expiresAt
          && (reply.value.decision == C.Approved ==> after.status == Approved)
          && (reply.value.decision == C.Rejected ==> after.status == Rejected)
          && (reply.value.decision == C.Blocked ==> after.status == Blocked)
          && (reply.value.decision == C.Expired ==> after.status == Expired)
          && (reply.value.decision == C.Escalated ==> after.status == Escalated)
          && (reply.value.decision == C.AwaitingHuman ==> after.status == AwaitingHuman)
          && (reply.value.decision == C.Pending ==> after == before))
  }

  lemma CastMoves(before: Proposal, vote: C.Vote, counted: seq<C.Vote>, t: Terms, now: int)
    ensures
      var p := Refreshed(before, now);
      var reply := Reply(p, vote, counted, t);
      Moves(before, AfterCast(p, reply), now, reply)
  {
  }

  /** What `get_proposal` stores and returns. */
  function Refreshed(p: Proposal, now: int): Proposal {
    if now > p.expiresAt && p.status != Executed && p.status != Rejected then p.(status := Expired) else p
  }

  /** What `execute` answers about a proposal it has found: its conditions in the order of checking. */
  function Gate(p: Proposal, human: bool, allowed: bool): Response<Proposal> {
    if p.status != Approved then Denied(NotFinalized)
    else if !human then Denied(HumanMissing)
    else if !allowed then Denied(PolicyDenied)
    else Ok(p.(status := Executed))
  }

  // ---------------------------------------------------------------- what stays true

  /** Everything stored, with the history that tells why: `tables` are all vote tables so far, `evaluations`
      all evaluations, `vetoed` the proposals that a stored same-tenant escalation bars. */
  datatype Ledger = Ledger(
    proposals: map<string, Proposal>, votes: Table, tables: seq<Table>, evaluations: seq<Record>, vetoed: set<string>)

  /** An evaluation on record that approved this proposal. */
  ghost predicate Backed(p: Proposal, evaluations: seq<Record>) {
    exists r :: r in evaluations && BackedBy(p, r)
  }

  ghost predicate BackedBy(p: Proposal, r: Record) {
    && r.proposal == p.id
    && r.result == C.Evaluate(C.Matter(r.expired, p.risk, p.required), r.votes, r.policy, r.authority)
    && C.IsApproved(r.result)
  }

  /** A recorded evaluation saw the votes that were stored for its proposal and tenant at some moment. */
  ghost predicate FromStoredVotes(r: Record, proposals: map<string, Proposal>, tables: seq<Table>) {
    r.proposal in proposals
    && exists table :: table in tables && r.votes == VotesFor(table, proposals[r.proposal].tenant, r.proposal)
  }

  predicate Escalates(p: Proposal, v: C.Vote) {
    v.tenant == p.tenant && v.proposal == p.id && v.ballot == C.Escalate
  }

  /** A same-tenant escalation is among the stored votes. */
  ghost predicate HasVeto(p: Proposal, votes: Table) {
    exists id :: id in votes && Escalates(p, votes[id])
  }

  ghost predicate Barred(p: Proposal, votes: Table) {
    HasVeto(p, votes) && p.status != Approved && p.status != Executed
  }

  ghost predicate SoundProposal(id: string, p: Proposal, evaluations: seq<Record>) {
    p.id == id && (p.status == Approved || p.status == Executed ==> Backed(p, evaluations))
  }

  /** Approved and executed proposals rest on a recorded evaluation; vetoed ones are neither. */
  ghost predicate Sound(l: Ledger) {
    && UnderOwnId(l.votes)
    && (forall id {:trigger SoundProposal(id, l.proposals[id], l.evaluations)} ::
          id in l.proposals ==> SoundProposal(id, l.proposals[id], l.evaluations))
    && (forall r {:trigger FromStoredVotes(r, l.proposals, l.tables)} ::
          r in l.evaluations ==> FromStoredVotes(r, l.proposals, l.tables))
    && (forall id :: id in l.vetoed ==> id in l.proposals && Barred(l.proposals[id], l.votes))
  }

  /** Proposals change nothing but their status, and executed, rejected and expired ones not even that. */
  ghost predicate Advances(before: map<string, Proposal>, after: map<string, Proposal>) {
    forall id :: id in before ==>
      id in after && after[id] == before[id].(status := after[id].status)
      && (Final(before[id].status) ==> after[id] == before[id])
  }

  /** Replacing one proposal, with some more evaluations and at most one more veto. */
  lemma SoundUpdate(l: Ledger, p: Proposal, more: seq<Record>, barred: set<string>)
    requires Sound(l) && p.id in l.proposals && p == l.proposals[p.id].(status := p.status)
    requires p.status == Approved || p.status == Executed ==> Backed(p, l.evaluations + more)
    requires forall r :: r in more ==> FromStoredVotes(r, l.proposals, l.tables)
    requires barred <= {p.id} && (p.id in l.vetoed + barred ==> Barred(p, l.votes))
    ensures Sound(l.(proposals := l.proposals[p.id := p],
                     evaluations := l.evaluations + more, vetoed := l.vetoed + barred))
  {
    var after := l.proposals[p.id := p];
    forall id | id in after ensures SoundProposal(id, after[id], l.evaluations + more) {
      assert SoundProposal(id, l.proposals[id], l.evaluations);
      if id != p.id && (after[id].status == Approved || after[id].status == Executed) {
        StaysBacked(after[id], after[id], l.evaluations, more);
      }
    }
    forall r | r in l.evaluations + more ensures FromStoredVotes(r, after, l.tables) {
      assert FromStoredVotes(r, l.proposals, l.tables);
    }
  }

  lemma StaysBacked(p: Proposal, q: Proposal, evaluations: seq<Record>, more: seq<Record>)
    requires Backed(p, evaluations) && q == p.(status := q.status)
    ensures Backed(q, evaluations + more)
  {
    var r :| r in evaluations && BackedBy(p, r);
    assert r in evaluations + more && BackedBy(q, r);
  }

  lemma RefreshKeeps(l: Ledger, id: string, now: int)
    requires Sound(l) && id in l.proposals
    ensures Sound(l.(proposals := l.proposals[id := Refreshed(l.proposals[id], now)]))
    ensures Advances(l.proposals, l.proposals[id := Refreshed(l.proposals[id], now)])
  {
    assert SoundProposal(id, l.proposals[id], l.evaluations);
    StatusKeeps(l, Refreshed(l.proposals[id], now));
  }

  /** A change of status that needs no new evaluation. */
  lemma StatusKeeps(l: Ledger, p: Proposal)
    requires Sound(l) && p.id in l.proposals && p == l.proposals[p.id].(status := p.status)
    requires p.status == Approved || p.status == Executed ==>
        Backed(l.proposals[p.id], l.evaluations) && p.id !in l.vetoed
    ensures Sound(l.(proposals := l.proposals[p.id := p]))
  {
    assert l.evaluations + [] == l.evaluations && l.vetoed + {} == l.vetoed;
    if p.status == Approved || p.status == Executed {
      StaysBacked(l.proposals[p.id], p, l.evaluations, []);
    }
    if p.id in l.vetoed {
      SameVeto(l.proposals[p.id], p, l.votes);
    }
    SoundUpdate(l, p, [], {});
  }

  /** No evaluation on record speaks of a proposal that did not exist. */
  lemma CreateKeepsIff(l: Ledger, p: Proposal)
    requires Sound(l) && p.id !in l.proposals
    ensures Sound(l.(proposals := l.proposals[p.id := p])) <==> p.status != Approved && p.status != Executed
  {
    var after := l.proposals[p.id := p];
    forall r | r in l.evaluations ensures FromStoredVotes(r, after, l.tables) && !BackedBy(p, r) {
      assert FromStoredVotes(r, l.proposals, l.tables);
    }
    forall id | id in l.proposals ensures SoundProposal(id, after[id], l.evaluations) {
      assert SoundProposal(id, l.proposals[id], l.evaluations);
    }
    if Sound(l.(proposals := after)) {
      assert SoundProposal(p.id, after[p.id], l.evaluations);
    }
  }

  // ---------------------------------------------------------------- storing a vote

  /** A vote that lifts the veto on a proposal: it is no escalation of it itself, and it takes the place of
      the only one stored. */
  ghost predicate Lifts(p: Proposal, votes: Table, vote: C.Vote) {
    !Escalates(p, vote) && forall id :: id in votes && Escalates(p, votes[id]) ==> id == vote.id
  }

  /** A stored escalation survives a cast exactly when the vote does not lift it. */
  lemma VetoSurvivesIff(p: Proposal, votes: Table, vote: C.Vote)
    requires HasVeto(p, votes)
    ensures HasVeto(p, votes[vote.id := vote]) <==> !Lifts(p, votes, vote)
  {
    var after := votes[vote.id := vote];
    if Escalates(p, vote) {
      assert after[vote.id] == vote;
    } else if id :| id in votes && Escalates(p, votes[id]) && id != vote.id {
      assert after[id] == votes[id];
    }
  }

  /** The vetoes that a stored vote leaves standing. */
  ghost function Standing(l: Ledger, vote: C.Vote): set<string> {
    set id | id in l.vetoed && id in l.proposals && !Lifts(l.proposals[id], l.votes, vote)
  }

  ghost function Stored(l: Ledger, vote: C.Vote): Ledger {
    var votes := l.votes[vote.id := vote];
    l.(votes := votes, tables := l.tables + [votes], vetoed := Standing(l, vote))
  }

  lemma StoreKeeps(l: Ledger, vote: C.Vote)
    requires Sound(l)
    ensures Sound(Stored(l, vote))
  {
    var m := Stored(l, vote);
    forall r | r in m.evaluations ensures FromStoredVotes(r, m.proposals, m.tables) {
      assert FromStoredVotes(r, l.proposals, l.tables);
      var table :| table in l.tables && r.votes == VotesFor(table, l.proposals[r.proposal].tenant, r.proposal);
      assert table in m.tables;
    }
    forall id | id in m.vetoed ensures Barred(m.proposals[id], m.votes) {
      VetoSurvivesIff(l.proposals[id], l.votes, vote);
    }
  }

  /** Whom a stored escalation bars by itself. */
  function VetoOf(p: Proposal, vote: C.Vote): set<string> {
    if Escalates(p, vote) then {p.id} else {}
  }

  /** A stored escalation bars the proposal unless its call raised with the approval already given. */
  function VetoAfter(p: Proposal, vote: C.Vote, reply: Response<C.Verdict>): set<string> {
    if reply.Ok? || (reply.reason == EvaluationRaised && p.status != Approved) then VetoOf(p, vote) else {}
  }

  /** The ledger after a call that got as far as storing the vote. */
  ghost function Counted(l: Ledger, p: Proposal, vote: C.Vote, t: Terms): Ledger {
    var m := Stored(l, vote);
    var counted := VotesFor(m.votes, p.tenant, p.id);
    var e := Evaluation(p, counted, t);
    if e.Raised? then
      m.(vetoed := m.vetoed + if p.status == Approved then {} else VetoOf(p, vote))
    else
      m.(proposals := m.proposals[p.id := p.(status := StatusAfter(p.status, e.verdict.decision))],
         evaluations := m.evaluations + [RecordOf(p, counted, t)],
         vetoed := m.vetoed + VetoOf(p, vote))
  }

  /** An open proposal in the books, and a vote on it. */
  ghost predicate Votable(l: Ledger, p: Proposal, vote: C.Vote) {
    p.id in l.proposals && p == l.proposals[p.id] && !Final(p.status) && vote.proposal == p.id
  }

  lemma CountKeeps(l: Ledger, p: Proposal, vote: C.Vote, t: Terms)
    requires Sound(l) && Votable(l, p, vote)
    ensures Sound(Counted(l, p, vote, t))
  {
    var m := Stored(l, vote);
    var counted := VotesFor(m.votes, p.tenant, p.id);
    StoreKeeps(l, vote);
    if Evaluation(p, counted, t).Result? {
      VoteKeeps(m, p, vote, t);
    } else if p.status != Approved {
      StandingVeto(m, p, vote);
    } else {
      assert m.vetoed + {} == m.vetoed;
    }
  }

  /** The effect of one evaluated vote on the stored proposal. */
  lemma VoteKeeps(m: Ledger, p: Proposal, vote: C.Vote, t: Terms)
    requires Sound(m) && Votable(m, p, vote) && vote.id in m.votes && m.votes[vote.id] == vote && m.votes in m.tables
    requires Evaluation(p, VotesFor(m.votes, p.tenant, p.id), t).Result?
    ensures
      var r := RecordOf(p, VotesFor(m.votes, p.tenant, p.id), t);
      var updated := p.(status := StatusAfter(p.status, r.result.verdict.decision));
      Sound(m.(proposals := m.proposals[p.id := updated], evaluations := m.evaluations + [r],
               vetoed := m.vetoed + VetoOf(p, vote)))
  {
    var r := RecordOf(p, VotesFor(m.votes, p.tenant, p.id), t);
    var updated := p.(status := StatusAfter(p.status, r.result.verdict.decision));
    assert SoundProposal(p.id, p, m.evaluations);
    StatusIsBacked(p, m.evaluations, r);
    if p.id in m.vetoed + VetoOf(p, vote) {
      assert HasVeto(p, m.votes);
      VetoHolds(p, m.votes, t);
    }
    assert FromStoredVotes(r, m.proposals, m.tables);
    SoundUpdate(m, updated, [r], VetoOf(p, vote));
  }

  lemma StatusIsBacked(p: Proposal, evaluations: seq<Record>, r: Record)
    requires !Final(p.status) && r.result.Result? && r.proposal == p.id
    requires p.status == Approved ==> Backed(p, evaluations)
    requires r.result == C.Evaluate(C.Matter(r.expired, p.risk, p.required), r.votes, r.policy, r.authority)
    ensures
      var updated := p.(status := StatusAfter(p.status, r.result.verdict.decision));
      updated.status == Approved || updated.status == Executed ==> Backed(updated, evaluations + [r])
  {
    var updated := p.(status := StatusAfter(p.status, r.result.verdict.decision));
    if updated.status == Approved {
      if r.result.verdict.decision == C.Approved {
        assert r in evaluations + [r] && BackedBy(updated, r);
      } else {
        StaysBacked(p, updated, evaluations, [r]);
      }
    }
  }

  /** While an escalation is stored, no evaluation approves the proposal. */
  lemma VetoHolds(p: Proposal, votes: Table, t: Terms)
    requires HasVeto(p, votes) && !Final(p.status)
    ensures
      var e := Evaluation(p, VotesFor(votes, p.tenant, p.id), t);
      e.Result? ==> Barred(p.(status := StatusAfter(p.status, e.verdict.decision)), votes)
  {
    var counted := VotesFor(votes, p.tenant, p.id);
    var e := Evaluation(p, counted, t);
    VetoIsCounted(p, votes);
    C.EscalationBlocks(C.Matter(t.later > p.expiresAt, p.risk, p.required), counted, t.policy, t.authority);
    if e.Result? {
      SameVeto(p, p.(status := StatusAfter(p.status, e.verdict.decision)), votes);
    }
  }

  lemma SameVeto(p: Proposal, q: Proposal, votes: Table)
    requires HasVeto(p, votes) && q == p.(status := q.status)
    ensures HasVeto(q, votes)
  {
    var id :| id in votes && Escalates(p, votes[id]);
    assert Escalates(q, votes[id]);
  }

  lemma VetoIsCounted(p: Proposal, votes: Table)
    requires HasVeto(p, votes)
    ensures C.HasBallot(VotesFor(votes, p.tenant, p.id), C.Escalate)
  {
    var id :| id in votes && Escalates(p, votes[id]);
    VotesForMembers(votes, p.tenant, p.id);
    assert votes[id] in VotesFor(votes, p.tenant, p.id);
  }

  /** An escalation on file bars an open proposal that is not approved, whatever its own call came to. */
  lemma StandingVeto(m: Ledger, p: Proposal, vote: C.Vote)
    requires Sound(m) && Votable(m, p, vote) && p.status != Approved && vote.id in m.votes && m.votes[vote.id] == vote
    ensures Sound(m.(vetoed := m.vetoed + VetoOf(p, vote)))
  {
    if Escalates(p, vote) {
      assert HasVeto(p, m.votes);
    }
  }

  // ---------------------------------------------------------------- the service

  class GovernanceService {
    var proposals: map<string, Proposal>
    var votes: Table
    /** Tenant and proposal of every human approval granted. */
    var humanApproved: set<(string, string)>
    ghost var tables: seq<Table>
    ghost var evaluations: seq<Record>
    ghost var vetoed: set<string>

    constructor (humanApproved: set<(string, string)>)
      ensures Valid() && this.humanApproved == humanApproved
      ensures Books() == Ledger(map[], map[], [], [], {})
    {
      proposals, votes, this.humanApproved := map[], map[], humanApproved;
      tables, evaluations, vetoed := [], [], {};
    }

    ghost function Books(): Ledger
      reads this`proposals, this`votes, this`tables, this`evaluations, this`vetoed
    {
      Ledger(proposals, votes, tables, evaluations, vetoed)
    }

    ghost predicate Valid()
      reads this`proposals, this`votes, this`tables, this`evaluations, this`vetoed
    {
      Sound(Books())
    }

    /** Stores whatever it is given.  Under a fresh id the invariant survives exactly when the proposal
        does not arrive approved or executed. */
    method CreateProposal(p: Proposal, allowed: bool) returns (r: Response<Proposal>)
      modifies this`proposals
      ensures allowed ==> r == Ok(p) && proposals == old(proposals)[p.id := p]
      ensures !allowed ==> r == Denied(PolicyDenied) && proposals == old(proposals)
      ensures old(Valid()) && allowed && p.id !in old(proposals) ==>
        Advances(old(proposals), proposals) && (Valid() <==> p.status != Approved && p.status != Executed)
      ensures old(Valid()) && !allowed ==> Valid()
    {
      if !allowed {
        return Denied(PolicyDenied);
      }
      if Valid() && p.id !in proposals {
        CreateKeepsIff(Books(), p);
      }
      proposals := proposals[p.id := p];
      return Ok(p);
    }

    method GetProposal(id: string, now: int) returns (r: Response<Proposal>)
      requires Valid()
      modifies this`proposals
      ensures Valid() && Advances(old(proposals), proposals)
      ensures id !in old(proposals) ==> r == Denied(NotFound) && proposals == old(proposals)
      ensures id in old(proposals) ==>
        var p := Refreshed(old(proposals)[id], now);
        r == Ok(p) && p.id == id && proposals == old(proposals)[id := p]
    {
      if id !in proposals {
        return Denied(NotFound);
      }
      RefreshKeeps(Books(), id, now);
      assert SoundProposal(id, proposals[id], evaluations);
      var p := Refreshed(proposals[id], now);
      proposals := proposals[id := p];
      return Ok(p);
    }

    /** `votes_for` */
    method CollectVotes(tenant: string, proposal: string) returns (counted: seq<C.Vote>)
      ensures counted == VotesFor(votes, tenant, proposal)
    {
      var order := SortedKeys(votes.Keys);
      assert forall id :: id in order ==> id in Elements(order);
      counted := Select(votes, order, tenant, proposal);
    }

    /** Store a vote for an open proposal, over any earlier one with its id, and evaluate; the vote stays
        even when the evaluation raises. */
    method Count(p: Proposal, vote: C.Vote, t: Terms) returns (result: C.Evaluation)
      requires Valid() && Votable(Books(), p, vote)
      modifies this`proposals, this`votes, this`tables, this`evaluations, this`vetoed
      ensures Valid() && Books() == Counted(old(Books()), p, vote, t)
      ensures result == Evaluation(p, VotesFor(votes, p.tenant, p.id), t)
    {
      ghost var before, after := Books(), Counted(Books(), p, vote, t);
      CountKeeps(before, p, vote, t);
      votes := votes[vote.id := vote];
      var counted := CollectVotes(p.tenant, p.id);
      result := Evaluation(p, counted, t);
      if result.Result? {
        proposals := proposals[p.id := p.(status := StatusAfter(p.status, result.verdict.decision))];
      }
      tables, evaluations, vetoed := after.tables, after.evaluations, after.vetoed;
      assert Books() == after;
    }

    /** `cast_vote` */
    method CastVote(vote: C.Vote, t: Terms, now: int) returns (r: Response<C.Verdict>)
      requires Valid()
      modifies this`proposals, this`votes, this`tables, this`evaluations, this`vetoed
      ensures Valid() && Advances(old(proposals), proposals)
      ensures vote.proposal !in old(proposals) ==> r == Denied(NotFound) && Books() == old(Books())
      ensures vote.proposal in old(proposals) ==>
        var p := Refreshed(old(proposals)[vote.proposal], now);
        var counted := VotesFor(old(votes)[vote.id := vote], p.tenant, vote.proposal);
        && r == Reply(p, vote, counted, t)
        && proposals == old(proposals)[vote.proposal := AfterCast(p, r)]
        && votes == (if IsStored(r) then old(votes)[vote.id := vote] else old(votes))
        && vetoed == (if IsStored(r) then Standing(old(Books()), vote) else old(vetoed)) + VetoAfter(p, vote, r)
        && evaluations == old(evaluations) + RecordsOf(p, counted, t, r)
      ensures vote.proposal in old(proposals) ==>
        Moves(old(proposals)[vote.proposal], proposals[vote.proposal], now, r)
    {
      if vote.proposal in proposals {
        var p := Refreshed(proposals[vote.proposal], now);
        CastMoves(proposals[vote.proposal], vote, VotesFor(votes[vote.id := vote], p.tenant, vote.proposal), t, now);
      }
      r := Cast(vote, t, now);
    }

    /** The checks, the storing and the evaluation of a cast. */
    method Cast(vote: C.Vote, t: Terms, now: int) returns (r: Response<C.Verdict>)
      requires Valid()
      modifies this`proposals, this`votes, this`tables, this`evaluations, this`vetoed
      ensures Valid() && Advances(old(proposals), proposals)
      ensures vote.proposal !in old(proposals) ==> r == Denied(NotFound) && Books() == old(Books())
      ensures vote.proposal in old(proposals) ==>
        var p := Refreshed(old(proposals)[vote.proposal], now);
        var counted := VotesFor(old(votes)[vote.id := vote], p.tenant, vote.proposal);
        && r == Reply(p, vote, counted, t)
        && proposals == old(proposals)[vote.proposal := AfterCast(p, r)]
        && votes == (if IsStored(r) then old(votes)[vote.id := vote] else old(votes))
        && vetoed == (if IsStored(r) then Standing(old(Books()), vote) else old(vetoed)) + VetoAfter(p, vote, r)
        && evaluations == old(evaluations) + RecordsOf(p, counted, t, r)
    {
      var got := GetProposal(vote.proposal, now);
      if got.Denied? {
        return Denied(got.reason);
      }
      var p := got.value;
      if Final(p.status) {
        return Denied(ClosedProposal);
      }
      assert p == old(proposals)[vote.proposal] && proposals == old(proposals);
      if SelfVote(p, vote, t.authority) {
        return Denied(SelfApproval);
      }
      assert SoundProposal(vote.proposal, p, evaluations);
      var result := Count(p, vote, t);
      if result.Raised? {
        return Denied(EvaluationRaised);
      }
      AdvanceOne(old(proposals), proposals, vote.proposal);
      return Ok(result.verdict);
    }

    /** Execution needs a standing approval, a human where required, and the policy service's consent;
        so it rests on an evaluation that approved, and a vetoed proposal is never executed. */
    method Execute(id: string, requireHuman: bool, allowed: bool, now: int) returns (r: Response<Proposal>)
      requires Valid()
      modifies this`proposals
      ensures Valid() && Advances(old(proposals), proposals)
      ensures id !in old(proposals) ==> r == Denied(NotFound) && proposals == old(proposals)
      ensures id in old(proposals) ==>
        var p := Refreshed(old(proposals)[id], now);
        && r == Gate(p, requireHuman ==> (p.tenant, id) in humanApproved, allowed)
        && proposals == old(proposals)[id := if r.Ok? then r.value else p]
      ensures r.Ok? ==> Backed(r.value, evaluations) && id !in vetoed
      ensures r.Ok? <==>
        && id in old(proposals) && old(proposals)[id].status == Approved && now <= old(proposals)[id].expiresAt
        && (requireHuman ==> (old(proposals)[id].tenant, id) in humanApproved) && allowed
      ensures r.Ok? ==> proposals == old(proposals)[id := old(proposals)[id].(status := Executed)]
    {
      var got := GetProposal(id, now);
      if got.Denied? {
        return got;
      }
      var p := got.value;
      ghost var between := proposals;
      r := Finish(p, requireHuman ==> (p.tenant, id) in humanApproved, allowed);
      UpdateTwice(old(proposals), id, p, if r.Ok? then r.value else p);
      AdvancesTwice(old(proposals), between, proposals);
    }

    /** The part of `execute` after the proposal has been read. */
    method Finish(p: Proposal, human: bool, allowed: bool) returns (r: Response<Proposal>)
      requires Valid() && p.id in proposals && proposals[p.id] == p
      modifies this`proposals
      ensures Valid() && Advances(old(proposals), proposals)
      ensures r == Gate(p, human, allowed)
      ensures proposals == if r.Ok? then old(proposals)[p.id := r.value] else old(proposals)
      ensures r.Ok? ==> Backed(r.value, evaluations) && p.id !in vetoed
    {
      if p.status != Approved {
        return Denied(NotFinalized);
      }
      if !human {
        return Denied(HumanMissing);
      }
      if !allowed {
        return Denied(PolicyDenied);
      }
      ghost var before := Books();
      ExecuteKeeps(before, p.id);
      var executed := p.(status := Executed);
      proposals := proposals[p.id := executed];
      assert Books() == before.(proposals := before.proposals[p.id := executed]);
      AdvanceOne(old(proposals), proposals, p.id);
      return Ok(executed);
    }
  }

  lemma UpdateTwice(proposals: map<string, Proposal>, id: string, p: Proposal, q: Proposal)
    ensures proposals[id := p][id := q] == proposals[id := q]
  {
  }

  lemma AdvancesTwice(a: map<string, Proposal>, b: map<string, Proposal>, c: map<string, Proposal>)
    requires Advances(a, b) && Advances(b, c)
    ensures Advances(a, c)
  {
    forall id | id in a
      ensures id in c && c[id] == a[id].(status := c[id].status) && (Final(a[id].status) ==> c[id] == a[id])
    {
      assert id in b;
    }
  }

  lemma ExecuteKeeps(l: Ledger, id: string)
    requires Sound(l) && id in l.proposals && l.proposals[id].status == Approved
    ensures id !in l.vetoed
    ensures Backed(l.proposals[id].(status := Executed), l.evaluations)
    ensures Sound(l.(proposals := l.proposals[id := l.proposals[id].(status := Executed)]))
  {
    var executed := l.proposals[id].(status := Executed);
    assert SoundProposal(id, l.proposals[id], l.evaluations);
    StaysBacked(l.proposals[id], executed, l.evaluations, []);
    assert l.evaluations + [] == l.evaluations;
    StatusKeeps(l, executed);
  }

  /** A call that touches one open proposal only. */
  lemma AdvanceOne(before: map<string, Proposal>, after: map<string, Proposal>, id: string)
    requires id in before && id in after && after == before[id := after[id]]
    requires after[id] == before[id].(status := after[id].status) && !Final(before[id].status)
    ensures Advances(before, after)
  {
  }

  // ---------------------------------------------------------------- when an escalation takes hold

  /** The evaluation gets as far as looking at the votes, and one of them has a role or a ballot it refuses. */
  ghost predicate MeetsBadVote(p: Proposal, counted: seq<C.Vote>, t: Terms) {
    && t.later <= p.expiresAt
    && (C.WithinAuthority(t.authority, p.risk) || t.policy.mode.HumanRequired?)
    && exists v :: v in counted && !C.Acceptable(v)
  }

  /** A same-tenant escalation leaves the proposal executable exactly when it was approved before and
      either the voter may not vote on it or a bad vote, possibly this one, stops the evaluation. */
  lemma EscalationStops(p: Proposal, vote: C.Vote, votes: Table, t: Terms)
    requires Escalates(p, vote)
    ensures
      var counted := VotesFor(votes[vote.id := vote], p.tenant, p.id);
      AfterCast(p, Reply(p, vote, counted, t)).status == Approved <==>
        p.status == Approved && (SelfVote(p, vote, t.authority) || MeetsBadVote(p, counted, t))
  {
    var after := votes[vote.id := vote];
    var counted := VotesFor(after, p.tenant, p.id);
    assert vote.id in after && after[vote.id] == vote;
    VetoIsCounted(p, after);
    C.NoProblem(counted);
    C.EscalationBlocks(C.Matter(t.later > p.expiresAt, p.risk, p.required), counted, t.policy, t.authority);
  }

  const EXAMPLE_TERMS := Terms(C.Policy(C.SingleApprover, 0.5, [], 1), C.Authority("low", false), 0)
  const EXAMPLE := Proposal("p", "t", "carol", "low", 1, 10, Pending)
  const APPROVAL := C.Vote("v1", "p", "t", "alice", "reviewer", C.Approve, 1)

  /** A proposal approved by one vote; then an escalation by a role that may not vote: the call raises,
      the vote is on file, and the proposal stays approved. */
  lemma LateEscalation(no: C.Vote)
    requires no == C.Vote("v2", "p", "t", "bob", "observer", C.Escalate, 1)
    ensures
      var first := AfterCast(EXAMPLE,
        Reply(EXAMPLE, APPROVAL, VotesFor(map["v1" := APPROVAL], "t", "p"), EXAMPLE_TERMS));
      var reply := Reply(first, no, VotesFor(map["v1" := APPROVAL, "v2" := no], "t", "p"), EXAMPLE_TERMS);
      first.status == Approved && reply == Denied(EvaluationRaised) && AfterCast(first, reply).status == Approved
  {
    var votes, first := map["v1" := APPROVAL, "v2" := no], EXAMPLE.(status := Approved);
    CastApproval(EXAMPLE);
    VotesForMembers(votes, "t", "p");
    assert votes["v2"] == no && no in VotesFor(votes, "t", "p");
    ObserverIsRefused(no);
    BadVoteRaises(first, VotesFor(votes, "t", "p"), no);
    LowRiskIsEvaluated(first, no, VotesFor(votes, "t", "p"), EXAMPLE_TERMS);
  }

  /** Anybody may vote on a proposal of low risk. */
  lemma LowRiskIsEvaluated(p: Proposal, vote: C.Vote, counted: seq<C.Vote>, t: Terms)
    requires p.risk == "low" && !Final(p.status)
    ensures
      var e, r := Evaluation(p, counted, t), Reply(p, vote, counted, t);
      && r == (if e.Raised? then Denied(EvaluationRaised) else Ok(e.verdict))
      && (e.Result? ==> AfterCast(p, r) == p.(status := StatusAfter(p.status, e.verdict.decision)))
  {
  }

  lemma CastApproval(p: Proposal)
    requires p == EXAMPLE.(status := p.status) && !Final(p.status)
    ensures AfterCast(p, Reply(p, APPROVAL, VotesFor(map["v1" := APPROVAL], "t", "p"), EXAMPLE_TERMS))
         == p.(status := Approved)
  {
    ApprovedByOne(p);
    LowRiskIsEvaluated(p, APPROVAL, [APPROVAL], EXAMPLE_TERMS);
  }

  lemma CastEscalation(no: C.Vote)
    requires no == C.Vote("v1", "p", "t", "bob", "reviewer", C.Escalate, 1)
    ensures AfterCast(EXAMPLE, Reply(EXAMPLE, no, VotesFor(map["v1" := no], "t", "p"), EXAMPLE_TERMS))
         == EXAMPLE.(status := Escalated)
  {
    EscalatedByOne(no);
    LowRiskIsEvaluated(EXAMPLE, no, [no], EXAMPLE_TERMS);
  }

  lemma ObserverIsRefused(v: C.Vote)
    requires v.role == "observer"
    ensures !C.Acceptable(v)
  {
  }

  lemma BadVoteRaises(p: Proposal, counted: seq<C.Vote>, bad: C.Vote)
    requires p == EXAMPLE.(status := p.status) && bad in counted && !C.Acceptable(bad)
    ensures Evaluation(p, counted, EXAMPLE_TERMS).Raised?
  {
    C.NoProblem(counted);
  }

  /** An escalation that holds, and then an approval with its id: the escalation is overwritten and the
      proposal approved. */
  lemma OverwrittenVeto(no: C.Vote)
    requires no == C.Vote("v1", "p", "t", "bob", "reviewer", C.Escalate, 1)
    ensures
      var table := map["v1" := no];
      var first := AfterCast(EXAMPLE, Reply(EXAMPLE, no, VotesFor(table, "t", "p"), EXAMPLE_TERMS));
      var second := AfterCast(first,
        Reply(first, APPROVAL, VotesFor(table["v1" := APPROVAL], "t", "p"), EXAMPLE_TERMS));
      && first.status == Escalated && HasVeto(first, table)
      && Lifts(first, table, APPROVAL) && second.status == Approved
  {
    var table, first := map["v1" := no], EXAMPLE.(status := Escalated);
    CastEscalation(no);
    assert table["v1"] == no && Escalates(first, no) && !Escalates(first, APPROVAL);
    assert table["v1" := APPROVAL] == map["v1" := APPROVAL];
    CastApproval(first);
  }

  lemma OneVote(v: C.Vote)
    requires v.id == "v1" && Concerns(v, "t", "p")
    ensures VotesFor(map["v1" := v], "t", "p") == [v]
  {
    var votes, order := map["v1" := v], ["v1"];
    AscendingIsUnique(Ordered(votes.Keys), order);
    assert order[..|order| - 1] == [] && Select(votes, [], "t", "p") == [];
    assert Select(votes, order, "t", "p") == [] + [v];
  }

  lemma ApprovedByOne(p: Proposal)
    requires p == EXAMPLE.(status := p.status)
    ensures VotesFor(map["v1" := APPROVAL], "t", "p") == [APPROVAL]
    ensures C.IsApproved(Evaluation(p, [APPROVAL], EXAMPLE_TERMS))
  {
    OneVote(APPROVAL);
    ReviewersVote(APPROVAL);
    C.OneApproverSuffices(C.Matter(false, "low", 1), APPROVAL, EXAMPLE_TERMS.policy, EXAMPLE_TERMS.authority);
  }

  lemma ReviewersVote(v: C.Vote)
    requires v.role == "reviewer" && !v.ballot.Other?
    ensures C.Acceptable(v)
  {
  }

  lemma EscalatedByOne(no: C.Vote)
    requires no == C.Vote("v1", "p", "t", "bob", "reviewer", C.Escalate, 1)
    ensures VotesFor(map["v1" := no], "t", "p") == [no]
    ensures
      var e := Evaluation(EXAMPLE, [no], EXAMPLE_TERMS);
      e.Result? && e.verdict.decision == C.Escalated
  {
    OneVote(no);
    ReviewersVote(no);
    C.OneEscalationDecides(C.Matter(false, "low", 1), no, EXAMPLE_TERMS.policy, EXAMPLE_TERMS.authority);
  }

  /** What stands behind every executed proposal. */
  lemma BackedMeans(p: Proposal, evaluations: seq<Record>) returns (r: Record)
    requires Backed(p, evaluations)
    ensures r in evaluations && r.proposal == p.id && !r.expired
    ensures C.WithinAuthority(r.authority, p.risk)
    ensures C.Approvals(r.votes) >= r.policy.requiredApprovals && C.Approvals(r.votes) >= p.required
    ensures forall role :: role in r.policy.requiredRoles ==> C.ApprovedByRole(r.votes, role)
    ensures forall v :: v in r.votes ==> C.Acceptable(v) && v.ballot != C.Escalate
  {
    r :| r in evaluations && BackedBy(p, r);
    C.ApprovalMeans(C.Matter(r.expired, p.risk, p.required), r.votes, r.policy, r.authority);
  }
}
