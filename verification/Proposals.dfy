/** Proposals for deferred operations: votes and closing facts reduced to a status. */
module Proposals {
  import opened Common
  import opened Quorum

  type AuthorityId = nat

  datatype Vote = Vote(at: nat, comment: Option<string>)

  datatype FailureReason = Expiry | Other(reason: string)

  datatype ProposalFact =
    | Created(proposal: string, proposer: AuthorityId, requirement: ApprovalThreshold, expiresAt: Option<nat>)
    | Approval(proposal: string, voter: AuthorityId, vote: Vote)
    | Rejection(proposal: string, voter: AuthorityId, vote: Vote)
    | Withdrawal(proposal: string, withdrawer: AuthorityId, at: nat)
    | Completion(proposal: string, at: nat, approvers: seq<AuthorityId>)
    | Failure(proposal: string, at: nat, failure: FailureReason)

  datatype Status =
    | Pending(approvals: u16, rejections: u16, required: ApprovalThreshold)
    | Approved
    | Rejected
    | Expired
    | Withdrawn

  datatype State = State(
    requirement: ApprovalThreshold,
    approvals: map<AuthorityId, Vote>,
    rejections: map<AuthorityId, Vote>,
    status: Status)

  function Initial(requirement: ApprovalThreshold): State {
    State(requirement, map[], map[], Pending(0, 0, requirement))
  }

  /** `count` is the length of the approvals map, before any narrowing. */
  predicate MetWithoutTotal(requirement: ApprovalThreshold, count: nat) {
    match requirement
    case Any => count >= 1
    case Unanimous => false
    case Threshold(required) => AsU32(count) >= required
    case Percentage(_) => false
  }

  predicate MetWithTotal(requirement: ApprovalThreshold, count: nat, total: nat) {
    if total == 0 then false else IsMet(requirement, AsU32(count), AsU32(total))
  }

  function Tallied(s: State, met: bool): Status {
    if met then Approved else Pending(AsU16(|s.approvals|), AsU16(|s.rejections|), s.requirement)
  }

  function Counted(s: State): State {
    if !s.status.Pending? then s
    else s.(status := Tallied(s, MetWithoutTotal(s.requirement, |s.approvals|)))
  }

  function Recounted(s: State, total: nat): State {
    if !s.status.Pending? then s
    else s.(status := Tallied(s, MetWithTotal(s.requirement, |s.approvals|, total)))
  }

  function FailedStatus(failure: FailureReason): Status { if failure.Expiry? then Expired else Rejected }

  function Applied(s: State, f: ProposalFact): State {
    match f
    case Approval(_, voter, vote) => Counted(s.(approvals := s.approvals[voter := vote]))
    case Rejection(_, voter, vote) => Counted(s.(rejections := s.rejections[voter := vote]))
    case Withdrawal(_, _, _) => s.(status := Withdrawn)
    case Completion(_, _, _) => s.(status := Approved)
    case Failure(_, _, failure) => s.(status := FailedStatus(failure))
    case Created(_, _, _, _) => s
  }

  function StateOf(requirement: ApprovalThreshold, facts: seq<ProposalFact>): State {
    if facts == [] then Initial(requirement)
    else Applied(StateOf(requirement, facts[..|facts| - 1]), facts[|facts| - 1])
  }

  /** The proposal as the source keeps it, updated in place. */
  class ProposalState {
    const proposal: string
    const proposer: AuthorityId
    const requirement: ApprovalThreshold
    const expiresAt: Option<nat>
    var approvals: map<AuthorityId, Vote>
    var rejections: map<AuthorityId, Vote>
    var status: Status

    ghost function Value(): State reads this { State(requirement, approvals, rejections, status) }

    constructor (created: ProposalFact)
      requires created.Created?
      ensures proposal == created.proposal && proposer == created.proposer && expiresAt == created.expiresAt
      ensures Value() == Initial(created.requirement)
    {
      proposal, proposer, requirement, expiresAt := created.proposal, created.proposer, created.requirement,
        created.expiresAt;
      approvals, rejections, status := map[], map[], Pending(0, 0, created.requirement);
    }

    static method FromCreated(fact: ProposalFact) returns (p: ProposalState?)
      ensures p != null <==> fact.Created?
      ensures p != null ==>
        && fresh(p) && p.Value() == Initial(fact.requirement)
        && p.proposal == fact.proposal && p.proposer == fact.proposer && p.expiresAt == fact.expiresAt
    {
      if fact.Created? {
        p := new ProposalState(fact);
      } else {
        p := null;
      }
    }

    method UpdateStatus()
      modifies this`status
      ensures Value() == Counted(old(Value()))
    {
      if !status.Pending? {
        return;
      }
      if MetWithoutTotal(requirement, |approvals|) {
        status := Approved;
      } else {
        status := Pending(AsU16(|approvals|), AsU16(|rejections|), requirement);
      }
    }

    method UpdateStatusWithTotal(total: nat)
      modifies this`status
      ensures Value() == Recounted(old(Value()), total)
    {
      if !status.Pending? {
        return;
      }
      if MetWithTotal(requirement, |approvals|, total) {
        status := Approved;
      } else {
        status := Pending(AsU16(|approvals|), AsU16(|rejections|), requirement);
      }
    }

    method Apply(f: ProposalFact)
      modifies this
      ensures Value() == Applied(old(Value()), f)
    {
      match f {
        case Approval(_, voter, vote) =>
          approvals := approvals[voter := vote];
          UpdateStatus();
        case Rejection(_, voter, vote) =>
          rejections := rejections[voter := vote];
          UpdateStatus();
        case Withdrawal(_, _, _) =>
          status := Withdrawn;
        case Completion(_, _, _) =>
          status := Approved;
        case Failure(_, _, failure) =>
          status := if failure.Expiry? then Expired else Rejected;
        case Created(_, _, _, _) =>
      }
    }
  }

  // -------------------------------------------- the status, from the facts alone

  function Declared(f: ProposalFact): Option<Status> {
    match f
    case Withdrawal(_, _, _) => Some(Withdrawn)
    case Completion(_, _, _) => Some(Approved)
    case Failure(_, _, Expiry) => Some(Expired)
    case Failure(_, _, Other(_)) => Some(Rejected)
    case _ => None
  }

  /** What the last closing fact declares. */
  function Verdict(facts: seq<ProposalFact>): Option<Status> {
    if facts == [] then None
    else
      var declared := Declared(facts[|facts| - 1]);
      if declared.Some? then declared else Verdict(facts[..|facts| - 1])
  }

  function Approvers(facts: seq<ProposalFact>): set<AuthorityId> {
    if facts == [] then {}
    else
      var f := facts[|facts| - 1];
      Approvers(facts[..|facts| - 1]) + if f.Approval? then {f.voter} else {}
  }

  function Rejectors(facts: seq<ProposalFact>): set<AuthorityId> {
    if facts == [] then {}
    else
      var f := facts[|facts| - 1];
      Rejectors(facts[..|facts| - 1]) + if f.Rejection? then {f.voter} else {}
  }

  /** Enough approvers, counted without any width. */
  predicate Enough(requirement: ApprovalThreshold, approvers: set<AuthorityId>) {
    match requirement
    case Any => |approvers| >= 1
    case Threshold(required) => |approvers| >= required
    case _ => false
  }

  function Decided(requirement: ApprovalThreshold, verdict: Option<Status>, approvers: set<AuthorityId>,
      rejectors: set<AuthorityId>): Status {
    if verdict.Some? then verdict.value
    else if approvers + rejectors != {} && Enough(requirement, approvers) then Approved
    else Pending(AsU16(|approvers|), AsU16(|rejectors|), requirement)
  }

  lemma CountingKeepsVotes(s: State)
    ensures Counted(s) == s.(status := Counted(s).status)
  {
  }

  lemma VotersStep(s: State, f: ProposalFact)
    ensures Applied(s, f).requirement == s.requirement
    ensures Applied(s, f).approvals.Keys == s.approvals.Keys + if f.Approval? then {f.voter} else {}
    ensures Applied(s, f).rejections.Keys == s.rejections.Keys + if f.Rejection? then {f.voter} else {}
  {
    match f {
      case Approval(_, voter, vote) =>
        CountingKeepsVotes(s.(approvals := s.approvals[voter := vote]));
      case Rejection(_, voter, vote) =>
        CountingKeepsVotes(s.(rejections := s.rejections[voter := vote]));
      case _ =>
    }
  }

  lemma {:induction false} VotersTracked(requirement: ApprovalThreshold, facts: seq<ProposalFact>)
    ensures StateOf(requirement, facts).requirement == requirement
    ensures StateOf(requirement, facts).approvals.Keys == Approvers(facts)
    ensures StateOf(requirement, facts).rejections.Keys == Rejectors(facts)
  {
    if facts != [] {
      var f, past := facts[|facts| - 1], facts[..|facts| - 1];
      VotersTracked(requirement, past);
      VotersStep(StateOf(requirement, past), f);
      assert StateOf(requirement, facts) == Applied(StateOf(requirement, past), f);
    }
  }

  /** One more vote, while nothing has closed the proposal. The narrowed count
      agrees with the true one because the true one has not passed the
      requirement yet, and it grows by at most one. */
  lemma VoteStep(requirement: ApprovalThreshold, before: set<AuthorityId>, after: set<AuthorityId>, voted: bool)
    requires before <= after && |after| <= |before| + 1
    requires voted ==> !Enough(requirement, before)
    ensures voted ==> (MetWithoutTotal(requirement, |after|) <==> Enough(requirement, after))
    ensures before == {} ==> (MetWithoutTotal(requirement, |after|) <==> Enough(requirement, after))
  {
  }

  lemma EnoughGrows(requirement: ApprovalThreshold, before: set<AuthorityId>, after: set<AuthorityId>)
    requires before <= after && Enough(requirement, before)
    ensures Enough(requirement, after)
  {
    SubsetCount(before, after);
  }

  /** Counting after a vote: from the decision of the voters before it to the
      decision of the voters with it. */
  lemma CountDecides(s: State, before: set<AuthorityId>, rejectedBefore: set<AuthorityId>)
    requires s.status == Decided(s.requirement, None, before, rejectedBefore)
    requires before <= s.approvals.Keys && rejectedBefore <= s.rejections.Keys && |s.approvals| <= |before| + 1
    requires s.approvals.Keys + s.rejections.Keys != {}
    ensures Counted(s).status == Decided(s.requirement, None, s.approvals.Keys, s.rejections.Keys)
  {
    var after := s.approvals.Keys;
    if before + rejectedBefore != {} && Enough(s.requirement, before) {
      EnoughGrows(s.requirement, before, after);
    } else {
      VoteStep(s.requirement, before, after, before + rejectedBefore != {});
    }
  }

  lemma VoteDecides(s: State, f: ProposalFact)
    requires f.Approval? || f.Rejection?
    requires s.status == Decided(s.requirement, None, s.approvals.Keys, s.rejections.Keys)
    ensures Applied(s, f).status ==
      Decided(s.requirement, None, Applied(s, f).approvals.Keys, Applied(s, f).rejections.Keys)
  {
    var t := if f.Approval? then s.(approvals := s.approvals[f.voter := f.vote])
      else s.(rejections := s.rejections[f.voter := f.vote]);
    assert Applied(s, f) == Counted(t);
    assert f.voter in t.approvals.Keys + t.rejections.Keys;
    CountDecides(t, s.approvals.Keys, s.rejections.Keys);
    CountingKeepsVotes(t);
  }

  /** The status is decided by the verdict and by the voters the state holds. */
  predicate Settled(s: State, verdict: Option<Status>) {
    && s.status == Decided(s.requirement, verdict, s.approvals.Keys, s.rejections.Keys)
    && (verdict.Some? ==> !verdict.value.Pending?)
  }

  lemma SettledStep(s: State, f: ProposalFact, verdict: Option<Status>)
    requires Settled(s, verdict)
    ensures Settled(Applied(s, f), if Declared(f).Some? then Declared(f) else verdict)
  {
    if verdict.None? && (f.Approval? || f.Rejection?) {
      VoteDecides(s, f);
      VotersStep(s, f);
    }
  }

  lemma {:induction false} AlwaysSettled(requirement: ApprovalThreshold, facts: seq<ProposalFact>)
    ensures Settled(StateOf(requirement, facts), Verdict(facts))
  {
    if facts != [] {
      AlwaysSettled(requirement, facts[..|facts| - 1]);
      SettledStep(StateOf(requirement, facts[..|facts| - 1]), facts[|facts| - 1], Verdict(facts[..|facts| - 1]));
    }
  }

  /** For every fact log: the status is what the last closing fact declares, and
      without one it is decided by the sets of voters, with counts that never
      suffer from the 32-bit narrowing. */
  lemma StatusClosedForm(requirement: ApprovalThreshold, facts: seq<ProposalFact>)
    ensures StateOf(requirement, facts).status ==
      Decided(requirement, Verdict(facts), Approvers(facts), Rejectors(facts))
  {
    AlwaysSettled(requirement, facts);
    VotersTracked(requirement, facts);
  }

  /** Votes count as sets: logs with the same approvers, the same rejectors and the
      same verdict leave the same status, whatever the order, the repetitions, the
      timestamps and the comments. */
  lemma VotesCountAsSets(requirement: ApprovalThreshold, a: seq<ProposalFact>, b: seq<ProposalFact>)
    requires Approvers(a) == Approvers(b) && Rejectors(a) == Rejectors(b) && Verdict(a) == Verdict(b)
    ensures StateOf(requirement, a).status == StateOf(requirement, b).status
    ensures StateOf(requirement, a).approvals.Keys == StateOf(requirement, b).approvals.Keys
    ensures StateOf(requirement, a).rejections.Keys == StateOf(requirement, b).rejections.Keys
  {
    StatusClosedForm(requirement, a);
    StatusClosedForm(requirement, b);
    VotersTracked(requirement, a);
    VotersTracked(requirement, b);
  }

  lemma {:induction false} VotersByMembership(facts: seq<ProposalFact>, voter: AuthorityId)
    ensures voter in Approvers(facts) <==> exists f :: f in facts && f.Approval? && f.voter == voter
    ensures voter in Rejectors(facts) <==> exists f :: f in facts && f.Rejection? && f.voter == voter
  {
    if facts != [] {
      var f, past := facts[|facts| - 1], facts[..|facts| - 1];
      VotersByMembership(past, voter);
      assert forall g :: g in facts <==> g == f || g in past;
    }
  }

  /** In particular any reordering or repetition of the same facts that leaves the
      last closing fact's declaration alone decides alike. */
  lemma VoteOrderIrrelevant(requirement: ApprovalThreshold, a: seq<ProposalFact>, b: seq<ProposalFact>)
    requires Elems(a) == Elems(b) && Verdict(a) == Verdict(b)
    ensures StateOf(requirement, a).status == StateOf(requirement, b).status
  {
    assert forall f :: f in a <==> f in Elems(a);
    assert forall f :: f in b <==> f in Elems(b);
    forall voter ensures voter in Approvers(a) <==> voter in Approvers(b) {
      VotersByMembership(a, voter);
      VotersByMembership(b, voter);
    }
    forall voter ensures voter in Rejectors(a) <==> voter in Rejectors(b) {
      VotersByMembership(a, voter);
      VotersByMembership(b, voter);
    }
    VotesCountAsSets(requirement, a, b);
  }

  /** The vote a voter cast last, on the given side. */
  function LastVote(facts: seq<ProposalFact>, voter: AuthorityId, approving: bool): Option<Vote> {
    if facts == [] then None
    else
      var f := facts[|facts| - 1];
      if approving && f.Approval? && f.voter == voter then Some(f.vote)
      else if !approving && f.Rejection? && f.voter == voter then Some(f.vote)
      else LastVote(facts[..|facts| - 1], voter, approving)
  }

  lemma VoteKept(s: State, f: ProposalFact, voter: AuthorityId)
    ensures Lookup(Applied(s, f).approvals, voter) ==
            if f.Approval? && f.voter == voter then Some(f.vote) else Lookup(s.approvals, voter)
    ensures Lookup(Applied(s, f).rejections, voter) ==
            if f.Rejection? && f.voter == voter then Some(f.vote) else Lookup(s.rejections, voter)
  {
    match f {
      case Approval(_, caster, vote) =>
        CountingKeepsVotes(s.(approvals := s.approvals[caster := vote]));
      case Rejection(_, caster, vote) =>
        CountingKeepsVotes(s.(rejections := s.rejections[caster := vote]));
      case _ =>
    }
  }

  /** Each voter's last vote on either side is the one on record, even after the
      proposal is closed. */
  lemma {:induction false} LastVotesKept(requirement: ApprovalThreshold, facts: seq<ProposalFact>, voter: AuthorityId)
    ensures Lookup(StateOf(requirement, facts).approvals, voter) == LastVote(facts, voter, true)
    ensures Lookup(StateOf(requirement, facts).rejections, voter) == LastVote(facts, voter, false)
  {
    if facts != [] {
      LastVotesKept(requirement, facts[..|facts| - 1], voter);
      VoteKept(StateOf(requirement, facts[..|facts| - 1]), facts[|facts| - 1], voter);
    }
  }

  // --------------------------------------------------------- with an electorate

  /** Once the total-less check passes, the check with a total passes exactly when
      the narrowed total is not zero and, for `Any`, neither is the narrowed count. */
  lemma TotalAgreesIff(requirement: ApprovalThreshold, count: nat, total: nat)
    requires MetWithoutTotal(requirement, count)
    ensures MetWithTotal(requirement, count, total) <==>
            AsU32(total) != 0 && (requirement.Any? ==> AsU32(count) != 0)
  {
  }

  /** So an electorate below 2^32 never contradicts an approval by its members. */
  lemma TotalNeverContradicts(requirement: ApprovalThreshold, count: nat, total: nat)
    requires MetWithoutTotal(requirement, count) && 0 < total < U32 && count <= total
    ensures MetWithTotal(requirement, count, total)
  {
    TotalAgreesIff(requirement, count, total);
  }

  predicate Passed(requirement: ApprovalThreshold, facts: seq<ProposalFact>, total: nat) {
    Recounted(StateOf(requirement, facts), total).status == Approved
  }

  /** What a recount decides for a proposal nobody has closed, for counts and totals of
      any size: the reduction had approved it, or the narrowed count reaches the number
      asked for of the narrowed total. Who the approvers are plays no part. */
  lemma RecountExact(requirement: ApprovalThreshold, facts: seq<ProposalFact>, total: nat)
    requires Verdict(facts).None?
    ensures Passed(requirement, facts, total) <==>
            || (Approvers(facts) + Rejectors(facts) != {} && Enough(requirement, Approvers(facts)))
            || (AsU32(total) != 0 && AsU32(|Approvers(facts)|) >= Needed(requirement, AsU32(total)))
  {
    StatusClosedForm(requirement, facts);
    VotersTracked(requirement, facts);
  }

  lemma RecountOf(s: State, verdict: Option<Status>, total: nat)
    requires Settled(s, verdict)
    ensures Recounted(s, total) == s.(status := Recounted(s, total).status)
    ensures verdict.Some? ==> Recounted(s, total).status == verdict.value
    ensures verdict.None? && Recounted(s, total).status != Approved ==>
      Recounted(s, total).status == Pending(AsU16(|s.approvals.Keys|), AsU16(|s.rejections.Keys|), s.requirement)
  {
  }

  /** A recount leaves the votes and a closed proposal alone, and of an open one it
      either approves or reports the counts. */
  lemma RecountKeeps(requirement: ApprovalThreshold, facts: seq<ProposalFact>, total: nat)
    ensures var s, t := StateOf(requirement, facts), Recounted(StateOf(requirement, facts), total);
      && t.requirement == requirement && t.approvals == s.approvals && t.rejections == s.rejections
      && (Verdict(facts).Some? ==> t.status == Verdict(facts).value)
      && (Verdict(facts).None? && !Passed(requirement, facts, total) ==>
          t.status == Pending(AsU16(|Approvers(facts)|), AsU16(|Rejectors(facts)|), requirement))
  {
    AlwaysSettled(requirement, facts);
    RecountOf(StateOf(requirement, facts), Verdict(facts), total);
    VotersTracked(requirement, facts);
  }

  /** A poll nobody has closed, with counts that fit. */
  predicate OpenPoll(facts: seq<ProposalFact>, total: nat) {
    Verdict(facts).None? && |Approvers(facts)| < U32 && 0 < total < U32
  }

  /** Given a total, an open proposal is approved exactly when its approvers are as many
      as the threshold asks for, whatever the threshold and whoever they are. */
  lemma RecountDecides(requirement: ApprovalThreshold, facts: seq<ProposalFact>, total: nat)
    requires OpenPoll(facts, total)
    ensures Passed(requirement, facts, total) <==> |Approvers(facts)| >= Needed(requirement, total)
  {
    RecountExact(requirement, facts, total);
  }

  /** Reduction alone never approves a percentage proposal. The recount does when the
      approvers reach the product as the source computes it, which is the fraction of
      the electorate while the product fits. */
  lemma PercentageDecision(percent: u8, facts: seq<ProposalFact>, total: nat)
    requires OpenPoll(facts, total)
    ensures StateOf(Percentage(percent), facts).status.Pending?
    ensures Passed(Percentage(percent), facts, total) <==> 100 * |Approvers(facts)| >= AsU32(total * percent)
    ensures percent * total < U32 ==>
      (Passed(Percentage(percent), facts, total) <==> 100 * |Approvers(facts)| >= percent * total)
  {
    StatusClosedForm(Percentage(percent), facts);
    RecountDecides(Percentage(percent), facts, total);
    DivCeilLeast(AsU32(total * percent), |Approvers(facts)|);
  }

  /** A unanimous proposal is approved exactly when outsiders who approved are at least
      as many as members who did not. When only members vote, that is when all did. */
  lemma UnanimousDecision(facts: seq<ProposalFact>, electorate: set<AuthorityId>)
    requires OpenPoll(facts, |electorate|)
    ensures StateOf(Unanimous, facts).status.Pending?
    ensures Passed(Unanimous, facts, |electorate|) <==>
      |Approvers(facts) - electorate| >= |electorate - Approvers(facts)|
    ensures Approvers(facts) <= electorate ==>
      (Passed(Unanimous, facts, |electorate|) <==> Approvers(facts) == electorate)
  {
    StatusClosedForm(Unanimous, facts);
    RecountDecides(Unanimous, facts, |electorate|);
    DifferenceCount(Approvers(facts), electorate);
    if Approvers(facts) <= electorate {
      SubsetCount(Approvers(facts), electorate);
    }
  }

  /** Approvals by 3 and 4 pass a unanimous proposal of the electorate 1 and 2. */
  lemma OutsidersPass()
    ensures var facts := [Approval("", 3, Vote(0, None)), Approval("", 4, Vote(0, None))];
      Approvers(facts) * {1, 2} == {} && Passed(Unanimous, facts, |{1, 2}|)
  {
    var facts := [Approval("", 3, Vote(0, None)), Approval("", 4, Vote(0, None))];
    assert facts[..1] == [facts[0]] && facts[..1][..0] == [];
    assert Approvers(facts[..1]) == {3};
    assert Approvers(facts) == {3, 4};
    assert Verdict(facts[..1]).None? && Verdict(facts).None?;
    assert |{1, 2}| == 2 && |{3, 4}| == 2;
    RecountDecides(Unanimous, facts, 2);
  }

  /** Two open polls that both pass. */
  predicate BothPass(requirement: ApprovalThreshold, a: seq<ProposalFact>, b: seq<ProposalFact>, total: nat) {
    OpenPoll(a, total) && OpenPoll(b, total) && Passed(requirement, a, total) && Passed(requirement, b, total)
  }

  predicate SharedApprover(
    requirement: ApprovalThreshold, a: seq<ProposalFact>, b: seq<ProposalFact>, electorate: set<AuthorityId>)
  {
    BothPass(requirement, a, b, |electorate|) && Approvers(a) <= electorate && Approvers(b) <= electorate
    ==> Approvers(a) * Approvers(b) != {}
  }

  lemma {:induction false} BallotsOf(voters: set<AuthorityId>) returns (facts: seq<ProposalFact>)
    ensures Verdict(facts).None? && Approvers(facts) == voters
  {
    if voters == {} {
      facts := [];
    } else {
      var v :| v in voters;
      var rest := BallotsOf(voters - {v});
      facts := rest + [Approval("", v, Vote(0, None))];
      assert facts[..|facts| - 1] == rest;
    }
  }

  /** Any two proposals that members alone approve have an approver in common, exactly
      when twice the number asked for exceeds the electorate. */
  lemma DecisionsShareVoterIff(requirement: ApprovalThreshold, electorate: set<AuthorityId>)
    requires 0 < |electorate| < U32
    ensures (forall a, b :: SharedApprover(requirement, a, b, electorate)) <==>
            2 * Needed(requirement, |electorate|) > |electorate|
  {
    var n := |electorate|;
    var k := Needed(requirement, n);
    if 2 * k > n {
      forall a, b ensures SharedApprover(requirement, a, b, electorate) {
        if BothPass(requirement, a, b, n) && Approvers(a) <= electorate && Approvers(b) <= electorate {
          RecountDecides(requirement, a, n);
          RecountDecides(requirement, b, n);
          OverlapByCount(Approvers(a), Approvers(b), electorate);
        }
      }
    } else {
      var left := SubsetOfSize(electorate, k);
      assert |electorate - left| == n - k;
      var right := SubsetOfSize(electorate - left, k);
      var a, b := DisjointPolls(requirement, left, right, n);
      assert !SharedApprover(requirement, a, b, electorate);
    }
  }

  lemma DisjointPolls(requirement: ApprovalThreshold, left: set<AuthorityId>, right: set<AuthorityId>, total: nat)
    returns (a: seq<ProposalFact>, b: seq<ProposalFact>)
    requires 0 < total < U32 && left * right == {}
    requires |left| == |right| == Needed(requirement, total) < U32
    ensures BothPass(requirement, a, b, total) && Approvers(a) == left && Approvers(b) == right
    ensures Approvers(a) * Approvers(b) == {}
  {
    a := BallotsOf(left);
    b := BallotsOf(right);
    RecountDecides(requirement, a, total);
    RecountDecides(requirement, b, total);
  }

  lemma {:induction false} AuthoritiesFrom(first: nat, k: nat) returns (ids: set<AuthorityId>)
    ensures |ids| == k && forall id <- ids :: first <= id < first + k
    decreases k
  {
    if k == 0 {
      ids := {};
    } else {
      var fewer := AuthoritiesFrom(first, k - 1);
      ids := fewer + {first + k - 1};
    }
  }

  /** Outsiders undo it: whatever the threshold and the total, two proposals can both
      pass without a common approver. */
  lemma OutsidersShareNobody(requirement: ApprovalThreshold, total: nat)
    requires 0 < total < U32
    ensures exists a, b :: BothPass(requirement, a, b, total) && Approvers(a) * Approvers(b) == {}
  {
    var k := Needed(requirement, total);
    NeededFits(requirement, total);
    var left := AuthoritiesFrom(0, k);
    var right := AuthoritiesFrom(k, k);
    var a, b := DisjointPolls(requirement, left, right, total);
  }
}
