/** The authentication view: an incremental fold over authentication facts. */
module AuthView {
  import opened Common
  import opened Quorum

  type AuthorityId = nat
  type Id = string
  type Scope = string
  type Operation = nat

  datatype AuthFact =
    | ChallengeGenerated(session: Id, authority: AuthorityId, scope: Scope, expiresAt: nat, at: nat)
    | ProofSubmitted(session: Id, authority: AuthorityId, at: nat)
    | AuthVerified(session: Id, authority: AuthorityId, at: nat)
    | AuthFailed(session: Id, authority: AuthorityId, reason: string, at: nat)
    | SessionIssued(session: Id, authority: AuthorityId, scope: Scope, at: nat, expiresAt: nat)
    | SessionRevoked(session: Id, revokedBy: AuthorityId, reason: string, at: nat)
    | GuardianApprovalRequested(request: Id, account: AuthorityId, requester: AuthorityId, operation: Operation,
        required: nat, emergency: bool, at: nat, expiresAt: nat)
    | GuardianApproved(request: Id, guardian: AuthorityId, at: nat)
    | GuardianDenied(request: Id, guardian: AuthorityId, reason: string, at: nat)
    | RecoveryCompleted(request: Id, account: AuthorityId, operation: Operation, at: nat)
    | RecoveryFailed(request: Id, account: AuthorityId, operation: Operation, reason: string, at: nat)

  datatype FailureReason = ByGuardian(reason: string) | ByProtocol(reason: string)

  datatype Delta =
    | NoChange
    | PendingChallenge(session: Id, authority: AuthorityId, expiresAt: nat)
    | ActiveSession(session: Id, authority: AuthorityId, scope: Scope, expiresAt: nat)
    | SessionRemoved(session: Id)
    | PendingRecovery(request: Id, account: AuthorityId, required: nat, expiresAt: nat)
    | GuardianApprovalAdded(request: Id, guardian: AuthorityId)
    | RecoveryDone(request: Id)
    | RecoveryLost(request: Id, reason: FailureReason)

  datatype SessionInfo = SessionInfo(session: Id, authority: AuthorityId, scope: Scope, issuedAt: nat, expiresAt: nat)
  datatype ChallengeInfo = ChallengeInfo(session: Id, authority: AuthorityId, expiresAt: nat)
  datatype RecoveryInfo = RecoveryInfo(
    request: Id, account: AuthorityId, requester: AuthorityId, operation: Operation, required: nat,
    approvalCount: nat, approvers: seq<AuthorityId>, emergency: bool, expiresAt: nat)
  datatype FailureRecord = FailureRecord(session: Id, authority: AuthorityId, reason: string, at: nat)
  datatype RecoveryFailureRecord = RecoveryFailureRecord(request: Id, account: Option<AuthorityId>,
      reason: FailureReason)

  datatype View = View(
    sessions: map<Id, SessionInfo>,
    challenges: map<Id, ChallengeInfo>,
    recoveries: map<Id, RecoveryInfo>,
    approvals: map<Id, seq<AuthorityId>>,
    failures: seq<FailureRecord>,
    recoveryFailures: seq<RecoveryFailureRecord>)

  const EMPTY_VIEW := View(map[], map[], map[], map[], [], [])
  const RECENT_FAILURES := 100
  const ACCOUNT_ACCESS_RECOVERY: Operation := 0

  function Reduce(f: AuthFact): Delta {
    match f
    case ChallengeGenerated(s, a, _, x, _) => PendingChallenge(s, a, x)
    case SessionIssued(s, a, scope, _, x) => ActiveSession(s, a, scope, x)
    case SessionRevoked(s, _, _, _) => SessionRemoved(s)
    case GuardianApprovalRequested(r, account, _, _, required, _, _, x) => PendingRecovery(r, account, required, x)
    case GuardianApproved(r, g, _) => GuardianApprovalAdded(r, g)
    case GuardianDenied(r, _, reason, _) => RecoveryLost(r, ByGuardian(reason))
    case RecoveryCompleted(r, _, _, _) => RecoveryDone(r)
    case RecoveryFailed(r, _, _, reason, _) => RecoveryLost(r, ByProtocol(reason))
    case _ => NoChange
  }

  function Approve(info: RecoveryInfo, g: AuthorityId): RecoveryInfo {
    if g in info.approvers then info
    else info.(approvers := info.approvers + [g], approvalCount := AsU32(info.approvalCount + 1))
  }

  function ListAt(m: map<Id, seq<AuthorityId>>, r: Id): seq<AuthorityId> { if r in m then m[r] else [] }

  function WithDelta(v: View, d: Delta, f: AuthFact): View {
    match d
    case NoChange => v
    case PendingChallenge(s, a, x) => v.(challenges := v.challenges[s := ChallengeInfo(s, a, x)])
    case ActiveSession(s, a, scope, x) =>
      v.(challenges := v.challenges - {s}, sessions := v.sessions[s := SessionInfo(s, a, scope, f.at, x)])
    case SessionRemoved(s) => v.(sessions := v.sessions - {s})
    case PendingRecovery(r, account, required, x) =>
      var (requester, operation, emergency) :=
        if f.GuardianApprovalRequested? then (f.requester, f.operation, f.emergency)
          else (account, ACCOUNT_ACCESS_RECOVERY, false);
      v.(recoveries := v.recoveries[r := RecoveryInfo(r, account, requester, operation, required, 0, [], emergency, x)])
    case GuardianApprovalAdded(r, g) =>
      v.(recoveries := if r in v.recoveries then v.recoveries[r := Approve(v.recoveries[r], g)] else v.recoveries,
         approvals := v.approvals[r := ListAt(v.approvals, r) + [g]])
    case RecoveryDone(r) => v.(recoveries := v.recoveries - {r})
    case RecoveryLost(r, reason) =>
      var account := if r in v.recoveries then Some(v.recoveries[r].account) else None;
      v.(recoveryFailures := v.recoveryFailures + [RecoveryFailureRecord(r, account, reason)],
        recoveries := v.recoveries - {r})
  }

  function RecordFailure(failures: seq<FailureRecord>, r: FailureRecord): seq<FailureRecord> {
    var longer := failures + [r];
    if |longer| > RECENT_FAILURES then longer[1..] else longer
  }

  function Applied(v: View, f: AuthFact): View {
    var w := WithDelta(v, Reduce(f), f);
    if f.AuthFailed?
      then w.(failures := RecordFailure(w.failures, FailureRecord(f.session, f.authority, f.reason, f.at)))
    else w
  }

  function ViewOf(facts: seq<AuthFact>): View {
    if facts == [] then EMPTY_VIEW else Applied(ViewOf(facts[..|facts| - 1]), facts[|facts| - 1])
  }

  predicate IsRecoveryApproved(v: View, r: Id) {
    r in v.recoveries && v.recoveries[r].approvalCount >= v.recoveries[r].required
  }

  /** The view as the source keeps it, updated in place. */
  class AuthViewReducer {
    var sessions: map<Id, SessionInfo>
    var challenges: map<Id, ChallengeInfo>
    var recoveries: map<Id, RecoveryInfo>
    var approvals: map<Id, seq<AuthorityId>>
    var failures: seq<FailureRecord>
    var recoveryFailures: seq<RecoveryFailureRecord>

    ghost function State(): View reads this {
      View(sessions, challenges, recoveries, approvals, failures, recoveryFailures)
    }

    constructor ()
      ensures State() == EMPTY_VIEW
    {
      sessions, challenges, recoveries, approvals, failures, recoveryFailures := map[], map[], map[], map[], [], [];
    }

    method AddGuardianApproval(r: Id, g: AuthorityId)
      modifies this
      ensures State() == old(State()).(
        recoveries := if r in old(recoveries) then old(recoveries)[r := Approve(old(recoveries)[r], g)]
          else old(recoveries),
        approvals := old(approvals)[r := ListAt(old(approvals), r) + [g]])
    {
      if r in recoveries {
        var info := recoveries[r];
        if g !in info.approvers {
          info := info.(approvers := info.approvers + [g]);
          info := info.(approvalCount := AsU32(info.approvalCount + 1));
        }
        recoveries := recoveries[r := info];
      }
      approvals := approvals[r := ListAt(approvals, r) + [g]];
    }

    method RecordRecoveryFailure(r: Id, reason: FailureReason)
      modifies this
      ensures State() == old(State()).(
        recoveryFailures := old(recoveryFailures) +
          [RecoveryFailureRecord(r, if r in old(recoveries) then Some(old(recoveries)[r].account) else None, reason)],
        recoveries := old(recoveries) - {r})
    {
      var account := if r in recoveries then Some(recoveries[r].account) else None;
      recoveryFailures := recoveryFailures + [RecoveryFailureRecord(r, account, reason)];
      recoveries := recoveries - {r};
    }

    method RecordAuthFailure(record: FailureRecord)
      modifies this`failures
      ensures failures == RecordFailure(old(failures), record)
    {
      failures := failures + [record];
      if |failures| > RECENT_FAILURES {
        failures := failures[1..];
      }
    }

    method Apply(f: AuthFact)
      modifies this
      ensures State() == Applied(old(State()), f)
    {
      match Reduce(f) {
        case NoChange =>
        case PendingChallenge(s, a, x) =>
          challenges := challenges[s := ChallengeInfo(s, a, x)];
        case ActiveSession(s, a, scope, x) =>
          challenges := challenges - {s};
          sessions := sessions[s := SessionInfo(s, a, scope, f.at, x)];
        case SessionRemoved(s) =>
          sessions := sessions - {s};
        case PendingRecovery(r, account, required, x) =>
          var requester, operation, emergency := account, ACCOUNT_ACCESS_RECOVERY, false;
          if f.GuardianApprovalRequested? {
            requester, operation, emergency := f.requester, f.operation, f.emergency;
          }
          recoveries := recoveries[r := RecoveryInfo(r, account, requester, operation, required, 0, [], emergency, x)];
        case GuardianApprovalAdded(r, g) =>
          AddGuardianApproval(r, g);
        case RecoveryDone(r) =>
          recoveries := recoveries - {r};
        case RecoveryLost(r, reason) =>
          RecordRecoveryFailure(r, reason);
      }
      if f.AuthFailed? {
        RecordAuthFailure(FailureRecord(f.session, f.authority, f.reason, f.at));
      }
    }

    /** `reduce_all`, from an empty view. */
    method ReduceAll(facts: seq<AuthFact>)
      requires State() == EMPTY_VIEW
      modifies this
      ensures State() == ViewOf(facts)
    {
      for i := 0 to |facts|
        invariant State() == ViewOf(facts[..i])
      {
        Apply(facts[i]);
        assert facts[..i + 1][..i] == facts[..i];
      }
      assert facts[..|facts|] == facts;
    }
  }

  // -------------------------------------- recovery approval, from the facts alone

  predicate Lifecycle(f: AuthFact, r: Id) {
    (f.GuardianApprovalRequested? || f.GuardianDenied? || f.RecoveryCompleted? || f.RecoveryFailed?) && f.request == r
  }

  /** The last lifecycle fact for the request, if it is a request for approval. */
  function OpenRequest(facts: seq<AuthFact>, r: Id): Option<AuthFact> {
    if facts == [] then None
    else
      var f := facts[|facts| - 1];
      if Lifecycle(f, r) then (if f.GuardianApprovalRequested? then Some(f) else None)
      else OpenRequest(facts[..|facts| - 1], r)
  }

  /** The guardians who approved after the last lifecycle fact. */
  function ApproversSince(facts: seq<AuthFact>, r: Id): set<AuthorityId> {
    if facts == [] then {}
    else
      var f, past := facts[|facts| - 1], facts[..|facts| - 1];
      if Lifecycle(f, r) then {}
      else if f.GuardianApproved? && f.request == r then ApproversSince(past, r) + {f.guardian}
      else ApproversSince(past, r)
  }

  predicate Describes(info: RecoveryInfo, f: AuthFact, approvers: set<AuthorityId>)
    requires f.GuardianApprovalRequested?
  {
    && info.request == f.request && info.account == f.account && info.requester == f.requester
    && info.operation == f.operation && info.required == f.required && info.emergency == f.emergency
    && info.expiresAt == f.expiresAt
    && NoDup(info.approvers) && Elems(info.approvers) == approvers && info.approvalCount == AsU32(|approvers|)
  }

  predicate OpenIsRequest(facts: seq<AuthFact>, r: Id) {
    OpenRequest(facts, r).Some? ==>
      OpenRequest(facts, r).value.GuardianApprovalRequested? && OpenRequest(facts, r).value.request == r
  }

  lemma ApproveDescribes(info: RecoveryInfo, f: AuthFact, approvers: set<AuthorityId>, g: AuthorityId)
    requires f.GuardianApprovalRequested? && Describes(info, f, approvers)
    ensures Describes(Approve(info, g), f, approvers + {g})
  {
    assert g in approvers <==> g in info.approvers;
    if g in approvers {
      assert approvers + {g} == approvers;
    } else {
      ElemsSnoc(info.approvers, g);
      CounterNarrows(|approvers|);
    }
  }

  predicate Tracks(v: View, r: Id, open: Option<AuthFact>, approvers: set<AuthorityId>) {
    && (open.Some? ==> open.value.GuardianApprovalRequested? && open.value.request == r)
    && (r in v.recoveries <==> open.Some?)
    && (r in v.recoveries ==> Describes(v.recoveries[r], open.value, approvers))
  }

  lemma RequestTracks(v: View, f: AuthFact)
    requires f.GuardianApprovalRequested?
    ensures Tracks(Applied(v, f), f.request, Some(f), {})
  {
    ElemsEmpty(Applied(v, f).recoveries[f.request].approvers);
  }

  lemma OtherTracks(v: View, f: AuthFact, r: Id, open: Option<AuthFact>, approvers: set<AuthorityId>)
    requires Tracks(v, r, open, approvers)
    requires !Lifecycle(f, r) && !(f.GuardianApproved? && f.request == r)
    ensures Tracks(Applied(v, f), r, open, approvers)
  {
  }

  lemma {:induction false} RecoveryFollowsFacts(facts: seq<AuthFact>, r: Id)
    ensures Tracks(ViewOf(facts), r, OpenRequest(facts, r), ApproversSince(facts, r))
  {
    if facts != [] {
      var f, past := facts[|facts| - 1], facts[..|facts| - 1];
      var v, open, approvers := ViewOf(past), OpenRequest(past, r), ApproversSince(past, r);
      RecoveryFollowsFacts(past, r);
      if Lifecycle(f, r) {
        if f.GuardianApprovalRequested? {
          RequestTracks(v, f);
        }
      } else if f.GuardianApproved? && f.request == r {
        if r in v.recoveries {
          ApproveDescribes(v.recoveries[r], open.value, approvers, f.guardian);
        }
      } else {
        OtherTracks(v, f, r, open, approvers);
      }
    }
  }

  /** After any facts at all: a recovery is approved exactly when its last
      lifecycle fact is a request and at least the required number of distinct
      guardians have approved since. The source counts them in 32 bits. */
  lemma ApprovalClosedForm(facts: seq<AuthFact>, r: Id)
    ensures OpenIsRequest(facts, r)
    ensures IsRecoveryApproved(ViewOf(facts), r) <==>
            OpenRequest(facts, r).Some? && AsU32(|ApproversSince(facts, r)|) >= OpenRequest(facts, r).value.required
    ensures |ApproversSince(facts, r)| < U32 ==>
      (IsRecoveryApproved(ViewOf(facts), r) <==>
       OpenRequest(facts, r).Some? && |ApproversSince(facts, r)| >= OpenRequest(facts, r).value.required)
  {
    RecoveryFollowsFacts(facts, r);
  }

  // ------------------------------------------- sessions, challenges and approvals

  /** The session the last issue or revocation leaves active. */
  function ActiveSince(facts: seq<AuthFact>, s: Id): Option<SessionInfo> {
    if facts == [] then None
    else
      var f := facts[|facts| - 1];
      if f.SessionIssued? && f.session == s then Some(SessionInfo(s, f.authority, f.scope, f.at, f.expiresAt))
      else if f.SessionRevoked? && f.session == s then None
      else ActiveSince(facts[..|facts| - 1], s)
  }

  /** The last challenge, unless a session has been issued since. */
  function ChallengeSince(facts: seq<AuthFact>, s: Id): Option<ChallengeInfo> {
    if facts == [] then None
    else
      var f := facts[|facts| - 1];
      if f.ChallengeGenerated? && f.session == s then Some(ChallengeInfo(s, f.authority, f.expiresAt))
      else if f.SessionIssued? && f.session == s then None
      else ChallengeSince(facts[..|facts| - 1], s)
  }

  /** Everyone who ever approved the request, in order and with repeats. */
  function AllApprovals(facts: seq<AuthFact>, r: Id): seq<AuthorityId> {
    if facts == [] then []
    else
      var f := facts[|facts| - 1];
      AllApprovals(facts[..|facts| - 1], r) + if f.GuardianApproved? && f.request == r then [f.guardian] else []
  }

  lemma {:induction false} SessionsClosedForm(facts: seq<AuthFact>, s: Id)
    ensures Lookup(ViewOf(facts).sessions, s) == ActiveSince(facts, s)
    ensures Lookup(ViewOf(facts).challenges, s) == ChallengeSince(facts, s)
  {
    if facts != [] {
      SessionsClosedForm(facts[..|facts| - 1], s);
    }
  }

  lemma {:induction false} ApprovalsClosedForm(facts: seq<AuthFact>, r: Id)
    ensures ListAt(ViewOf(facts).approvals, r) == AllApprovals(facts, r)
  {
    if facts != [] {
      ApprovalsClosedForm(facts[..|facts| - 1], r);
    }
  }

  // ----------------------------------------------------------------- locality

  predicate AboutSession(f: AuthFact, s: Id) {
    match f
    case ChallengeGenerated(x, _, _, _, _) => x == s
    case ProofSubmitted(x, _, _) => x == s
    case AuthVerified(x, _, _) => x == s
    case AuthFailed(x, _, _, _) => x == s
    case SessionIssued(x, _, _, _, _) => x == s
    case SessionRevoked(x, _, _, _) => x == s
    case _ => false
  }

  predicate AboutRequest(f: AuthFact, r: Id) {
    match f
    case GuardianApprovalRequested(x, _, _, _, _, _, _, _) => x == r
    case GuardianApproved(x, _, _) => x == r
    case GuardianDenied(x, _, _, _) => x == r
    case RecoveryCompleted(x, _, _, _) => x == r
    case RecoveryFailed(x, _, _, _, _) => x == r
    case _ => false
  }

  function ForSession(facts: seq<AuthFact>, s: Id): seq<AuthFact> {
    if facts == [] then []
    else ForSession(facts[..|facts| - 1], s) + if AboutSession(facts[|facts| - 1], s) then [facts[|facts| - 1]] else []
  }

  function ForRequest(facts: seq<AuthFact>, r: Id): seq<AuthFact> {
    if facts == [] then []
    else ForRequest(facts[..|facts| - 1], r) + if AboutRequest(facts[|facts| - 1], r) then [facts[|facts| - 1]] else []
  }

  predicate SameEntry<T(==)>(a: map<Id, T>, b: map<Id, T>, id: Id) {
    (id in a <==> id in b) && (id in a ==> a[id] == b[id])
  }

  predicate SessionEntries(v: View, w: View, s: Id) {
    SameEntry(v.sessions, w.sessions, s) && SameEntry(v.challenges, w.challenges, s)
  }

  predicate RequestEntries(v: View, w: View, r: Id) {
    SameEntry(v.recoveries, w.recoveries, r) && SameEntry(v.approvals, w.approvals, r)
  }

  lemma SessionStep(v: View, w: View, f: AuthFact, s: Id)
    requires SessionEntries(v, w, s)
    ensures SessionEntries(Applied(v, f), if AboutSession(f, s) then Applied(w, f) else w, s)
  {
  }

  lemma RequestStep(v: View, w: View, f: AuthFact, r: Id)
    requires RequestEntries(v, w, r)
    ensures RequestEntries(Applied(v, f), if AboutRequest(f, r) then Applied(w, f) else w, r)
  {
  }

  /** The entry at a session id is what the facts carrying that id alone give. */
  lemma {:induction false} SessionLocality(facts: seq<AuthFact>, s: Id)
    ensures SessionEntries(ViewOf(facts), ViewOf(ForSession(facts, s)), s)
  {
    if facts != [] {
      var f, past := facts[|facts| - 1], facts[..|facts| - 1];
      SessionLocality(past, s);
      SessionStep(ViewOf(past), ViewOf(ForSession(past, s)), f, s);
      var mine := ForSession(past, s);
      assert (mine + [f])[..|mine|] == mine;
      assert mine + [] == mine;
    }
  }

  lemma {:induction false} RequestLocality(facts: seq<AuthFact>, r: Id)
    ensures RequestEntries(ViewOf(facts), ViewOf(ForRequest(facts, r)), r)
  {
    if facts != [] {
      var f, past := facts[|facts| - 1], facts[..|facts| - 1];
      RequestLocality(past, r);
      RequestStep(ViewOf(past), ViewOf(ForRequest(past, r)), f, r);
      var mine := ForRequest(past, r);
      assert (mine + [f])[..|mine|] == mine;
      assert mine + [] == mine;
    }
  }

  lemma EntriesDetermineMap<T>(a: map<Id, T>, b: map<Id, T>)
    requires forall id :: SameEntry(a, b, id)
    ensures a == b
  {
    forall id ensures id in a <==> id in b {
      assert SameEntry(a, b, id);
    }
    forall id <- a ensures a[id] == b[id] {
      assert SameEntry(a, b, id);
    }
  }

  /** Reordering a fact log is harmless as long as each id sees its own facts in
      the same order: all four maps of the view come out equal. */
  lemma ReorderingHarmless(facts: seq<AuthFact>, facts': seq<AuthFact>)
    requires forall id :: ForSession(facts, id) == ForSession(facts', id)
    requires forall id :: ForRequest(facts, id) == ForRequest(facts', id)
    ensures var v, w := ViewOf(facts), ViewOf(facts');
      && v.sessions == w.sessions && v.challenges == w.challenges
      && v.recoveries == w.recoveries && v.approvals == w.approvals
  {
    var v, w := ViewOf(facts), ViewOf(facts');
    forall id ensures SessionEntries(v, w, id) && RequestEntries(v, w, id) {
      SessionLocality(facts, id);
      SessionLocality(facts', id);
      RequestLocality(facts, id);
      RequestLocality(facts', id);
      assert ForSession(facts, id) == ForSession(facts', id) && ForRequest(facts, id) == ForRequest(facts', id);
    }
    assert forall id :: SessionEntries(v, w, id) ==>
      SameEntry(v.sessions, w.sessions, id) && SameEntry(v.challenges, w.challenges, id);
    assert forall id :: RequestEntries(v, w, id) ==>
      SameEntry(v.recoveries, w.recoveries, id) && SameEntry(v.approvals, w.approvals, id);
    EntriesDetermineMap(v.sessions, w.sessions);
    EntriesDetermineMap(v.challenges, w.challenges);
    EntriesDetermineMap(v.recoveries, w.recoveries);
    EntriesDetermineMap(v.approvals, w.approvals);
  }

  // ------------------------------------------------------------ failure records

  function AllFailures(facts: seq<AuthFact>): seq<FailureRecord> {
    if facts == [] then []
    else
      var f := facts[|facts| - 1];
      AllFailures(facts[..|facts| - 1]) +
      if f.AuthFailed? then [FailureRecord(f.session, f.authority, f.reason, f.at)] else []
  }

  /** The view keeps exactly the last 100 authentication failures, in order. */
  lemma {:induction false} FailuresAreLatest(facts: seq<AuthFact>)
    ensures ViewOf(facts).failures == Latest(AllFailures(facts), RECENT_FAILURES)
  {
    if facts != [] {
      var f, past := facts[|facts| - 1], facts[..|facts| - 1];
      FailuresAreLatest(past);
      assert AllFailures(past) + [] == AllFailures(past);
    }
  }

  /** Every denial and failure, each with the account of the request it closed. */
  function AllRecoveryFailures(facts: seq<AuthFact>): seq<RecoveryFailureRecord> {
    if facts == [] then []
    else
      var f, past := facts[|facts| - 1], facts[..|facts| - 1];
      AllRecoveryFailures(past) +
      if f.GuardianDenied? || f.RecoveryFailed? then
        var open := OpenRequest(past, f.request);
        [RecoveryFailureRecord(f.request,
                               if open.Some? && open.value.GuardianApprovalRequested?
                               then Some(open.value.account) else None,
                               if f.GuardianDenied? then ByGuardian(f.reason) else ByProtocol(f.reason))]
      else []
  }

  lemma {:induction false} RecoveryFailuresExact(facts: seq<AuthFact>)
    ensures ViewOf(facts).recoveryFailures == AllRecoveryFailures(facts)
  {
    if facts != [] {
      var f, past := facts[|facts| - 1], facts[..|facts| - 1];
      RecoveryFailuresExact(past);
      if f.GuardianDenied? || f.RecoveryFailed? {
        RecoveryFollowsFacts(past, f.request);
      }
      assert AllRecoveryFailures(past) + [] == AllRecoveryFailures(past);
    }
  }
}
