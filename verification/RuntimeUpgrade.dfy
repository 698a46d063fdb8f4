/** Runtime upgrades of a bundle: canonical membership, validation, and a history
    in which every attempt, successful or not, is recorded. */
module RuntimeUpgrade {
  import opened Common
  import opened Ordering

  /** A member id, as its UTF-8 bytes. */
  type Member = Bytes
  type Id = string

  datatype PlanStep = PlanStep(id: Id, nextMembers: seq<Member>)

  datatype Compatibility = Compatibility(ownershipContinuity: bool, invalidateBlocked: bool,
      preserveCanonicalTruth: bool)

  datatype Request = Request(
    upgrade: Id, steps: seq<PlanStep>, compatibility: Compatibility,
    carriedPublications: seq<Id>, invalidatedPublications: seq<Id>,
    carriedObligations: seq<Id>, invalidatedObligations: seq<Id>)

  datatype Reason =
    | NoSteps | PublicationConflict | ObligationConflict | OwnershipBroken
    | PendingEffectsImplicit | CanonicalTruthInvalidated | EmptyStep(step: Id)
    | EmptySeed | NotSeeded

  datatype UpgradeError = DuplicateBundle | BundleNotFound | InvalidRuntimeUpgrade(reason: Reason)

  datatype Phase = Staged | Admitted | CommittedCutover | Failed

  datatype Artifact = Artifact(request: Request, phase: Phase, previous: seq<Member>, next: seq<Member>,
      reason: Option<Reason>)

  datatype Execution = Execution(bundle: Id, upgrade: Id, finalMembers: seq<Member>, artifacts: seq<Artifact>)

  datatype Snapshot = Snapshot(epoch: nat, members: seq<Member>, upgrades: seq<Execution>)

  const EMPTY_SNAPSHOT := Snapshot(0, [], [])

  function Self(m: Member): Bytes { m }

  function CanonicalMembers(members: seq<Member>): seq<Member> { Canonical(Self, members) }

  /** Two member lists have the same canonical form exactly when they name the
      same members; the form is sorted, repeats nothing and loses nothing. */
  lemma CanonicalMembersExact(a: seq<Member>, b: seq<Member>)
    ensures SortedBy(Self, CanonicalMembers(a)) && Elems(CanonicalMembers(a)) == Elems(a)
    ensures CanonicalMembers(a) == CanonicalMembers(b) <==> Elems(a) == Elems(b)
    ensures CanonicalMembers(a) == [] <==> a == []
  {
    CanonicalSorted(Self, a);
    CanonicalSorted(Self, b);
    if Elems(a) == Elems(b) {
      SortedUnique(Self, CanonicalMembers(a), CanonicalMembers(b));
    }
    ElemsEmpty(a);
    ElemsEmpty(CanonicalMembers(a));
  }

  function FirstEmptyStep(steps: seq<PlanStep>): Option<Reason> {
    if steps == [] then None
    else if steps[0].nextMembers == [] then Some(EmptyStep(steps[0].id))
    else FirstEmptyStep(steps[1..])
  }

  function Validate(active: set<Member>, q: Request): Option<Reason> {
    if q.steps == [] then Some(NoSteps)
    else if Elems(q.carriedPublications) * Elems(q.invalidatedPublications) != {} then Some(PublicationConflict)
    else if Elems(q.carriedObligations) * Elems(q.invalidatedObligations) != {} then Some(ObligationConflict)
    else if q.compatibility.ownershipContinuity && active !! Elems(q.steps[0].nextMembers) then Some(OwnershipBroken)
    else if q.compatibility.invalidateBlocked && q.carriedObligations == [] && q.invalidatedObligations == []
    then Some(PendingEffectsImplicit)
    else if q.compatibility.preserveCanonicalTruth && q.invalidatedPublications != []
    then Some(CanonicalTruthInvalidated)
    else FirstEmptyStep(q.steps)
  }

  /** The per-step loop of `validate_runtime_upgrade_request`. */
  method CheckSteps(steps: seq<PlanStep>) returns (reason: Option<Reason>)
    ensures reason == FirstEmptyStep(steps)
    ensures reason.None? <==> forall step <- steps :: step.nextMembers != []
  {
    for i := 0 to |steps|
      invariant FirstEmptyStep(steps) == FirstEmptyStep(steps[i..])
      invariant forall k :: 0 <= k < i ==> steps[k].nextMembers != []
    {
      if steps[i].nextMembers == [] {
        return Some(EmptyStep(steps[i].id));
      }
      assert steps[i..][1..] == steps[i + 1..];
    }
    return None;
  }

  /** `validate_runtime_upgrade_request`: the checks in order, the plan loop last. */
  method ValidateRequest(active: set<Member>, q: Request) returns (reason: Option<Reason>)
    ensures reason == Validate(active, q)
  {
    if q.steps == [] {
      return Some(NoSteps);
    }
    if Elems(q.carriedPublications) * Elems(q.invalidatedPublications) != {} {
      return Some(PublicationConflict);
    }
    if Elems(q.carriedObligations) * Elems(q.invalidatedObligations) != {} {
      return Some(ObligationConflict);
    }
    if q.compatibility.ownershipContinuity && active !! Elems(q.steps[0].nextMembers) {
      return Some(OwnershipBroken);
    }
    if q.compatibility.invalidateBlocked && q.carriedObligations == [] && q.invalidatedObligations == [] {
      return Some(PendingEffectsImplicit);
    }
    if q.compatibility.preserveCanonicalTruth && q.invalidatedPublications != [] {
      return Some(CanonicalTruthInvalidated);
    }
    reason := CheckSteps(q.steps);
  }

  lemma {:induction false} ValidStepsNonEmpty(steps: seq<PlanStep>)
    ensures FirstEmptyStep(steps).None? <==> forall step <- steps :: step.nextMembers != []
  {
    if steps != [] {
      ValidStepsNonEmpty(steps[1..]);
      assert steps == [steps[0]] + steps[1..];
    }
  }

  // --------------------------------------------------------------- one attempt

  function NextMembers(q: Request): seq<Member> {
    if q.steps == [] then [] else CanonicalMembers(q.steps[|q.steps| - 1].nextMembers)
  }

  function MembersAfter(members: seq<Member>, q: Request): seq<Member> {
    if Validate(Elems(members), q).None? then NextMembers(q) else members
  }

  function Attempt(bundle: Id, members: seq<Member>, q: Request): Execution {
    var staged := Artifact(q, Staged, members, NextMembers(q), None);
    match Validate(Elems(members), q)
    case Some(reason) =>
      Execution(bundle, q.upgrade, members, [staged, Artifact(q, Failed, members, members, Some(reason))])
    case None =>
      Execution(bundle, q.upgrade, NextMembers(q),
                [staged, Artifact(q, Admitted, members, NextMembers(q), None),
                 Artifact(q, CommittedCutover, members, NextMembers(q), None)])
  }

  // --------------------------------------------------------------- the events

  datatype Event = Register(bundle: Id) | Seed(bundle: Id, members: seq<Member>) | Execute(bundle: Id, request: Request)

  datatype Book = Book(bundles: set<Id>, snapshots: map<Id, Snapshot>)

  datatype Reply = Done | Executed(execution: Execution) | Refused(error: UpgradeError)

  function Answer(b: Book, e: Event): Reply {
    match e
    case Register(id) => if id in b.bundles then Refused(DuplicateBundle) else Done
    case Seed(id, members) =>
      if id !in b.bundles then Refused(BundleNotFound)
      else if CanonicalMembers(members) == [] then Refused(InvalidRuntimeUpgrade(EmptySeed))
      else if id !in b.snapshots then Refused(BundleNotFound)
      else Done
    case Execute(id, q) =>
      if id !in b.bundles || id !in b.snapshots then Refused(BundleNotFound)
      else if b.snapshots[id].members == [] then Refused(InvalidRuntimeUpgrade(NotSeeded))
      else match Validate(Elems(b.snapshots[id].members), q)
        case Some(reason) => Refused(InvalidRuntimeUpgrade(reason))
        case None => Executed(Attempt(id, b.snapshots[id].members, q))
  }

  function Recorded(id: Id, sn: Snapshot, q: Request): Snapshot {
    var upgrades := sn.upgrades + [Attempt(id, sn.members, q)];
    Snapshot(|upgrades|, MembersAfter(sn.members, q), upgrades)
  }

  function Apply(b: Book, e: Event): Book {
    match e
    case Register(id) =>
      if id in b.bundles then b
      else Book(b.bundles + {id}, if id in b.snapshots then b.snapshots else b.snapshots[id := EMPTY_SNAPSHOT])
    case Seed(id, members) =>
      if Answer(b, e) != Done then b
      else b.(snapshots := b.snapshots[id := Snapshot(0, CanonicalMembers(members), [])])
    case Execute(id, q) =>
      if id !in b.bundles || id !in b.snapshots || b.snapshots[id].members == [] then b
      else b.(snapshots := b.snapshots[id := Recorded(id, b.snapshots[id], q)])
  }

  class RuntimeUpgradeController {
    var bundles: set<Id>
    var snapshots: map<Id, Snapshot>

    ghost function State(): Book reads this { Book(bundles, snapshots) }

    constructor ()
      ensures State() == Book({}, map[])
    {
      bundles, snapshots := {}, map[];
    }

    method RegisterBundle(id: Id) returns (reply: Reply)
      modifies this
      ensures State() == Apply(old(State()), Register(id)) && reply == Answer(old(State()), Register(id))
    {
      if id in bundles {
        return Refused(DuplicateBundle);
      }
      if id !in snapshots {
        snapshots := snapshots[id := EMPTY_SNAPSHOT];
      }
      bundles := bundles + {id};
      return Done;
    }

    method SeedMembership(id: Id, members: seq<Member>) returns (reply: Reply)
      modifies this
      ensures State() == Apply(old(State()), Seed(id, members)) && reply == Answer(old(State()), Seed(id, members))
    {
      if id !in bundles {
        return Refused(BundleNotFound);
      }
      var active := CanonicalMembers(members);
      if active == [] {
        return Refused(InvalidRuntimeUpgrade(EmptySeed));
      }
      if id !in snapshots {
        return Refused(BundleNotFound);
      }
      snapshots := snapshots[id := Snapshot(0, active, [])];
      return Done;
    }

    method ExecuteUpgrade(id: Id, q: Request) returns (reply: Reply)
      modifies this
      ensures State() == Apply(old(State()), Execute(id, q)) && reply == Answer(old(State()), Execute(id, q))
    {
      if id !in bundles || id !in snapshots {
        return Refused(BundleNotFound);
      }
      var sn := snapshots[id];
      if sn.members == [] {
        return Refused(InvalidRuntimeUpgrade(NotSeeded));
      }
      var execution := Attempt(id, sn.members, q);
      var upgrades := sn.upgrades + [execution];
      var verdict := ValidateRequest(Elems(sn.members), q);
      if verdict.Some? {
        snapshots := snapshots[id := Snapshot(|upgrades|, sn.members, upgrades)];
        return Refused(InvalidRuntimeUpgrade(verdict.value));
      }
      snapshots := snapshots[id := Snapshot(|upgrades|, execution.finalMembers, upgrades)];
      return Executed(execution);
    }
  }

  // ------------------------------------------- the closed form over histories

  predicate Registered(events: seq<Event>, id: Id) { Register(id) in events }

  /** The canonical membership set by the last effective seed. */
  function LastSeed(events: seq<Event>, id: Id): seq<Member> {
    if events == [] then []
    else
      var past, e := events[..|events| - 1], events[|events| - 1];
      if e.Seed? && e.bundle == id && Registered(past, id) && e.members != [] then CanonicalMembers(e.members)
      else LastSeed(past, id)
  }

  /** The upgrade requests made since then, in order. */
  function RequestsSince(events: seq<Event>, id: Id): seq<Request> {
    if events == [] then []
    else
      var past, e := events[..|events| - 1], events[|events| - 1];
      if e.Seed? && e.bundle == id && Registered(past, id) && e.members != [] then []
      else if e.Execute? && e.bundle == id && LastSeed(past, id) != [] then RequestsSince(past, id) + [e.request]
      else RequestsSince(past, id)
  }

  function MembersBy(seed: seq<Member>, qs: seq<Request>): seq<Member> {
    if qs == [] then seed else MembersAfter(MembersBy(seed, qs[..|qs| - 1]), qs[|qs| - 1])
  }

  function HistoryBy(id: Id, seed: seq<Member>, qs: seq<Request>): seq<Execution> {
    if qs == [] then []
    else HistoryBy(id, seed, qs[..|qs| - 1]) + [Attempt(id, MembersBy(seed, qs[..|qs| - 1]), qs[|qs| - 1])]
  }

  function SnapshotBy(id: Id, seed: seq<Member>, qs: seq<Request>): Snapshot {
    Snapshot(|qs|, MembersBy(seed, qs), HistoryBy(id, seed, qs))
  }

  function BookAfter(events: seq<Event>): Book {
    if events == [] then Book({}, map[]) else Apply(BookAfter(events[..|events| - 1]), events[|events| - 1])
  }

  lemma {:induction false} HistoryLength(id: Id, seed: seq<Member>, qs: seq<Request>)
    ensures |HistoryBy(id, seed, qs)| == |qs|
  {
    if qs != [] {
      HistoryLength(id, seed, qs[..|qs| - 1]);
    }
  }

  lemma SnapshotBySnoc(id: Id, seed: seq<Member>, qs: seq<Request>, q: Request)
    ensures SnapshotBy(id, seed, qs + [q]) == Recorded(id, SnapshotBy(id, seed, qs), q)
  {
    assert (qs + [q])[..|qs|] == qs;
    HistoryLength(id, seed, qs);
  }

  predicate Proper(members: seq<Member>) { members != [] && SortedBy(Self, members) }

  /** Membership never degenerates: an accepted upgrade leaves a non-empty,
      sorted, repeat-free membership, and a refused one leaves it alone. */
  lemma ProperKept(members: seq<Member>, q: Request)
    requires Proper(members)
    ensures Proper(MembersAfter(members, q))
  {
    if Validate(Elems(members), q).None? {
      ValidStepsNonEmpty(q.steps);
      var last := q.steps[|q.steps| - 1];
      assert last in q.steps;
      CanonicalMembersExact(last.nextMembers, last.nextMembers);
    }
  }

  lemma {:induction false} ProperAlways(seed: seq<Member>, qs: seq<Request>)
    requires Proper(seed)
    ensures Proper(MembersBy(seed, qs))
  {
    if qs != [] {
      ProperAlways(seed, qs[..|qs| - 1]);
      ProperKept(MembersBy(seed, qs[..|qs| - 1]), qs[|qs| - 1]);
    }
  }

  lemma {:induction false} SeedProper(events: seq<Event>, id: Id)
    ensures LastSeed(events, id) == [] || Proper(LastSeed(events, id))
    ensures LastSeed(events, id) == [] ==> RequestsSince(events, id) == []
  {
    if events != [] {
      SeedProper(events[..|events| - 1], id);
      var e := events[|events| - 1];
      if e.Seed? {
        CanonicalMembersExact(e.members, e.members);
      }
    }
  }

  /** On every run the snapshot of a bundle is the closed form of its history:
      epoch counts the attempts recorded since the last seed, and the whole
      upgrade log follows from that seed and the requests made since. */
  lemma {:induction false} SnapshotClosedForm(events: seq<Event>, id: Id)
    ensures BookAfter(events).bundles == BookAfter(events).snapshots.Keys
    ensures id in BookAfter(events).bundles <==> Registered(events, id)
    ensures Registered(events, id) ==>
      BookAfter(events).snapshots[id] == SnapshotBy(id, LastSeed(events, id), RequestsSince(events, id))
    ensures !Registered(events, id) ==> LastSeed(events, id) == [] && RequestsSince(events, id) == []
  {
    if events != [] {
      var past, e := events[..|events| - 1], events[|events| - 1];
      assert events == past + [e];
      SnapshotClosedForm(past, id);
      if e.Execute? && e.bundle == id && Registered(past, id) {
        ExecuteClosedForm(past, id, e.request);
      } else if e.Seed? && e.bundle == id {
        CanonicalMembersExact(e.members, e.members);
      }
    }
  }

  /** The inductive step for one more attempt on a registered bundle. */
  lemma ExecuteClosedForm(past: seq<Event>, id: Id, q: Request)
    requires id in BookAfter(past).bundles && BookAfter(past).bundles == BookAfter(past).snapshots.Keys
    requires BookAfter(past).snapshots[id] == SnapshotBy(id, LastSeed(past, id), RequestsSince(past, id))
    ensures var events := past + [Execute(id, q)];
      Apply(BookAfter(past), Execute(id, q)).snapshots[id] ==
        SnapshotBy(id, LastSeed(events, id), RequestsSince(events, id))
  {
    var events := past + [Execute(id, q)];
    assert events[..|events| - 1] == past;
    SeedProper(past, id);
    var seed, qs := LastSeed(past, id), RequestsSince(past, id);
    if seed != [] {
      ProperAlways(seed, qs);
      SnapshotBySnoc(id, seed, qs, q);
    }
  }

  // ----------------------------------- which requests are accepted, and as what

  /** What speaks against a request on a bundle with the given members. */
  predicate Objection(members: set<Member>, q: Request, reason: Reason) {
    match reason
    case NoSteps => q.steps == []
    case PublicationConflict => exists p <- q.carriedPublications :: p in q.invalidatedPublications
    case ObligationConflict => exists o <- q.carriedObligations :: o in q.invalidatedObligations
    case OwnershipBroken =>
      q.compatibility.ownershipContinuity && q.steps != [] && forall m <- q.steps[0].nextMembers :: m !in members
    case PendingEffectsImplicit =>
      q.compatibility.invalidateBlocked && q.carriedObligations == [] && q.invalidatedObligations == []
    case CanonicalTruthInvalidated => q.compatibility.preserveCanonicalTruth && q.invalidatedPublications != []
    case EmptyStep(id) =>
      exists i :: 0 <= i < |q.steps| && q.steps[i].id == id && q.steps[i].nextMembers == []
                  && forall k :: 0 <= k < i ==> q.steps[k].nextMembers != []
    case _ => false
  }

  function Rank(reason: Reason): nat {
    match reason
    case NoSteps => 0
    case PublicationConflict => 1
    case ObligationConflict => 2
    case OwnershipBroken => 3
    case PendingEffectsImplicit => 4
    case CanonicalTruthInvalidated => 5
    case _ => 6
  }

  /** There are steps, all with members; nothing is both carried and invalidated; and
      each compatibility demand is met. */
  predicate Acceptable(members: set<Member>, q: Request) {
    && q.steps != [] && (forall step <- q.steps :: step.nextMembers != [])
    && (forall p <- q.carriedPublications :: p !in q.invalidatedPublications)
    && (forall o <- q.carriedObligations :: o !in q.invalidatedObligations)
    && (q.compatibility.ownershipContinuity ==> exists m <- q.steps[0].nextMembers :: m in members)
    && (q.compatibility.invalidateBlocked ==> q.carriedObligations != [] || q.invalidatedObligations != [])
    && (q.compatibility.preserveCanonicalTruth ==> q.invalidatedPublications == [])
  }

  /** The objection raised first. */
  ghost predicate FirstObjection(members: set<Member>, q: Request, reason: Reason) {
    Objection(members, q, reason) && forall other :: Objection(members, q, other) ==> Rank(reason) <= Rank(other)
  }

  lemma {:induction false} FirstEmptyExact(steps: seq<PlanStep>) returns (i: nat)
    requires FirstEmptyStep(steps).Some?
    ensures i < |steps| && FirstEmptyStep(steps) == Some(EmptyStep(steps[i].id)) && steps[i].nextMembers == []
    ensures forall k :: 0 <= k < i ==> steps[k].nextMembers != []
  {
    if steps[0].nextMembers == [] {
      i := 0;
    } else {
      var j := FirstEmptyExact(steps[1..]);
      i := j + 1;
      forall k | 0 <= k < i ensures steps[k].nextMembers != [] {
        assert k > 0 ==> steps[k] == steps[1..][k - 1];
      }
    }
  }

  lemma ConflictIff(a: seq<Id>, b: seq<Id>)
    ensures Elems(a) * Elems(b) != {} <==> exists x <- a :: x in b
  {
    if x :| x in a && x in b {
      assert x in Elems(a) * Elems(b);
    }
  }

  lemma OwnershipIff(members: set<Member>, next: seq<Member>)
    ensures members !! Elems(next) <==> forall m <- next :: m !in members
  {
    if members !! Elems(next) {
      forall m <- next ensures m !in members {
        assert m in Elems(next);
      }
    }
  }

  /** Validation objects exactly to what is not acceptable, and first things first. */
  lemma ValidateIff(members: set<Member>, q: Request)
    ensures Validate(members, q).None? <==> Acceptable(members, q)
    ensures Validate(members, q).Some? ==> FirstObjection(members, q, Validate(members, q).value)
  {
    ConflictIff(q.carriedPublications, q.invalidatedPublications);
    ConflictIff(q.carriedObligations, q.invalidatedObligations);
    ValidStepsNonEmpty(q.steps);
    if q.steps != [] {
      OwnershipIff(members, q.steps[0].nextMembers);
    }
    if FirstEmptyStep(q.steps).Some? {
      var i := FirstEmptyExact(q.steps);
    }
  }

  /** The sorted listing of the members of the last step, or nothing without steps. */
  predicate ListsLastStep(ms: seq<Member>, q: Request) {
    if q.steps == [] then ms == []
    else SortedBy(Self, ms) && Elems(ms) == Elems(q.steps[|q.steps| - 1].nextMembers)
  }

  /** One recorded attempt, as seen from the membership it started from: staged, then
      either admitted and committed with the last step's members, or failed for the
      first objection with the membership as it was. */
  ghost predicate Follows(x: Execution, id: Id, before: seq<Member>, q: Request) {
    && x.bundle == id && x.upgrade == q.upgrade && |x.artifacts| >= 2
    && (forall a <- x.artifacts :: a.request == q && a.previous == before)
    && x.artifacts[0].phase == Staged && x.artifacts[0].reason.None? && ListsLastStep(x.artifacts[0].next, q)
    && (Acceptable(Elems(before), q) ==>
          && ListsLastStep(x.finalMembers, q) && |x.artifacts| == 3
          && x.artifacts[1].phase == Admitted && x.artifacts[2].phase == CommittedCutover
          && (forall a <- x.artifacts :: a.next == x.finalMembers && a.reason.None?))
    && (!Acceptable(Elems(before), q) ==>
          && x.finalMembers == before && |x.artifacts| == 2
          && x.artifacts[1].phase == Failed && x.artifacts[1].next == before
          && x.artifacts[1].reason.Some? && FirstObjection(Elems(before), q, x.artifacts[1].reason.value))
  }

  lemma AttemptFollows(id: Id, before: seq<Member>, q: Request)
    ensures Follows(Attempt(id, before, q), id, before, q)
    ensures Attempt(id, before, q).finalMembers == MembersAfter(before, q)
  {
    ValidateIff(Elems(before), q);
    if q.steps != [] {
      var last := q.steps[|q.steps| - 1].nextMembers;
      CanonicalMembersExact(last, last);
    }
  }

  lemma {:induction false} HistoryAt(id: Id, seed: seq<Member>, qs: seq<Request>, i: nat)
    requires i < |qs|
    ensures |HistoryBy(id, seed, qs)| == |qs|
    ensures HistoryBy(id, seed, qs)[i] == Attempt(id, MembersBy(seed, qs[..i]), qs[i])
  {
    HistoryLength(id, seed, qs);
    if i < |qs| - 1 {
      var past := qs[..|qs| - 1];
      HistoryAt(id, seed, past, i);
      assert past[..i] == qs[..i];
    }
  }

  lemma HistoryEnds(id: Id, seed: seq<Member>, qs: seq<Request>, i: nat)
    requires i < |qs|
    ensures |HistoryBy(id, seed, qs)| == |qs|
    ensures HistoryBy(id, seed, qs)[i].finalMembers == MembersBy(seed, qs[..i + 1])
  {
    HistoryAt(id, seed, qs, i);
    AttemptFollows(id, MembersBy(seed, qs[..i]), qs[i]);
    assert qs[..i + 1][..i] == qs[..i];
  }

  /** How attempts chain: each starts from where the previous one ended, a failed
      attempt is recorded and changes nothing, a successful one ends in the
      canonical membership of its last plan step, and the last one ends in the
      active membership. */
  lemma HistoryChains(id: Id, seed: seq<Member>, qs: seq<Request>, i: nat)
    requires i < |qs|
    ensures |HistoryBy(id, seed, qs)| == |qs|
    ensures var h := HistoryBy(id, seed, qs);
      Follows(h[i], id, if i == 0 then seed else h[i - 1].finalMembers, qs[i])
    ensures i == |qs| - 1 ==> HistoryBy(id, seed, qs)[i].finalMembers == MembersBy(seed, qs)
  {
    HistoryAt(id, seed, qs, i);
    AttemptFollows(id, MembersBy(seed, qs[..i]), qs[i]);
    if i > 0 {
      HistoryEnds(id, seed, qs, i - 1);
    }
    if i == |qs| - 1 {
      HistoryEnds(id, seed, qs, i);
      assert qs[..i + 1] == qs;
    }
  }

  /** Where the `i`-th recorded attempt started from. */
  function StartOf(seed: seq<Member>, upgrades: seq<Execution>, i: nat): seq<Member>
    requires i <= |upgrades|
  {
    if i == 0 then seed else upgrades[i - 1].finalMembers
  }

  /** On every run, for every registered bundle: the epoch is the number of recorded
      attempts; membership, once seeded, is non-empty, sorted and repeat-free; each
      attempt, failed or not, answers its own request from where the one before ended,
      and the last ended in the membership there is now. */
  lemma SnapshotsChain(events: seq<Event>, id: Id)
    requires id in BookAfter(events).bundles
    ensures id in BookAfter(events).snapshots
    ensures var sn, seed, qs := BookAfter(events).snapshots[id], LastSeed(events, id), RequestsSince(events, id);
      && sn.epoch == |sn.upgrades| == |qs|
      && (sn.members == [] <==> seed == []) && (seed != [] ==> Proper(seed) && Proper(sn.members))
      && (forall i :: 0 <= i < |qs| ==> Follows(sn.upgrades[i], id, StartOf(seed, sn.upgrades, i), qs[i]))
      && StartOf(seed, sn.upgrades, |sn.upgrades|) == sn.members
  {
    SnapshotClosedForm(events, id);
    SeedProper(events, id);
    var seed, qs := LastSeed(events, id), RequestsSince(events, id);
    HistoryLength(id, seed, qs);
    if seed != [] {
      ProperAlways(seed, qs);
    }
    var history := HistoryBy(id, seed, qs);
    forall i | 0 <= i < |qs| ensures Follows(history[i], id, StartOf(seed, history, i), qs[i]) {
      HistoryChains(id, seed, qs, i);
    }
    if qs != [] {
      HistoryChains(id, seed, qs, |qs| - 1);
    }
  }

  /** What the controller answers after any history: a repeated registration is refused
      and no other; a seed is taken exactly on a registered bundle with some member; and
      an upgrade is executed exactly on a seeded bundle for an acceptable request,
      otherwise refused for the first objection. */
  lemma AnswersExact(events: seq<Event>, id: Id, members: seq<Member>, q: Request)
    ensures Answer(BookAfter(events), Register(id)) ==
            if Registered(events, id) then Refused(DuplicateBundle) else Done
    ensures Answer(BookAfter(events), Seed(id, members)) ==
            if !Registered(events, id) then Refused(BundleNotFound)
            else if members == [] then Refused(InvalidRuntimeUpgrade(EmptySeed))
            else Done
    ensures !Registered(events, id) ==> Answer(BookAfter(events), Execute(id, q)) == Refused(BundleNotFound)
    ensures Registered(events, id) && LastSeed(events, id) == [] ==>
      Answer(BookAfter(events), Execute(id, q)) == Refused(InvalidRuntimeUpgrade(NotSeeded))
    ensures Registered(events, id) && LastSeed(events, id) != [] ==>
      && id in BookAfter(events).snapshots
      && var now, answer := BookAfter(events).snapshots[id].members, Answer(BookAfter(events), Execute(id, q));
         && (answer.Executed? <==> Acceptable(Elems(now), q))
         && (answer.Executed? ==> Follows(answer.execution, id, now, q))
         && (!answer.Executed? ==>
               && answer.Refused? && answer.error.InvalidRuntimeUpgrade?
               && FirstObjection(Elems(now), q, answer.error.reason))
  {
    SnapshotClosedForm(events, id);
    CanonicalMembersExact(members, members);
    if Registered(events, id) {
      SnapshotsChain(events, id);
      var now := BookAfter(events).snapshots[id].members;
      ValidateIff(Elems(now), q);
      AttemptFollows(id, now, q);
    }
  }
}
