/** Session delegation under the coherence check: when it succeeds, what it
    leaves alone, and who owns a session after any history of delegations. */
module Delegation {
  import opened Common
  import opened Coherence

  datatype Request = Request(session: SessionId, from: AuthorityId, to: AuthorityId, bundle: Option<string>, at: nat)

  datatype Receipt = Receipt(request: Request, fromBefore: Footprint, fromAfter: Footprint, toBefore: Footprint,
      toAfter: Footprint)

  datatype DelegateError = BundleNotFound | SessionNotOwned | CoherenceViolation

  datatype Ledger = Ledger(bundles: set<string>, footprints: Footprints, log: seq<Receipt>)

  function FootprintOf(f: Footprints, a: AuthorityId): Footprint { if a in f then f[a] else NEW_FOOTPRINT }

  function Drop(f: Footprints, a: AuthorityId, s: SessionId): Footprints {
    if a in f then f[a := f[a].Remove(s)] else f
  }

  function EntryOf(f: Footprints, a: AuthorityId): Footprint { if a in f then f[a] else DEFAULT_FOOTPRINT }

  function Extend(f: Footprints, a: AuthorityId, s: SessionId, kind: FootprintClass): Footprints {
    f[a := EntryOf(f, a).Add(s, kind)]
  }

  /** Earlier delegators forget the session when its receiver passes it on. */
  function Cleared(f: Footprints, s: SessionId, from: AuthorityId): Footprints {
    map a | a in f :: if a != from && s in f[a].delegatedOut then f[a].Remove(s) else f[a]
  }

  /** The candidate footprints of a delegation. */
  function Moved(f: Footprints, s: SessionId, from: AuthorityId, to: AuthorityId): Footprints {
    var c := if s in FootprintOf(f, from).delegatedIn then Cleared(f, s, from) else f;
    Extend(Extend(Drop(c, from, s), from, s, DelegatedOut), to, s, DelegatedIn)
  }

  ghost function Outcome(c: Ledger, q: Request): Result<Receipt, DelegateError> {
    var f, m := c.footprints, Moved(c.footprints, q.session, q.from, q.to);
    if q.bundle.Some? && q.bundle.value !in c.bundles then Err(BundleNotFound)
    else if !FootprintOf(f, q.from).Contains(q.session) then Err(SessionNotOwned)
    else if !Coherent(m) then Err(CoherenceViolation)
    else Ok(Receipt(q, FootprintOf(f, q.from), FootprintOf(m, q.from), FootprintOf(f, q.to), FootprintOf(m, q.to)))
  }

  ghost function After(c: Ledger, q: Request): Ledger {
    match Outcome(c, q)
    case Err(_) => c
    case Ok(receipt) => c.(footprints := Moved(c.footprints, q.session, q.from, q.to), log := c.log + [receipt])
  }

  class ReconfigurationController {
    var bundles: set<string>
    var footprints: Footprints
    var log: seq<Receipt>

    ghost function State(): Ledger reads this { Ledger(bundles, footprints, log) }

    constructor ()
      ensures State() == Ledger({}, map[], [])
    {
      bundles, footprints, log := {}, map[], [];
    }

    method RegisterBundle(id: string) returns (added: bool)
      modifies this`bundles
      ensures added <==> id !in old(bundles)
      ensures State() == old(State()).(bundles := old(bundles) + {id})
    {
      added := id !in bundles;
      bundles := bundles + {id};
    }

    /** Not guarded by the coherence check. */
    method FootprintExtend(a: AuthorityId, s: SessionId, kind: FootprintClass)
      modifies this`footprints
      ensures State() == old(State()).(footprints := Extend(old(footprints), a, s, kind))
    {
      footprints := footprints[a := EntryOf(footprints, a).Add(s, kind)];
    }

    method Delegate(q: Request) returns (res: Result<Receipt, DelegateError>)
      modifies this
      ensures res == Outcome(old(State()), q)
      ensures State() == After(old(State()), q)
    {
      if q.bundle.Some? && q.bundle.value !in bundles {
        return Err(BundleNotFound);
      }
      var fromBefore := FootprintOf(footprints, q.from);
      if !fromBefore.Contains(q.session) {
        return Err(SessionNotOwned);
      }
      var toBefore := FootprintOf(footprints, q.to);
      var candidate := footprints;
      if q.session in fromBefore.delegatedIn {
        candidate := ClearDelegators(footprints, q.session, q.from);
      }
      candidate := Drop(candidate, q.from, q.session);
      candidate := Extend(candidate, q.from, q.session, DelegatedOut);
      candidate := Extend(candidate, q.to, q.session, DelegatedIn);
      var violations := VerifyCoherenceMap(candidate);
      if violations != [] {
        return Err(CoherenceViolation);
      }
      var receipt := Receipt(q, fromBefore, FootprintOf(candidate, q.from), toBefore, FootprintOf(candidate, q.to));
      footprints := candidate;
      log := log + [receipt];
      return Ok(receipt);
    }
  }

  /** The loop over all footprints, in any order. */
  method ClearDelegators(f: Footprints, s: SessionId, from: AuthorityId) returns (candidate: Footprints)
    ensures candidate == Cleared(f, s, from)
  {
    candidate := f;
    var todo := f.Keys;
    while todo != {}
      invariant todo <= f.Keys && candidate.Keys == f.Keys
      invariant forall a <- f :: candidate[a] == if a in todo then f[a] else Cleared(f, s, from)[a]
    {
      var a :| a in todo;
      if s in f[a].delegatedOut && a != from {
        candidate := Drop(candidate, a, s);
      }
      todo := todo - {a};
    }
  }

  // -------------------------------------------------- effect of one delegation

  /** What a delegation does to the session it moves. */
  function MovedRoles(r: Roles, from: AuthorityId, to: AuthorityId): Roles {
    var gone := if from in r.receivers then r.delegators else {};
    Roles(r.natives - gone - {from, to}, r.receivers - gone - {from} + {to}, r.delegators - gone + {from} - {to})
  }

  function Owners(f: Footprints, s: SessionId): set<AuthorityId> { RolesOf(f, s).Owners() }

  lemma MovedElsewhere(f: Footprints, s: SessionId, from: AuthorityId, to: AuthorityId, t: SessionId)
    requires t != s
    ensures RolesOf(Moved(f, s, from, to), t) == RolesOf(f, t)
  {
    var m := Moved(f, s, from, to);
    forall a ensures (a in m && t in m[a].native) == (a in f && t in f[a].native)
             ensures (a in m && t in m[a].delegatedIn) == (a in f && t in f[a].delegatedIn)
             ensures (a in m && t in m[a].delegatedOut) == (a in f && t in f[a].delegatedOut)
    {
    }
  }

  lemma MovedHere(f: Footprints, s: SessionId, from: AuthorityId, to: AuthorityId)
    ensures RolesOf(Moved(f, s, from, to), s) == MovedRoles(RolesOf(f, s), from, to)
  {
    var m, r := Moved(f, s, from, to), MovedRoles(RolesOf(f, s), from, to);
    assert s in FootprintOf(f, from).delegatedIn <==> from in Receivers(f, s);
    forall a ensures (a in m && s in m[a].native) == (a in r.natives)
             ensures (a in m && s in m[a].delegatedIn) == (a in r.receivers)
             ensures (a in m && s in m[a].delegatedOut) == (a in r.delegators)
    {
    }
  }

  lemma Singleton<T>(x: set<T>, a: T)
    requires a in x && |x| <= 1
    ensures x == {a}
  {
    SubsetCount({a}, x);
  }

  lemma SingleOwner(r: Roles, a: AuthorityId)
    requires r.Coherent() && a in r.Owners()
    ensures r.natives == {} || r.receivers == {}
    ensures r.Owners() == {a}
    ensures a in r.natives ==> r.delegators == {}
  {
    if a in r.natives {
      Singleton(r.natives, a);
      assert |r.receivers| == 0;
    } else {
      Singleton(r.receivers, a);
      assert |r.natives| == 0;
    }
  }

  lemma MovedByOwner(r: Roles, from: AuthorityId, to: AuthorityId)
    requires r.Coherent() && from in r.Owners()
    ensures MovedRoles(r, from, to) == Roles({}, {to}, {from} - {to})
    ensures MovedRoles(r, from, to).Coherent()
  {
    SingleOwner(r, from);
  }

  /** A holder that is not an active owner has delegated the session to someone. */
  lemma FormerShape(r: Roles, from: AuthorityId) returns (holder: AuthorityId)
    requires r.Coherent() && r.Holds(from) && from !in r.Owners()
    ensures r == Roles({}, {holder}, {from}) && holder != from
  {
    Singleton(r.delegators, from);
    holder :| holder in r.receivers;
    Singleton(r.receivers, holder);
    assert |r.natives| == 0;
  }

  lemma MovedByFormer(holder: AuthorityId, from: AuthorityId, to: AuthorityId)
    requires holder != from
    ensures MovedRoles(Roles({}, {holder}, {from}), from, to) == Roles({}, {holder, to}, {from} - {to})
  {
    var r := MovedRoles(Roles({}, {holder}, {from}), from, to);
    assert r.natives == {} && r.receivers == {holder, to} && r.delegators == {from} - {to};
  }

  lemma FormerCoherentIff(holder: AuthorityId, from: AuthorityId, to: AuthorityId)
    requires holder != from
    ensures Roles({}, {holder, to}, {from} - {to}).Coherent() <==> to == holder
  {
    if to == holder {
      assert {holder, to} == {holder} && {from} - {to} == {from};
    } else {
      assert |{holder, to}| == 2;
    }
  }

  lemma MovedRolesIff(r: Roles, from: AuthorityId, to: AuthorityId)
    requires r.Coherent() && r.Holds(from)
    ensures MovedRoles(r, from, to).Coherent() <==> from in r.Owners() || to in r.Owners()
    ensures from in r.Owners() || to in r.Owners() ==> MovedRoles(r, from, to) == Roles({}, {to}, {from} - {to})
    ensures r.Owners() != {}
  {
    if from in r.Owners() {
      MovedByOwner(r, from, to);
    } else {
      var holder := FormerShape(r, from);
      MovedByFormer(holder, from, to);
      FormerCoherentIff(holder, from, to);
      assert r.Owners() == {holder} && {holder, holder} == {holder};
    }
  }

  /** Only the moved session can spoil the candidate's coherence. */
  lemma MovedCoherentHere(f: Footprints, s: SessionId, from: AuthorityId, to: AuthorityId)
    requires Coherent(f)
    ensures Coherent(Moved(f, s, from, to)) <==> MovedRoles(RolesOf(f, s), from, to).Coherent()
  {
    var m := Moved(f, s, from, to);
    MovedHere(f, s, from, to);
    assert CoherentAt(m, s) <==> RolesOf(m, s).Coherent();
    forall t | t != s ensures CoherentAt(m, t) {
      MovedElsewhere(f, s, from, to, t);
      assert CoherentAt(f, t);
      assert RolesOf(m, t).Coherent() <==> RolesOf(f, t).Coherent();
    }
  }

  /** The candidate is coherent exactly when the giver is the active owner, or
      the receiver already is (an earlier delegator repeating itself). */
  lemma MovedCoherentIff(f: Footprints, s: SessionId, from: AuthorityId, to: AuthorityId)
    requires Coherent(f) && FootprintOf(f, from).Contains(s)
    ensures Coherent(Moved(f, s, from, to)) <==> from in Owners(f, s) || to in Owners(f, s)
    ensures from in Owners(f, s) || to in Owners(f, s) ==> Owners(Moved(f, s, from, to), s) == {to}
    ensures Owners(f, s) != {}
  {
    var r := RolesOf(f, s);
    assert CoherentAt(f, s);
    assert r.Coherent() && r.Holds(from);
    MovedCoherentHere(f, s, from, to);
    MovedHere(f, s, from, to);
    MovedRolesIff(r, from, to);
  }

  /** Exactly when a delegation succeeds, from any coherent state. */
  lemma DelegateSucceedsIff(c: Ledger, q: Request)
    requires Coherent(c.footprints)
    ensures Outcome(c, q).Ok? <==>
      && (q.bundle.None? || q.bundle.value in c.bundles)
      && FootprintOf(c.footprints, q.from).Contains(q.session)
      && (q.from in Owners(c.footprints, q.session) || q.to in Owners(c.footprints, q.session))
  {
    if FootprintOf(c.footprints, q.from).Contains(q.session) {
      MovedCoherentIff(c.footprints, q.session, q.from, q.to);
    }
  }

  /** Progress: an active owner, native or at the end of a chain of delegations,
      can always delegate, to anyone, earlier owners included. */
  lemma OwnerCanDelegate(c: Ledger, q: Request)
    requires Coherent(c.footprints) && q.from in Owners(c.footprints, q.session)
    requires q.bundle.None? || q.bundle.value in c.bundles
    ensures Outcome(c, q).Ok?
    ensures Owners(After(c, q).footprints, q.session) == {q.to}
  {
    assert FootprintOf(c.footprints, q.from).Contains(q.session);
    DelegateSucceedsIff(c, q);
    MovedCoherentIff(c.footprints, q.session, q.from, q.to);
  }

  /** One step, accepted or refused: coherence is kept, sessions gain or lose no
      owner, and no other session is touched. */
  lemma DelegateStep(c: Ledger, q: Request)
    requires Coherent(c.footprints)
    ensures Coherent(After(c, q).footprints)
    ensures forall t :: t != q.session || Outcome(c, q).Err? ==>
      RolesOf(After(c, q).footprints, t) == RolesOf(c.footprints, t)
    ensures forall t :: Owners(After(c, q).footprints, t) == {} <==> Owners(c.footprints, t) == {}
    ensures Outcome(c, q).Ok? ==> Owners(After(c, q).footprints, q.session) == {q.to}
  {
    if Outcome(c, q).Ok? {
      DelegateSucceedsIff(c, q);
      MovedCoherentIff(c.footprints, q.session, q.from, q.to);
      forall t | t != q.session ensures RolesOf(After(c, q).footprints, t) == RolesOf(c.footprints, t) {
        MovedElsewhere(c.footprints, q.session, q.from, q.to, t);
      }
    }
  }

  // --------------------------------------------------------------- whole runs

  ghost function Run(c: Ledger, qs: seq<Request>): Ledger {
    if qs == [] then c else After(Run(c, qs[..|qs| - 1]), qs[|qs| - 1])
  }

  /** The receiver named by the latest receipt for a session. */
  function LatestReceiver(log: seq<Receipt>, t: SessionId): Option<AuthorityId> {
    if log == [] then None
    else
      var last := log[|log| - 1].request;
      if last.session == t then Some(last.to) else LatestReceiver(log[..|log| - 1], t)
  }

  /** Ownership as the receipts tell it, starting from the footprints `f`. */
  function OwnersByLog(f: Footprints, log: seq<Receipt>, t: SessionId): set<AuthorityId> {
    match LatestReceiver(log, t)
    case None => Owners(f, t)
    case Some(a) => {a}
  }

  /** Every receipt was given by the owner of the moment, or repeats its receiver. */
  predicate Linked(f: Footprints, log: seq<Receipt>) {
    forall i :: 0 <= i < |log| ==>
      var q := log[i].request;
      q.from in OwnersByLog(f, log[..i], q.session) || q.to in OwnersByLog(f, log[..i], q.session)
  }

  lemma LinkedSnoc(f: Footprints, log: seq<Receipt>, receipt: Receipt)
    requires Linked(f, log)
    requires var q := receipt.request;
      q.from in OwnersByLog(f, log, q.session) || q.to in OwnersByLog(f, log, q.session)
    ensures Linked(f, log + [receipt])
  {
    var longer := log + [receipt];
    forall i | 0 <= i < |longer|
      ensures var q := longer[i].request;
        q.from in OwnersByLog(f, longer[..i], q.session) || q.to in OwnersByLog(f, longer[..i], q.session)
    {
      assert longer[..i] == log[..i];
      if i == |log| {
        assert log[..i] == log;
      } else {
        assert longer[i] == log[i];
      }
    }
  }

  /** Over every history of delegations from a coherent state, refused ones
      included: coherence holds throughout, the latest receipt names the unique
      owner, sessions without a receipt keep theirs, the owned sessions are the
      same, and the receipts form chains of custody. */
  lemma {:induction false} CustodyOverRuns(f: Footprints, bundles: set<string>, qs: seq<Request>)
    requires Coherent(f)
    ensures var c := Run(Ledger(bundles, f, []), qs);
      && Coherent(c.footprints)
      && (forall t :: Owners(c.footprints, t) == OwnersByLog(f, c.log, t))
      && (forall t :: Owners(c.footprints, t) == {} <==> Owners(f, t) == {})
      && Linked(f, c.log)
    decreases qs
  {
    if qs != [] {
      CustodyOverRuns(f, bundles, qs[..|qs| - 1]);
      var b, q := Run(Ledger(bundles, f, []), qs[..|qs| - 1]), qs[|qs| - 1];
      var c := After(b, q);
      DelegateStep(b, q);
      if Outcome(b, q).Ok? {
        var receipt := Outcome(b, q).value;
        DelegateSucceedsIff(b, q);
        LinkedSnoc(f, b.log, receipt);
        forall t ensures Owners(c.footprints, t) == OwnersByLog(f, c.log, t) {
          assert c.log[..|c.log| - 1] == b.log;
          assert t != q.session ==> RolesOf(c.footprints, t) == RolesOf(b.footprints, t);
        }
      } else {
        assert c == b;
      }
    }
  }

  /** A footprint keeps its schema stamp or its lack of one. */
  lemma MovedStamps(f: Footprints, s: SessionId, from: AuthorityId, to: AuthorityId, a: AuthorityId)
    requires from in f
    ensures a in Moved(f, s, from, to) <==> a in f || a == to
    ensures a in f ==> Moved(f, s, from, to)[a].schema == f[a].schema
    ensures a !in f && a == to ==> Moved(f, s, from, to)[a].schema == ""
  {
  }

  predicate ReceiverIn(log: seq<Receipt>, a: AuthorityId) { exists receipt <- log :: receipt.request.to == a }

  predicate Stamped(f: Footprints, a: AuthorityId) { a in f && f[a].schema == RECONFIGURATION_SCHEMA_V1 }

  /** Over every run of requests: the authorities are the initial ones and the
      receivers in the log; the initial ones keep their schema version and the others
      have none. So a footprint is stamped exactly when it was at the start. */
  lemma {:induction false} StampsOverRuns(f: Footprints, bundles: set<string>, qs: seq<Request>, a: AuthorityId)
    ensures var c := Run(Ledger(bundles, f, []), qs);
      && (a in c.footprints <==> a in f || ReceiverIn(c.log, a))
      && (a in c.footprints ==> c.footprints[a].schema == if a in f then f[a].schema else "")
      && (Stamped(c.footprints, a) <==> Stamped(f, a))
    decreases qs
  {
    if qs != [] {
      StampsOverRuns(f, bundles, qs[..|qs| - 1], a);
      var b, q := Run(Ledger(bundles, f, []), qs[..|qs| - 1]), qs[|qs| - 1];
      if Outcome(b, q).Ok? {
        assert q.from in b.footprints;
        MovedStamps(b.footprints, q.session, q.from, q.to, a);
        var receipt := Outcome(b, q).value;
        assert After(b, q).log == b.log + [receipt];
        assert forall x :: x in After(b, q).log <==> x in b.log || x == receipt;
      }
    }
  }

  /** The latest request for a session among the receipts. */
  function LatestRequest(log: seq<Receipt>, t: SessionId): Option<Request> {
    if log == [] then None
    else
      var last := log[|log| - 1].request;
      if last.session == t then Some(last) else LatestRequest(log[..|log| - 1], t)
  }

  function RolesByLog(f: Footprints, log: seq<Receipt>, t: SessionId): Roles {
    match LatestRequest(log, t)
    case None => RolesOf(f, t)
    case Some(q) => Roles({}, {q.to}, {q.from} - {q.to})
  }

  lemma DelegatedRoles(c: Ledger, q: Request)
    requires Coherent(c.footprints) && Outcome(c, q).Ok?
    ensures RolesOf(After(c, q).footprints, q.session) == Roles({}, {q.to}, {q.from} - {q.to})
  {
    var f, s := c.footprints, q.session;
    assert CoherentAt(f, s);
    MovedHere(f, s, q.from, q.to);
    HoldsWhatItContains(f, q.from, s);
    assert MovedRoles(RolesOf(f, s), q.from, q.to).Coherent() by { MovedCoherentHere(f, s, q.from, q.to); }
    MovedRolesIff(RolesOf(f, s), q.from, q.to);
  }

  lemma HoldsWhatItContains(f: Footprints, a: AuthorityId, s: SessionId)
    ensures FootprintOf(f, a).Contains(s) <==> RolesOf(f, s).Holds(a)
  {
  }

  /** Over every run of requests from a coherent map, everybody's part in every session
      is told by its latest receipt: one receiver, and the giver unless the same. A
      session without a receipt is held as at the start. */
  lemma {:induction false} RolesOverRuns(f: Footprints, bundles: set<string>, qs: seq<Request>, t: SessionId)
    requires Coherent(f)
    ensures var c := Run(Ledger(bundles, f, []), qs);
      Coherent(c.footprints) && RolesOf(c.footprints, t) == RolesByLog(f, c.log, t)
    decreases qs
  {
    if qs != [] {
      var b, q := Run(Ledger(bundles, f, []), qs[..|qs| - 1]), qs[|qs| - 1];
      RolesOverRuns(f, bundles, qs[..|qs| - 1], t);
      DelegateStep(b, q);
      if Outcome(b, q).Ok? {
        DelegatedRoles(b, q);
        var log := After(b, q).log;
        assert log[..|log| - 1] == b.log;
        assert t != q.session ==> RolesOf(After(b, q).footprints, t) == RolesOf(b.footprints, t);
      }
    }
  }

  /** Authority 1 has delegated session 7 to 2 and owns it no longer. Naming 2 again, its
      request is accepted and logged. */
  lemma FormerDelegatorAccepted()
    ensures var f := map[1 := Footprint("", {}, {}, {7}), 2 := Footprint("", {}, {7}, {})];
      Coherent(f) && Owners(f, 7) == {2} && Outcome(Ledger({}, f, []), Request(7, 1, 2, None, 0)).Ok?
  {
    var f := map[1 := Footprint("", {}, {}, {7}), 2 := Footprint("", {}, {7}, {})];
    forall s ensures CoherentAt(f, s) {
      assert Natives(f, s) == {};
      assert Receivers(f, s) == if s == 7 then {2} else {};
      assert Delegators(f, s) == if s == 7 then {1} else {};
    }
    assert Owners(f, 7) == {2};
    DelegateSucceedsIff(Ledger({}, f, []), Request(7, 1, 2, None, 0));
  }

  // ------------------------------------------------------- receipts and refusals

  /** Which refusal a request meets from a coherent map, each ruling out those before. */
  lemma DelegateRefusals(c: Ledger, q: Request)
    requires Coherent(c.footprints)
    ensures Outcome(c, q) == Err(BundleNotFound) <==> q.bundle.Some? && q.bundle.value !in c.bundles
    ensures Outcome(c, q) == Err(SessionNotOwned) <==>
            (q.bundle.None? || q.bundle.value in c.bundles) && !RolesOf(c.footprints, q.session).Holds(q.from)
    ensures Outcome(c, q) == Err(CoherenceViolation) <==>
            && (q.bundle.None? || q.bundle.value in c.bundles)
            && RolesOf(c.footprints, q.session).Holds(q.from)
            && q.from !in Owners(c.footprints, q.session) && q.to !in Owners(c.footprints, q.session)
  {
    HoldsWhatItContains(c.footprints, q.from, q.session);
    DelegateSucceedsIff(c, q);
  }

  /** What a receipt says about the footprints on either side of its step: what both
      ends had, what they have, and that the session alone has changed hands. */
  ghost predicate Tells(receipt: Receipt, before: Footprints, after: Footprints) {
    var q := receipt.request;
    && q.from in before && q.from in after && q.to in after
    && receipt.fromBefore == before[q.from] && before[q.from].Contains(q.session)
    && receipt.toBefore == (if q.to in before then before[q.to] else NEW_FOOTPRINT)
    && receipt.fromAfter == after[q.from]
    && receipt.toAfter == after[q.to]
    && q.session in receipt.toAfter.delegatedIn
    && q.session !in receipt.toAfter.native && q.session !in receipt.toAfter.delegatedOut
    && (q.from != q.to ==>
          && q.session in receipt.fromAfter.delegatedOut
          && q.session !in receipt.fromAfter.native && q.session !in receipt.fromAfter.delegatedIn)
    && (forall t :: t != q.session ==>
          SameClass(receipt.fromBefore, receipt.fromAfter, t) && SameClass(receipt.toBefore, receipt.toAfter, t))
  }

  predicate SameClass(f: Footprint, g: Footprint, t: SessionId) {
    && (t in f.native <==> t in g.native)
    && (t in f.delegatedIn <==> t in g.delegatedIn)
    && (t in f.delegatedOut <==> t in g.delegatedOut)
  }

  lemma ReceiptTells(c: Ledger, q: Request)
    requires Outcome(c, q).Ok?
    ensures Outcome(c, q).value.request == q
    ensures Tells(Outcome(c, q).value, c.footprints, After(c, q).footprints)
  {
    assert q.from in c.footprints;
  }

  /** The `i`-th receipt was given for the `k`-th request, and tells its step. */
  ghost predicate GivenFor(c: Ledger, qs: seq<Request>, i: nat, k: nat) {
    && i < |Run(c, qs).log| && k < |qs|
    && var receipt, before, after := Run(c, qs).log[i], Run(c, qs[..k]), Run(c, qs[..k + 1]);
       && receipt.request == qs[k] && |before.log| == i && after.log == before.log + [receipt]
       && Tells(receipt, before.footprints, after.footprints)
  }

  /** Over every run: each receipt in the log tells both ends' footprints around the
      step of its own request. */
  lemma {:induction false} ReceiptsOverRuns(c: Ledger, qs: seq<Request>, i: nat)
    requires c.log == [] && i < |Run(c, qs).log|
    ensures exists k: nat :: GivenFor(c, qs, i, k)
    decreases qs
  {
    var past, q := qs[..|qs| - 1], qs[|qs| - 1];
    var b := Run(c, past);
    if i < |b.log| {
      ReceiptsOverRuns(c, past, i);
      var k: nat :| GivenFor(c, past, i, k);
      assert qs[..k] == past[..k] && qs[..k + 1] == past[..k + 1];
      assert GivenFor(c, qs, i, k);
    } else {
      ReceiptTells(b, q);
      assert qs[..|qs|] == qs;
      assert GivenFor(c, qs, i, |qs| - 1);
    }
  }
}
