/** Session footprints and the global coherence check of the reconfiguration
    controller. */
module Coherence {
  import opened Common

  type SessionId = nat
  type AuthorityId = nat

  const RECONFIGURATION_SCHEMA_V1 := "aura.reconfiguration.v1"

  datatype FootprintClass = Native | DelegatedIn | DelegatedOut

  /** The `add_*` operations move a session: they take it out of the other two
      classes. */
  datatype Footprint = Footprint(schema: string, native: set<SessionId>, delegatedIn: set<SessionId>,
      delegatedOut: set<SessionId>) {
    function Remove(s: SessionId): Footprint {
      Footprint(schema, native - {s}, delegatedIn - {s}, delegatedOut - {s})
    }
    function AddNative(s: SessionId): Footprint { Remove(s).(native := native + {s}) }
    function AddDelegatedIn(s: SessionId): Footprint { Remove(s).(delegatedIn := delegatedIn + {s}) }
    function AddDelegatedOut(s: SessionId): Footprint { Remove(s).(delegatedOut := delegatedOut + {s}) }
    predicate Contains(s: SessionId) { s in native || s in delegatedIn || s in delegatedOut }
    function Add(s: SessionId, kind: FootprintClass): Footprint {
      match kind
      case Native => AddNative(s)
      case DelegatedIn => AddDelegatedIn(s)
      case DelegatedOut => AddDelegatedOut(s)
    }
  }

  /** Adding puts the session into the named class and takes it out of the others;
      removing takes it out of all three; neither touches another session or the schema. */
  lemma ClassesExclude(f: Footprint, s: SessionId, kind: FootprintClass, t: SessionId)
    ensures var g := f.Add(s, kind);
      && g.schema == f.schema
      && (s in g.native <==> kind == Native)
      && (s in g.delegatedIn <==> kind == DelegatedIn)
      && (s in g.delegatedOut <==> kind == DelegatedOut)
      && (t != s ==> (t in g.native <==> t in f.native) && (t in g.delegatedIn <==> t in f.delegatedIn)
                     && (t in g.delegatedOut <==> t in f.delegatedOut))
    ensures var g := f.Remove(s);
      && g.schema == f.schema && !g.Contains(s)
      && (t != s ==> (t in g.native <==> t in f.native) && (t in g.delegatedIn <==> t in f.delegatedIn)
                     && (t in g.delegatedOut <==> t in f.delegatedOut))
  {
  }

  /** `SessionFootprint::new` stamps the schema, the derived `Default` does not. */
  const NEW_FOOTPRINT := Footprint(RECONFIGURATION_SCHEMA_V1, {}, {}, {})
  const DEFAULT_FOOTPRINT := Footprint("", {}, {}, {})

  type Footprints = map<AuthorityId, Footprint>

  function Natives(f: Footprints, s: SessionId): set<AuthorityId> { set a | a in f && s in f[a].native }
  function Receivers(f: Footprints, s: SessionId): set<AuthorityId> { set a | a in f && s in f[a].delegatedIn }
  function Delegators(f: Footprints, s: SessionId): set<AuthorityId> { set a | a in f && s in f[a].delegatedOut }

  /** Native and delegated-in occurrences; one authority holding both counts twice. */
  function OwnerCount(f: Footprints, s: SessionId): nat { |Natives(f, s)| + |Receivers(f, s)| }

  /** Who holds one session, and how. */
  datatype Roles = Roles(natives: set<AuthorityId>, receivers: set<AuthorityId>, delegators: set<AuthorityId>) {
    function Owners(): set<AuthorityId> { natives + receivers }
    predicate Holds(a: AuthorityId) { a in natives || a in receivers || a in delegators }
    predicate Coherent() {
      && |natives| + |receivers| <= 1
      && (delegators != {} ==> |delegators| == 1 && |receivers| == 1)
    }
  }

  function RolesOf(f: Footprints, s: SessionId): Roles { Roles(Natives(f, s), Receivers(f, s), Delegators(f, s)) }

  predicate CoherentAt(f: Footprints, s: SessionId) { RolesOf(f, s).Coherent() }

  /** The declarative condition: at most one active occurrence of any session,
      and one delegator and one receiver for every delegated-out session. */
  ghost predicate Coherent(f: Footprints) {
    forall s :: CoherentAt(f, s)
  }

  datatype Violation =
    | MultipleActiveOwners(session: SessionId, owners: nat)
    | DelegatedOutBy(session: SessionId, authorities: nat)
    | DelegatedInTo(session: SessionId, authorities: nat)
    | NoReceiver(session: SessionId)

  predicate Violates(f: Footprints, v: Violation) {
    match v
    case MultipleActiveOwners(s, n) => n == OwnerCount(f, s) && n > 1
    case NoReceiver(s) => Delegators(f, s) != {} && Receivers(f, s) == {}
    case DelegatedInTo(s, n) => Delegators(f, s) != {} && n == |Receivers(f, s)| && n > 1
    case DelegatedOutBy(s, n) => |Receivers(f, s)| == 1 && n == |Delegators(f, s)| && n > 1
  }

  lemma CoherentMeansNoViolation(f: Footprints)
    ensures Coherent(f) <==> forall v :: !Violates(f, v)
  {
    if Coherent(f) {
      forall v ensures !Violates(f, v) {
        assert CoherentAt(f, v.session);
      }
    }
    if forall v :: !Violates(f, v) {
      forall s ensures CoherentAt(f, s) {
        assert !Violates(f, MultipleActiveOwners(s, OwnerCount(f, s)));
        assert !Violates(f, NoReceiver(s));
        assert !Violates(f, DelegatedInTo(s, |Receivers(f, s)|));
        assert !Violates(f, DelegatedOutBy(s, |Delegators(f, s)|));
        if Delegators(f, s) != {} && |Delegators(f, s)| < 1 {
          assert false;
        }
      }
    }
  }

  // ------------------------------------------------------- the checker's maps

  type OwnerLists = map<SessionId, seq<AuthorityId>>
  type OwnerSets = map<SessionId, set<AuthorityId>>

  function ListAt(m: OwnerLists, s: SessionId): seq<AuthorityId> { if s in m then m[s] else [] }
  function SetAt(m: OwnerSets, s: SessionId): set<AuthorityId> { if s in m then m[s] else {} }

  /** `entry(s).or_default().push(a)` for every session of a set, in any order. */
  method PushAll(m: OwnerLists, sessions: set<SessionId>, a: AuthorityId) returns (out: OwnerLists)
    ensures forall s :: ListAt(out, s) == ListAt(m, s) + if s in sessions then [a] else []
  {
    out := m;
    var todo := sessions;
    while todo != {}
      invariant todo <= sessions
      invariant forall s :: ListAt(out, s) == ListAt(m, s) + if s in sessions - todo then [a] else []
    {
      var s :| s in todo;
      out := out[s := ListAt(out, s) + [a]];
      todo := todo - {s};
    }
  }

  /** `entry(s).or_default().insert(a)` for every session of a set, in any order. */
  method InsertAll(m: OwnerSets, sessions: set<SessionId>, a: AuthorityId) returns (out: OwnerSets)
    ensures out.Keys == m.Keys + sessions
    ensures forall s :: SetAt(out, s) == SetAt(m, s) + if s in sessions then {a} else {}
  {
    out := m;
    var todo := sessions;
    while todo != {}
      invariant todo <= sessions
      invariant out.Keys == m.Keys + (sessions - todo)
      invariant forall s :: SetAt(out, s) == SetAt(m, s) + if s in sessions - todo then {a} else {}
    {
      var s :| s in todo;
      out := out[s := SetAt(out, s) + {a}];
      todo := todo - {s};
    }
  }

  function Only(f: Footprints, authorities: set<AuthorityId>): Footprints {
    map a | a in f && a in authorities :: f[a]
  }

  lemma NativesGrow(f: Footprints, done: set<AuthorityId>, a: AuthorityId, s: SessionId)
    requires a in f && a !in done
    ensures Natives(Only(f, done + {a}), s) == Natives(Only(f, done), s) + (if s in f[a].native then {a} else {})
    ensures a !in Natives(Only(f, done), s)
  {
  }

  lemma ReceiversGrow(f: Footprints, done: set<AuthorityId>, a: AuthorityId, s: SessionId)
    requires a in f && a !in done
    ensures Receivers(Only(f, done + {a}), s) ==
      Receivers(Only(f, done), s) + (if s in f[a].delegatedIn then {a} else {})
    ensures a !in Receivers(Only(f, done), s)
  {
  }

  lemma DelegatorsGrow(f: Footprints, done: set<AuthorityId>, a: AuthorityId, s: SessionId)
    requires a in f && a !in done
    ensures Delegators(Only(f, done + {a}), s) ==
      Delegators(Only(f, done), s) + (if s in f[a].delegatedOut then {a} else {})
  {
  }

  lemma OnlyGrows(f: Footprints, done: set<AuthorityId>, a: AuthorityId, s: SessionId)
    requires a in f && a !in done
    ensures var g, h := Only(f, done), Only(f, done + {a});
      && Natives(h, s) == Natives(g, s) + (if s in f[a].native then {a} else {})
      && Receivers(h, s) == Receivers(g, s) + (if s in f[a].delegatedIn then {a} else {})
      && Delegators(h, s) == Delegators(g, s) + (if s in f[a].delegatedOut then {a} else {})
      && OwnerCount(h, s) ==
        OwnerCount(g, s) + (if s in f[a].native then 1 else 0) + (if s in f[a].delegatedIn then 1 else 0)
  {
    NativesGrow(f, done, a, s);
    ReceiversGrow(f, done, a, s);
    DelegatorsGrow(f, done, a, s);
  }

  predicate Collected(f: Footprints, active: OwnerLists, out: OwnerSets, inn: OwnerSets, s: SessionId) {
    && |ListAt(active, s)| == OwnerCount(f, s)
    && SetAt(out, s) == Delegators(f, s)
    && SetAt(inn, s) == Receivers(f, s)
    && (s in out <==> Delegators(f, s) != {})
    && (s in inn <==> Receivers(f, s) != {})
  }

  /** Filing one authority's sessions carries the maps over to one more authority. */
  lemma CollectedStep(f: Footprints, done: set<AuthorityId>, a: AuthorityId, s: SessionId,
                      active: OwnerLists, out: OwnerSets, inn: OwnerSets,
                      active': OwnerLists, out': OwnerSets, inn': OwnerSets)
    requires a in f && a !in done
    requires Collected(Only(f, done), active, out, inn, s)
    requires |ListAt(active', s)| ==
      |ListAt(active, s)| + (if s in f[a].native then 1 else 0) + (if s in f[a].delegatedIn then 1 else 0)
    requires SetAt(out', s) == SetAt(out, s) + (if s in f[a].delegatedOut then {a} else {})
    requires SetAt(inn', s) == SetAt(inn, s) + (if s in f[a].delegatedIn then {a} else {})
    requires s in out' <==> s in out || s in f[a].delegatedOut
    requires s in inn' <==> s in inn || s in f[a].delegatedIn
    ensures Collected(Only(f, done + {a}), active', out', inn', s)
  {
    OnlyGrows(f, done, a, s);
  }

  /** The body of the checker's first loop: one authority's sessions are filed. */
  method FileSessions(f: Footprints, ghost done: set<AuthorityId>, a: AuthorityId, active: OwnerLists, out: OwnerSets,
      inn: OwnerSets)
    returns (active': OwnerLists, out': OwnerSets, inn': OwnerSets)
    requires a in f && a !in done && forall s :: Collected(Only(f, done), active, out, inn, s)
    ensures forall s :: Collected(Only(f, done + {a}), active', out', inn', s)
  {
    var first := PushAll(active, f[a].native, a);
    active' := PushAll(first, f[a].delegatedIn, a);
    out' := InsertAll(out, f[a].delegatedOut, a);
    inn' := InsertAll(inn, f[a].delegatedIn, a);
    forall s ensures Collected(Only(f, done + {a}), active', out', inn', s) {
      assert Collected(Only(f, done), active, out, inn, s);
      CollectedStep(f, done, a, s, active, out, inn, active', out', inn');
    }
  }

  /** The first loop of the checker: fills the three maps, authorities taken in
      any order. */
  method CollectOwners(f: Footprints) returns (active: OwnerLists, out: OwnerSets, inn: OwnerSets)
    ensures forall s :: Collected(f, active, out, inn, s)
  {
    active, out, inn := map[], map[], map[];
    var todo := f.Keys;
    ghost var done: set<AuthorityId> := {};
    while todo != {}
      invariant todo <= f.Keys && done == f.Keys - todo
      invariant forall s :: Collected(Only(f, done), active, out, inn, s)
    {
      var a :| a in todo;
      active, out, inn := FileSessions(f, done, a, active, out, inn);
      todo := todo - {a};
      done := done + {a};
    }
    assert Only(f, done) == f;
  }

  function OutViolation(s: SessionId, from: set<AuthorityId>, inn: OwnerSets): Option<Violation> {
    if s !in inn then Some(NoReceiver(s))
    else if |inn[s]| != 1 then Some(DelegatedInTo(s, |inn[s]|))
    else if |from| != 1 then Some(DelegatedOutBy(s, |from|))
    else None
  }

  lemma OutViolationExact(f: Footprints, active: OwnerLists, out: OwnerSets, inn: OwnerSets, s: SessionId, v: Violation)
    requires Collected(f, active, out, inn, s) && s in out
    ensures OutViolation(s, out[s], inn) == Some(v) <==> v.session == s && !v.MultipleActiveOwners? && Violates(f, v)
  {
    assert |Delegators(f, s)| != 0;
    assert s in inn ==> |Receivers(f, s)| != 0;
  }

  /** Reports exactly the violations there are, whatever the order in which the
      maps are iterated; so it reports none exactly on coherent footprints. */
  method VerifyCoherenceMap(f: Footprints) returns (violations: seq<Violation>)
    ensures forall v :: v in violations <==> Violates(f, v)
    ensures NoDup(violations)
    ensures violations == [] <==> Coherent(f)
  {
    var active, out, inn := CollectOwners(f);
    violations := [];
    var todo := active.Keys;
    forall v: Violation | v.MultipleActiveOwners? && v.session !in todo ensures !Violates(f, v) {
      assert Collected(f, active, out, inn, v.session);
    }
    while todo != {}
      invariant todo <= active.Keys
      invariant forall v :: v in violations <==> v.MultipleActiveOwners? && v.session !in todo && Violates(f, v)
      invariant NoDup(violations)
      decreases todo
    {
      var s :| s in todo;
      assert Collected(f, active, out, inn, s);
      if |active[s]| > 1 {
        violations := violations + [MultipleActiveOwners(s, |active[s]|)];
      }
      todo := todo - {s};
    }
    ghost var multiple := violations;
    var outs := out.Keys;
    while outs != {}
      invariant outs <= out.Keys
      invariant forall v :: v in violations <==>
        v in multiple || (!v.MultipleActiveOwners? && v.session in out.Keys - outs && Violates(f, v))
      invariant NoDup(violations)
      decreases outs
    {
      var s :| s in outs;
      var found := OutViolation(s, out[s], inn);
      forall v ensures found == Some(v) <==> v.session == s && !v.MultipleActiveOwners? && Violates(f, v) {
        OutViolationExact(f, active, out, inn, s, v);
      }
      if found.Some? {
        violations := violations + [found.value];
      }
      outs := outs - {s};
    }
    forall v ensures v in violations <==> Violates(f, v) {
      assert Collected(f, active, out, inn, v.session);
      if v.DelegatedOutBy? && Violates(f, v) {
        assert Delegators(f, v.session) != {};
      }
    }
    CoherentMeansNoViolation(f);
    assert violations == [] <==> forall v :: v !in violations by {
      if violations != [] {
        assert violations[0] in violations;
      }
    }
  }
}
