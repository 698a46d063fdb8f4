/** Two devices and one session: when both executions succeed, on what their results
    agree, and that an honest session succeeds at every device. */
module DkdAgreement {
  import opened Common
  import opened Ordering
  import opened Dkd
  import opened DkdAdmission
  import opened DkdDerivation
  import opened Quorum

  // ------------------------------------------------- what an execution returns

  /** A result over the openings, field by field. */
  predicate Yields(s: Setup, mode: AgreementMode, ctx: Context, id: string, openings: seq<Contribution>, r: DkdResult) {
    && s.kdf.derive(CombinedInput(ctx, openings), id, ctx.app, ctx.purpose) == Some(r.key)
    && s.kdf.prove(id, r.key, CommitmentsIn(openings)) == Some(r.proof)
    && r.combinedCommitment == s.combine(CommitmentsIn(openings))
    && r.session == id && r.epoch == ctx.epoch && r.participantCount == AsU16(|openings|)
    && r.mode == (if s.finalizationAllowed then CoordinatorSoftSafe else mode)
    && (r.reversionRisk <==> r.mode != ConsensusFinalized)
  }

  predicate HasKey(signers: Signers, d: DeviceId) { d in signers && signers[d].privateKey.Some? }

  lemma ResultYields(s: Setup, mode: AgreementMode, ctx: Context, id: string, openings: seq<Contribution>, r: DkdResult)
    ensures ResultOf(s, mode, ctx, id, openings) == Some(r) <==> Yields(s, mode, ctx, id, openings, r)
  {
  }

  lemma ExecutionOver(s: Setup, mode: AgreementMode, signers: Signers, sessions: map<string, Context>, id: string,
      l: Local, inbox: seq<Message>, g: Gathered, r: DkdResult)
    requires HasKey(signers, l.device) && id in sessions
    requires Exchanged(World(s.crypto, signers, sessions[id]), s.threshold, l, inbox, g)
    ensures Execution(s, mode, signers, sessions, id, l, inbox) == Ok(r) <==>
            Yields(s, mode, sessions[id], id, g.openings, r)
  {
    ExchangedGathers(World(s.crypto, signers, sessions[id]), s.threshold, l, inbox, g);
    ResultYields(s, mode, sessions[id], id, g.openings, r);
  }

  /** Success, exactly: a device with a key of its own, an open session, exchanges that
      went as they should, and a derivation and a proof that did not fail. */
  lemma ExecutionIff(s: Setup, mode: AgreementMode, signers: Signers, sessions: map<string, Context>, id: string,
      l: Local, inbox: seq<Message>, r: DkdResult)
    ensures Execution(s, mode, signers, sessions, id, l, inbox) == Ok(r) <==>
            && HasKey(signers, l.device) && id in sessions
            && exists g :: Exchanged(World(s.crypto, signers, sessions[id]), s.threshold, l, inbox, g)
                           && Yields(s, mode, sessions[id], id, g.openings, r)
  {
    if HasKey(signers, l.device) && id in sessions {
      var w := World(s.crypto, signers, sessions[id]);
      if g :| Exchanged(w, s.threshold, l, inbox, g) && Yields(s, mode, sessions[id], id, g.openings, r) {
        ExecutionOver(s, mode, signers, sessions, id, l, inbox, g, r);
      } else if Execution(s, mode, signers, sessions, id, l, inbox) == Ok(r) {
        GatherExchanged(w, s.threshold, l, inbox);
        ExecutionOver(s, mode, signers, sessions, id, l, inbox, Gather(w, s.threshold, l, inbox).value, r);
        assert false;
      }
    }
  }

  /** Failures before the exchanges start. */
  lemma ExecutionRefusals(s: Setup, mode: AgreementMode, signers: Signers, sessions: map<string, Context>, id: string,
      l: Local, inbox: seq<Message>)
    ensures l.device !in signers ==>
      Execution(s, mode, signers, sessions, id, l, inbox) == Err(Protocol(UnknownSigner))
    ensures l.device in signers && signers[l.device].privateKey.None? ==>
      Execution(s, mode, signers, sessions, id, l, inbox) == Err(Protocol(NoSigningKey))
    ensures Execution(s, mode, signers, sessions, id, l, inbox) == Err(SessionNotFound) <==>
            HasKey(signers, l.device) && id !in sessions
  {
  }

  /** The derivation fails, or the proof of what it derived. */
  predicate Underivable(s: Setup, ctx: Context, id: string, openings: seq<Contribution>) {
    var key := s.kdf.derive(CombinedInput(ctx, openings), id, ctx.app, ctx.purpose);
    key.None? || s.kdf.prove(id, key.value, CommitmentsIn(openings)).None?
  }

  /** And after they are over. */
  lemma DerivationFails(s: Setup, mode: AgreementMode, signers: Signers, sessions: map<string, Context>, id: string,
      l: Local, inbox: seq<Message>)
    requires HasKey(signers, l.device) && id in sessions
    ensures Execution(s, mode, signers, sessions, id, l, inbox) == Err(CryptographicFailure) <==>
            exists g :: Exchanged(World(s.crypto, signers, sessions[id]), s.threshold, l, inbox, g)
                        && Underivable(s, sessions[id], id, g.openings)
  {
    var w := World(s.crypto, signers, sessions[id]);
    if g :| Exchanged(w, s.threshold, l, inbox, g) && Underivable(s, sessions[id], id, g.openings) {
      GatherIff(w, s.threshold, l, inbox, g);
    }
    if Execution(s, mode, signers, sessions, id, l, inbox) == Err(CryptographicFailure) {
      var g := Gather(w, s.threshold, l, inbox).value;
      GatherIff(w, s.threshold, l, inbox, g);
      assert Underivable(s, sessions[id], id, g.openings);
    }
  }

  // ------------------------------------------------- on what two results agree

  ghost predicate Distinguishes(kdf: Kdf) {
    && (forall x, y, id, a, p ::
          kdf.derive(x, id, a, p).Some? && kdf.derive(x, id, a, p) == kdf.derive(y, id, a, p) ==> x == y)
    && (forall id, k, k', cs, cs' ::
          kdf.prove(id, k, cs).Some? && kdf.prove(id, k, cs) == kdf.prove(id, k', cs') ==> k == k' && cs == cs')
  }

  /** No two different inputs to any of the cryptographic functions look alike. */
  ghost predicate Ideal(s: Setup) {
    && CollisionFree(s.crypto) && Distinguishes(s.kdf)
    && forall cs, cs' :: s.combine(cs) == s.combine(cs') ==> cs == cs'
  }

  /** The randomness revealed, in the order of arrival, the device's own first. */
  function Revealed(cs: seq<Contribution>): seq<Randomness> {
    seq(|cs|, i requires 0 <= i < |cs| => cs[i].randomness)
  }

  lemma CommitmentsByRandomness(crypto: Crypto, a: seq<Contribution>, b: seq<Contribution>)
    requires CollisionFree(crypto)
    requires forall c <- a + b :: c.commitment == crypto.hash(c.randomness)
    ensures CommitmentsIn(a) == CommitmentsIn(b) <==> Revealed(a) == Revealed(b)
  {
    forall i | 0 <= i < |a| ensures a[i].commitment == crypto.hash(a[i].randomness) {
      assert a[i] in a + b;
    }
    forall i | 0 <= i < |b| ensures b[i].commitment == crypto.hash(b[i].randomness) {
      assert b[i] in a + b;
    }
    if CommitmentsIn(a) == CommitmentsIn(b) {
      assert |CommitmentsIn(a)| == |CommitmentsIn(b)|;
      forall i | 0 <= i < |a| ensures Revealed(a)[i] == Revealed(b)[i] {
        assert CommitmentsIn(a)[i] == CommitmentsIn(b)[i];
      }
    }
    if Revealed(a) == Revealed(b) {
      assert |Revealed(a)| == |Revealed(b)|;
      forall i | 0 <= i < |a| ensures CommitmentsIn(a)[i] == CommitmentsIn(b)[i] {
        assert Revealed(a)[i] == Revealed(b)[i];
      }
    }
  }

  /** A device taking part in a session, and what it hears. */
  datatype Party = Party(mode: AgreementMode, signers: Signers, sessions: map<string, Context>, local: Local,
      inbox: seq<Message>)

  function Gathers(s: Setup, ctx: Context, p: Party): Result<Gathered, DkdError> {
    Gather(World(s.crypto, p.signers, ctx), s.threshold, p.local, p.inbox)
  }

  function Outcome(s: Setup, id: string, p: Party): Result<DkdResult, SessionError> {
    Execution(s, p.mode, p.signers, p.sessions, id, p.local, p.inbox)
  }

  lemma OpeningsHash(w: World, threshold: nat, l: Local, inbox: seq<Message>)
    requires Gather(w, threshold, l, inbox).Ok?
    ensures var os := Gather(w, threshold, l, inbox).value.openings;
      && |os| == |w.context.participants| > 0 && os[0].randomness == l.randomness
      && forall c <- os :: c.commitment == w.crypto.hash(c.randomness)
  {
    GatherExchanged(w, threshold, l, inbox);
  }

  lemma OutcomeYields(s: Setup, ctx: Context, id: string, p: Party)
    requires Outcome(s, id, p).Ok? && Lookup(p.sessions, id) == Some(ctx)
    ensures Gathers(s, ctx, p).Ok?
    ensures Yields(s, p.mode, ctx, id, Gathers(s, ctx, p).value.openings, Outcome(s, id, p).value)
  {
    ResultYields(s, p.mode, ctx, id, Gathers(s, ctx, p).value.openings, Outcome(s, id, p).value);
  }

  /** Two successful executions in one session agree on session, epoch and count. They
      agree on the key exactly when they heard the same commitments, but on the combined
      commitment only when they also opened them in the same order, and on the proof
      exactly when they agree on both. As each device puts itself first, two that drew
      different randomness never agree on commitment or proof. */
  lemma ResultsAgree(s: Setup, ctx: Context, id: string, p: Party, q: Party)
    requires Ideal(s) && Outcome(s, id, p).Ok? && Outcome(s, id, q).Ok?
    requires Lookup(p.sessions, id) == Lookup(q.sessions, id) == Some(ctx)
    ensures Gathers(s, ctx, p).Ok? && Gathers(s, ctx, q).Ok?
    ensures var g, h := Gathers(s, ctx, p).value, Gathers(s, ctx, q).value;
      var r, t := Outcome(s, id, p).value, Outcome(s, id, q).value;
      && r.session == t.session == id && r.epoch == t.epoch == ctx.epoch && r.participantCount == t.participantCount
      && (r.key == t.key <==> PriorOf(g.commitments) == PriorOf(h.commitments))
      && (r.combinedCommitment == t.combinedCommitment <==> Revealed(g.openings) == Revealed(h.openings))
      && (r.proof == t.proof <==> r.key == t.key && r.combinedCommitment == t.combinedCommitment)
      && (p.local.randomness != q.local.randomness ==>
          r.combinedCommitment != t.combinedCommitment && r.proof != t.proof)
  {
    OutcomeYields(s, ctx, id, p);
    OutcomeYields(s, ctx, id, q);
    OpeningsHash(World(s.crypto, p.signers, ctx), s.threshold, p.local, p.inbox);
    OpeningsHash(World(s.crypto, q.signers, ctx), s.threshold, q.local, q.inbox);
    var g, h := Gathers(s, ctx, p).value, Gathers(s, ctx, q).value;
    SameCommitmentsSameInput(World(s.crypto, p.signers, ctx), World(s.crypto, q.signers, ctx), s.threshold, p.local,
      q.local, p.inbox, q.inbox);
    CommitmentsByRandomness(s.crypto, g.openings, h.openings);
    assert Revealed(g.openings)[0] == p.local.randomness && Revealed(h.openings)[0] == q.local.randomness;
  }

  // ------------------------------------------------------- an honest session

  datatype Keys = Keys(id: string, public: Bytes, private: Bytes)

  /** A session whose participants all follow the protocol: their keys, and what each
      draws and reads from its clock. */
  datatype Ceremony = Ceremony(crypto: Crypto, book: map<DeviceId, Keys>, context: Context,
      locals: map<DeviceId, Local>)

  /** Each device enrols everybody's public key and has its own private key only. */
  function SignersFor(y: Ceremony, d: DeviceId): Signers {
    map x | x in y.book :: Signer(y.book[x].id, y.book[x].public, if x == d then Some(y.book[x].private) else None)
  }

  function WorldOf(y: Ceremony, d: DeviceId): World { World(y.crypto, SignersFor(y, d), y.context) }

  function ClockOf(l: Local, phase: Phase): nat { if phase.Commitment? then l.commitTime else l.revealTime }

  function Said(y: Ceremony, d: DeviceId, phase: Phase): Transcript
    requires d in y.book && d in y.locals
  {
    Transcript(y.context, d, y.book[d].id, y.crypto.hash(y.locals[d].randomness), ClockOf(y.locals[d], phase), phase,
               DKD_CONTRIBUTION_PROTOCOL_VERSION)
  }

  /** What the device signs is accepted by whoever has its public key. */
  predicate Signs(y: Ceremony, d: DeviceId, phase: Phase)
    requires d in y.book && d in y.locals
  {
    var signature := y.crypto.sign(Said(y, d, phase), y.book[d].private);
    && signature.Some? && signature.value != []
    && y.crypto.verify(Said(y, d, phase), signature.value, y.book[d].public) == Some(true)
  }

  predicate Ready(y: Ceremony, d: DeviceId) {
    && d in y.book && d in y.locals && y.locals[d].device == d
    && y.locals[d].commitTime >= y.context.epoch && y.locals[d].revealTime >= y.context.epoch
    && Signs(y, d, Commitment) && Signs(y, d, Reveal)
  }

  predicate Honest(y: Ceremony) {
    NoDup(y.context.participants) && forall d <- y.context.participants :: Ready(y, d)
  }

  function Made(y: Ceremony, d: DeviceId, phase: Phase): Contribution
    requires Ready(y, d)
  {
    Contribution(d, y.book[d].id, y.locals[d].randomness, y.crypto.hash(y.locals[d].randomness), phase,
                 DKD_CONTRIBUTION_PROTOCOL_VERSION, y.crypto.sign(Said(y, d, phase), y.book[d].private).value,
                 ClockOf(y.locals[d], phase))
  }

  predicate AllReady(y: Ceremony, ds: seq<DeviceId>) { forall d <- ds :: Ready(y, d) }

  function MadeBy(y: Ceremony, ds: seq<DeviceId>, phase: Phase): (cs: seq<Contribution>)
    requires AllReady(y, ds)
    ensures Devices(cs) == ds
  {
    seq(|ds|, i requires 0 <= i < |ds| => Made(y, ds[i], phase))
  }

  function Mail(y: Ceremony, ds: seq<DeviceId>, phase: Phase): seq<Message>
    requires AllReady(y, ds)
  {
    seq(|ds|, i requires 0 <= i < |ds| => Message(ds[i], Some(Made(y, ds[i], phase))))
  }

  /** Everybody but `d`, in some order. */
  predicate Others(y: Ceremony, d: DeviceId, ds: seq<DeviceId>) {
    NoDup(ds) && Elems(ds) == Elems(y.context.participants) - {d}
  }

  lemma OthersCount(y: Ceremony, d: DeviceId, ds: seq<DeviceId>)
    requires NoDup(y.context.participants) && d in y.context.participants && Others(y, d, ds)
    ensures NoDup([d] + ds) && Elems([d] + ds) == Elems(y.context.participants)
    ensures |ds| == |y.context.participants| - 1
  {
    var all, whole := y.context.participants, [d] + ds;
    assert Elems(whole) == {d} + Elems(ds);
    assert d in Elems(all);
    forall i, j | 0 <= i < j < |whole| ensures whole[i] != whole[j] {
      assert whole[j] == ds[j - 1] && whole[j] in Elems(ds);
      assert i > 0 ==> whole[i] == ds[i - 1];
    }
    ElemsCount(whole);
    ElemsCount(all);
  }

  lemma OthersFit(y: Ceremony, d: DeviceId, ds: seq<DeviceId>)
    requires Honest(y) && d in y.context.participants && Others(y, d, ds)
    ensures AllReady(y, ds) && AllReady(y, [d] + ds) && NoDup([d] + ds)
    ensures Elems([d] + ds) == Elems(y.context.participants) && |ds| == |y.context.participants| - 1
  {
    OthersCount(y, d, ds);
    forall x | x in [d] + ds ensures Ready(y, x) {
      assert x in Elems([d] + ds);
    }
    forall x | x in ds ensures Ready(y, x) {
      assert x in [d] + ds;
    }
  }

  lemma MadeWelcome(y: Ceremony, d: DeviceId, x: DeviceId, phase: Phase, prior: Prior)
    requires Ready(y, x) && x in y.context.participants && Matches(prior, Made(y, x, phase))
    ensures Welcome(WorldOf(y, d), phase, prior, Message(x, Some(Made(y, x, phase))))
  {
  }

  lemma MailHeard(y: Ceremony, d: DeviceId, ds: seq<DeviceId>, phase: Phase, prior: Prior, more: seq<Message>)
    requires Honest(y) && d in y.context.participants && Others(y, d, ds) && AllReady(y, ds)
    requires forall x <- ds :: Matches(prior, Made(y, x, phase))
    ensures HeardFrom(WorldOf(y, d), phase, prior, Mail(y, ds, phase) + more, |ds|, MadeBy(y, ds, phase))
  {
    var inbox := Mail(y, ds, phase) + more;
    forall i | 0 <= i < |ds| ensures Welcome(WorldOf(y, d), phase, prior, inbox[i]) {
      assert ds[i] in Elems(ds) && ds[i] in y.context.participants;
      MadeWelcome(y, d, ds[i], phase, prior);
    }
  }

  lemma CommitmentsOpened(y: Ceremony, ds: seq<DeviceId>, x: DeviceId)
    requires AllReady(y, ds) && NoDup(ds) && x in ds
    ensures Matches(Some(PriorOf(MadeBy(y, ds, Commitment))), Made(y, x, Reveal))
  {
    PriorExact(MadeBy(y, ds, Commitment));
    var i :| 0 <= i < |ds| && ds[i] == x;
    assert MadeBy(y, ds, Commitment)[i] in MadeBy(y, ds, Commitment);
  }

  /** An honest session goes through at every device, in whatever order the others'
      messages of a phase arrive. */
  lemma HonestExchange(y: Ceremony, threshold: nat, d: DeviceId, xs: seq<DeviceId>, ys: seq<DeviceId>,
      more: seq<Message>)
    requires Honest(y) && d in y.context.participants && threshold <= |y.context.participants|
    requires Others(y, d, xs) && Others(y, d, ys)
    ensures AllReady(y, [d] + xs) && AllReady(y, [d] + ys) && AllReady(y, xs) && AllReady(y, ys)
    ensures Gather(WorldOf(y, d), threshold, y.locals[d], Mail(y, xs, Commitment) + (Mail(y, ys, Reveal) + more)) ==
            Ok(Gathered(MadeBy(y, [d] + xs, Commitment), MadeBy(y, [d] + ys, Reveal)))
  {
    OthersFit(y, d, xs);
    OthersFit(y, d, ys);
    var rest := Mail(y, ys, Reveal) + more;
    var inbox := Mail(y, xs, Commitment) + rest;
    var ms, os := MadeBy(y, [d] + xs, Commitment), MadeBy(y, [d] + ys, Reveal);
    assert ms[1..] == MadeBy(y, xs, Commitment) && os[1..] == MadeBy(y, ys, Reveal);
    MailHeard(y, d, xs, Commitment, None, rest);
    assert inbox[|ms| - 1..] == rest;
    forall x | x in ys ensures Matches(Some(PriorOf(ms)), Made(y, x, Reveal)) {
      assert x in Elems([d] + ys) && x in [d] + xs;
      CommitmentsOpened(y, [d] + xs, x);
    }
    MailHeard(y, d, ys, Reveal, Some(PriorOf(ms)), more);
    forall c | c in os ensures FitsSession(WorldOf(y, d), Reveal, c) {
      var i :| 0 <= i < |os| && os[i] == c;
      assert ([d] + ys)[i] in Elems([d] + ys);
    }
    ExchangedGathers(WorldOf(y, d), threshold, y.locals[d], inbox, Gathered(ms, os));
  }

  lemma RecordsOfAll(y: Ceremony, ds: seq<DeviceId>, es: seq<DeviceId>)
    requires AllReady(y, ds) && AllReady(y, es) && Elems(ds) == Elems(es)
    ensures RecordSet(MadeBy(y, ds, Reveal)) <= RecordSet(MadeBy(y, es, Reveal))
  {
    forall c | c in MadeBy(y, ds, Reveal) ensures RecordOf(c) in RecordSet(MadeBy(y, es, Reveal)) {
      var i :| 0 <= i < |ds| && MadeBy(y, ds, Reveal)[i] == c;
      assert ds[i] in Elems(es);
      var j :| 0 <= j < |es| && es[j] == ds[i];
      assert MadeBy(y, es, Reveal)[j] in MadeBy(y, es, Reveal);
    }
  }

  /** A participant of an honest session, with the orders in which it hears the others. */
  function Participant(y: Ceremony, mode: AgreementMode, id: string, d: DeviceId, xs: seq<DeviceId>,
      ys: seq<DeviceId>): Party
    requires Ready(y, d) && AllReady(y, xs) && AllReady(y, ys)
  {
    Party(mode, SignersFor(y, d), map[id := y.context], y.locals[d], Mail(y, xs, Commitment) + Mail(y, ys, Reveal))
  }

  /** The derivation and the proof never fail. */
  ghost predicate Derives(kdf: Kdf) {
    && (forall x, id, a, p :: kdf.derive(x, id, a, p).Some?)
    && (forall id, k, cs :: kdf.prove(id, k, cs).Some?)
  }

  lemma HonestOutcome(y: Ceremony, s: Setup, mode: AgreementMode, id: string, d: DeviceId, xs: seq<DeviceId>,
      ys: seq<DeviceId>)
    requires Honest(y) && d in y.context.participants && Others(y, d, xs) && Others(y, d, ys)
    requires s.crypto == y.crypto && s.threshold <= |y.context.participants| && Derives(s.kdf)
    ensures AllReady(y, xs) && AllReady(y, ys) && AllReady(y, [d] + ys)
    ensures Outcome(s, id, Participant(y, mode, id, d, xs, ys)).Ok?
    ensures Yields(s, mode, y.context, id, MadeBy(y, [d] + ys, Reveal),
                   Outcome(s, id, Participant(y, mode, id, d, xs, ys)).value)
  {
    HonestExchange(y, s.threshold, d, xs, ys, []);
    assert Mail(y, ys, Reveal) + [] == Mail(y, ys, Reveal);
    var openings := MadeBy(y, [d] + ys, Reveal);
    var result := ResultOf(s, mode, y.context, id, openings);
    assert result.Some?;
    ResultYields(s, mode, y.context, id, openings, result.value);
    var p := Participant(y, mode, id, d, xs, ys);
    assert Gathers(s, y.context, p) == Ok(Gathered(MadeBy(y, [d] + xs, Commitment), openings));
    assert Outcome(s, id, p) == Ok(result.value);
  }

  lemma HonestInput(y: Ceremony, d: DeviceId, ys: seq<DeviceId>, e: DeviceId, vs: seq<DeviceId>)
    requires Honest(y) && d in y.context.participants && e in y.context.participants
    requires Others(y, d, ys) && Others(y, e, vs) && AllReady(y, [d] + ys) && AllReady(y, [e] + vs)
    ensures CombinedInput(y.context, MadeBy(y, [d] + ys, Reveal)) ==
            CombinedInput(y.context, MadeBy(y, [e] + vs, Reveal))
  {
    OthersCount(y, d, ys);
    OthersCount(y, e, vs);
    RecordsOfAll(y, [d] + ys, [e] + vs);
    RecordsOfAll(y, [e] + vs, [d] + ys);
    KdfInputIdentifiesContributors(y.context, MadeBy(y, [d] + ys, Reveal), MadeBy(y, [e] + vs, Reveal));
  }

  /** Whenever the derivation works at all, every participant of an honest session gets
      a result, and all of them the same key. */
  lemma HonestAgreement(y: Ceremony, s: Setup, mode: AgreementMode, id: string, d: DeviceId, xs: seq<DeviceId>,
      ys: seq<DeviceId>, e: DeviceId, us: seq<DeviceId>, vs: seq<DeviceId>)
    requires Honest(y) && d in y.context.participants && e in y.context.participants
    requires Others(y, d, xs) && Others(y, d, ys) && Others(y, e, us) && Others(y, e, vs)
    requires s.crypto == y.crypto && s.threshold <= |y.context.participants| && Derives(s.kdf)
    ensures AllReady(y, xs) && AllReady(y, ys) && AllReady(y, us) && AllReady(y, vs)
    ensures var p, q := Participant(y, mode, id, d, xs, ys), Participant(y, mode, id, e, us, vs);
      && Outcome(s, id, p).Ok? && Outcome(s, id, q).Ok?
      && Outcome(s, id, p).value.key == Outcome(s, id, q).value.key
  {
    HonestOutcome(y, s, mode, id, d, xs, ys);
    HonestOutcome(y, s, mode, id, e, us, vs);
    HonestInput(y, d, ys, e, vs);
  }

  /** One key, yet two combined commitments and two proofs, if they drew different
      randomness and nothing collides. */
  lemma HonestProofsDiffer(y: Ceremony, s: Setup, mode: AgreementMode, id: string, d: DeviceId, xs: seq<DeviceId>,
      ys: seq<DeviceId>, e: DeviceId, us: seq<DeviceId>, vs: seq<DeviceId>)
    requires Honest(y) && d in y.context.participants && e in y.context.participants
    requires Others(y, d, xs) && Others(y, d, ys) && Others(y, e, us) && Others(y, e, vs)
    requires s.crypto == y.crypto && s.threshold <= |y.context.participants| && Derives(s.kdf) && Ideal(s)
    requires y.locals[d].randomness != y.locals[e].randomness
    ensures AllReady(y, xs) && AllReady(y, ys) && AllReady(y, us) && AllReady(y, vs)
    ensures var p, q := Participant(y, mode, id, d, xs, ys), Participant(y, mode, id, e, us, vs);
      && Outcome(s, id, p).Ok? && Outcome(s, id, q).Ok?
      && var r, t := Outcome(s, id, p).value, Outcome(s, id, q).value;
         r.key == t.key && r.combinedCommitment != t.combinedCommitment && r.proof != t.proof
  {
    HonestAgreement(y, s, mode, id, d, xs, ys, e, us, vs);
    ResultsAgree(s, y.context, id, Participant(y, mode, id, d, xs, ys), Participant(y, mode, id, e, us, vs));
  }

  function Dull(first: byte): DeviceId { seq(16, _ => first) }

  /** Two devices, 0 and 1, whose randomness is as dull as their names; the hash keeps
      the first byte, and every signature is accepted. */
  function Pair(): Ceremony {
    var d, e := Dull(0), Dull(1);
    var keys := Keys("k", [], []);
    Ceremony(Crypto((b: Randomness) => b[0] as nat, (_, _, _) => Some(true), (_, _) => Some([1])),
      map[d := keys, e := keys], Context("s", [], [], [d, e], 0),
      map[d := Local(d, seq(32, _ => 0), 0, 0), e := Local(e, seq(32, _ => 1), 0, 0)])
  }

  lemma PairHonest()
    ensures Honest(Pair()) && Pair().context.participants == [Dull(0), Dull(1)]
    ensures Others(Pair(), Dull(0), [Dull(1)]) && Others(Pair(), Dull(1), [Dull(0)])
  {
    var d, e := Dull(0), Dull(1);
    assert d[0] != e[0];
    assert Elems([d, e]) == {d, e} && Elems([d]) == {d} && Elems([e]) == {e};
    assert Ready(Pair(), d) && Ready(Pair(), e);
  }

  /** Such a pair: one key, two combined commitments, two proofs. */
  lemma SameKeyOtherProof() returns (s: Setup, p: Party, q: Party)
    ensures Outcome(s, "s", p).Ok? && Outcome(s, "s", q).Ok?
    ensures var r, t := Outcome(s, "s", p).value, Outcome(s, "s", q).value;
      r.key == t.key && r.proof != t.proof && r.combinedCommitment != t.combinedCommitment
  {
    var y, d, e := Pair(), Dull(0), Dull(1);
    var kdf := Kdf((x, _, _, _) => Some(x), (_, _, cs) => Some(if cs == [] || cs[0] == 0 then [0] else [1]));
    s := Setup(y.crypto, kdf, cs => if cs == [] then 0 else cs[0], 2, false, false, Provisional);
    PairHonest();
    HonestOutcome(y, s, Provisional, "s", d, [e], [e]);
    HonestOutcome(y, s, Provisional, "s", e, [d], [d]);
    HonestInput(y, d, [e], e, [d]);
    p, q := Participant(y, Provisional, "s", d, [e], [e]), Participant(y, Provisional, "s", e, [d], [d]);
    assert d[0] != e[0];
    assert CommitmentsIn(MadeBy(y, [d] + [e], Reveal))[0] == 0 && CommitmentsIn(MadeBy(y, [e] + [d], Reveal))[0] == 1;
  }
}
