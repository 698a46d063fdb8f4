/** Distributed key derivation: commit, reveal, derive. The network is a sequence
    of incoming messages, signatures and hashing are parameters (`Crypto`). */
module Dkd {
  import opened Common
  import opened Ordering

  type Hash = nat
  type DeviceId = b: Bytes | |b| == 16 witness seq(16, _ => 0)
  type Randomness = b: Bytes | |b| == 32 witness seq(32, _ => 0)

  const DKD_CONTRIBUTION_PROTOCOL_VERSION := 1

  datatype Phase = Commitment | Reveal

  datatype Contribution = Contribution(
    device: DeviceId, keyId: string, randomness: Randomness, commitment: Hash,
    phase: Phase, version: nat, signature: Bytes, timestamp: nat)

  datatype Context = Context(session: string, app: Bytes, purpose: Bytes, participants: seq<DeviceId>, epoch: nat)

  datatype Signer = Signer(keyId: string, publicKey: Bytes, privateKey: Option<Bytes>)
  type Signers = map<DeviceId, Signer>

  /** The signed fields; randomness and signature are not among them. */
  datatype Transcript = Transcript(context: Context, device: DeviceId, keyId: string, commitment: Hash, timestamp: nat,
      phase: Phase, version: nat)

  datatype Crypto = Crypto(
    hash: Randomness -> Hash,
    verify: (Transcript, Bytes, Bytes) -> Option<bool>,
    sign: (Transcript, Bytes) -> Option<Bytes>)

  datatype DkdError =
    | UnknownSigner | NoSigningKey | SigningFailed | SignatureError | BadEvidence
    | NetworkFailure | Undecodable | DuplicateContributor
    | UnknownContributor | KeyMismatch | WrongPhase | WrongVersion | ReplayDetected | MissingSignature
    | CommitmentMismatch | ThresholdNotMet

  /** A decoded message, or None when it does not decode. */
  datatype Message = Message(sender: DeviceId, body: Option<Contribution>)

  datatype World = World(crypto: Crypto, signers: Signers, context: Context)

  function TranscriptOf(ctx: Context, c: Contribution): Transcript {
    Transcript(ctx, c.device, c.keyId, c.commitment, c.timestamp, c.phase, c.version)
  }

  /** `verified_contribution`: the evidence an incoming message must carry. */
  function Evidence(w: World, sender: DeviceId, phase: Phase, c: Contribution): Option<DkdError> {
    if c.device !in w.signers then Some(UnknownSigner)
    else
      var signer := w.signers[c.device];
      match w.crypto.verify(TranscriptOf(w.context, c), c.signature, signer.publicKey)
      case None => Some(SignatureError)
      case Some(valid) =>
        if sender == c.device && valid && c.device in w.context.participants
           && c.timestamp >= w.context.epoch && c.keyId == signer.keyId
           && w.crypto.hash(c.randomness) == c.commitment && c.phase == phase
           && c.version == DKD_CONTRIBUTION_PROTOCOL_VERSION
        then None else Some(BadEvidence)
  }

  /** `validate_contribution`. */
  function Validate(w: World, phase: Phase, c: Contribution): Option<DkdError> {
    if c.device !in w.context.participants then Some(UnknownContributor)
    else if c.device !in w.signers then Some(UnknownSigner)
    else if c.keyId != w.signers[c.device].keyId then Some(KeyMismatch)
    else if c.phase != phase then Some(WrongPhase)
    else if c.version != DKD_CONTRIBUTION_PROTOCOL_VERSION then Some(WrongVersion)
    else if c.timestamp < w.context.epoch then Some(ReplayDetected)
    else if c.signature == [] then Some(MissingSignature)
    else if w.crypto.hash(c.randomness) != c.commitment then Some(CommitmentMismatch)
    else None
  }

  /** The commitments of the first phase, by device; absent during that phase. */
  type Prior = Option<map<DeviceId, Hash>>

  /** All checks on one incoming message, in the order of the receive loops. */
  function Accept(w: World, phase: Phase, prior: Prior, seen: set<DeviceId>,
      m: Message): Result<Contribution, DkdError> {
    if m.body.None? then Err(Undecodable)
    else
      var c := m.body.value;
      if c.device in seen then Err(DuplicateContributor)
      else match Evidence(w, m.sender, phase, c)
        case Some(e) => Err(e)
        case None =>
          if prior.Some? && c.device !in prior.value then Err(UnknownContributor)
          else if prior.Some? && prior.value[c.device] != c.commitment then Err(CommitmentMismatch)
          else match Validate(w, phase, c)
            case Some(e) => Err(e)
            case None => Ok(c)
  }

  function Prepended(
      got: seq<Contribution>, r: Result<seq<Contribution>, DkdError>): Result<seq<Contribution>, DkdError>
  {
    if r.Ok? then Ok(got + r.value) else r
  }

  lemma PrependedTwice(a: seq<Contribution>, b: seq<Contribution>, r: Result<seq<Contribution>, DkdError>)
    ensures Prepended(a, Prepended(b, r)) == Prepended(a + b, r)
    ensures Prepended([], r) == r
  {
    if r.Ok? {
      assert a + (b + r.value) == (a + b) + r.value;
      assert [] + r.value == r.value;
    }
  }

  function Receive(w: World, phase: Phase, prior: Prior, seen: set<DeviceId>, inbox: seq<Message>,
      n: nat): Result<seq<Contribution>, DkdError>
    decreases n
  {
    if n == 0 then Ok([])
    else if inbox == [] then Err(NetworkFailure)
    else match Accept(w, phase, prior, seen, inbox[0])
      case Err(e) => Err(e)
      case Ok(c) => Prepended([c], Receive(w, phase, prior, seen + {c.device}, inbox[1..], n - 1))
  }

  /** The receive loop of both exchanges. */
  method ReceiveAll(w: World, phase: Phase, prior: Prior, inbox: seq<Message>, n: nat)
      returns (res: Result<seq<Contribution>, DkdError>)
    ensures res == Receive(w, phase, prior, {}, inbox, n)
  {
    var seen: set<DeviceId>, got: seq<Contribution> := {}, [];
    assert inbox[0..] == inbox;
    PrependedTwice([], [], Receive(w, phase, prior, {}, inbox, n));
    for i := 0 to n
      invariant i <= |inbox|
      invariant Receive(w, phase, prior, {}, inbox, n) ==
        Prepended(got, Receive(w, phase, prior, seen, inbox[i..], n - i))
    {
      if i == |inbox| {
        return Err(NetworkFailure);
      }
      assert inbox[i..][0] == inbox[i] && inbox[i..][1..] == inbox[i + 1..];
      match Accept(w, phase, prior, seen, inbox[i])
      case Err(e) =>
        return Err(e);
      case Ok(c) =>
        PrependedTwice(got, [c], Receive(w, phase, prior, seen + {c.device}, inbox[i + 1..], n - i - 1));
        seen, got := seen + {c.device}, got + [c];
    }
    assert got + [] == got;
    return Ok(got);
  }

  // ------------------------------------------------------------- the protocol

  /** What the local device draws: randomness and the two clock readings. */
  datatype Local = Local(device: DeviceId, randomness: Randomness, commitTime: nat, revealTime: nat)

  function SignedAs(w: World, c: Contribution): Result<Contribution, DkdError> {
    if c.device !in w.signers then Err(UnknownSigner)
    else if w.signers[c.device].privateKey.None? then Err(NoSigningKey)
    else match w.crypto.sign(TranscriptOf(w.context, c), w.signers[c.device].privateKey.value)
      case None => Err(SigningFailed)
      case Some(sig) => Ok(c.(signature := sig))
  }

  /** `generate_contribution`. */
  function OwnCommitment(w: World, l: Local): Result<Contribution, DkdError> {
    if l.device !in w.signers then Err(UnknownSigner)
    else SignedAs(w, Contribution(l.device, w.signers[l.device].keyId, l.randomness, w.crypto.hash(l.randomness),
                                  Commitment, DKD_CONTRIBUTION_PROTOCOL_VERSION, [], l.commitTime))
  }

  /** One less than the participants, in 64-bit arithmetic: an empty list wraps. */
  function ExpectedCommitments(w: World): nat {
    if |w.context.participants| == 0 then 0xFFFF_FFFF_FFFF_FFFF else |w.context.participants| - 1
  }

  /** `exchange_commitments`. */
  function Commitments(w: World, own: Contribution, inbox: seq<Message>): Result<seq<Contribution>, DkdError> {
    match Receive(w, Commitment, None, {}, inbox, ExpectedCommitments(w))
    case Err(e) => Err(e)
    case Ok(peers) => Ok([own] + peers)
  }

  /** Later entries overwrite earlier ones, as in the source's map. */
  function PriorOf(commitments: seq<Contribution>): map<DeviceId, Hash> {
    if commitments == [] then map[]
    else
      var last := commitments[|commitments| - 1];
      PriorOf(commitments[..|commitments| - 1])[last.device := last.commitment]
  }

  /** `exchange_reveals`. */
  function Reveals(w: World, l: Local, commitments: seq<Contribution>,
      inbox: seq<Message>): Result<seq<Contribution>, DkdError>
    requires commitments != []
  {
    match SignedAs(w,
      commitments[0].(phase := Reveal, version := DKD_CONTRIBUTION_PROTOCOL_VERSION, timestamp := l.revealTime,
        signature := []))
    case Err(e) => Err(e)
    case Ok(own) =>
      var n := if |w.context.participants| == 0 then 0 else |w.context.participants| - 1;
      match Receive(w, Reveal, Some(PriorOf(commitments)), {}, inbox, n)
      case Err(e) => Err(e)
      case Ok(peers) => Ok([own] + peers)
  }

  /** `ensure_unique_contributors`. */
  function Unique(w: World, phase: Phase, seen: set<DeviceId>, cs: seq<Contribution>): Option<DkdError>
    decreases cs
  {
    if cs == [] then None
    else if cs[0].device in seen then Some(DuplicateContributor)
    else match Validate(w, phase, cs[0])
      case Some(e) => Some(e)
      case None => Unique(w, phase, seen + {cs[0].device}, cs[1..])
  }

  method EnsureUniqueContributors(w: World, phase: Phase, cs: seq<Contribution>) returns (res: Option<DkdError>)
    ensures res == Unique(w, phase, {}, cs)
  {
    var seen: set<DeviceId> := {};
    for i := 0 to |cs|
      invariant Unique(w, phase, {}, cs) == Unique(w, phase, seen, cs[i..])
    {
      assert cs[i..][0] == cs[i] && cs[i..][1..] == cs[i + 1..];
      if cs[i].device in seen {
        return Some(DuplicateContributor);
      }
      var verdict := Validate(w, phase, cs[i]);
      if verdict.Some? {
        return verdict;
      }
      seen := seen + {cs[i].device};
    }
    return None;
  }

  /** Nobody's commitment is valid for an empty list, so the wrapped count is never
      reached. */
  lemma SomebodyExpected(w: World, inbox: seq<Message>)
    requires Receive(w, Commitment, None, {}, inbox, ExpectedCommitments(w)).Ok?
    ensures |w.context.participants| > 0
  {
    ReceiveExact(w, Commitment, None, {}, inbox, ExpectedCommitments(w));
    var rs := Receive(w, Commitment, None, {}, inbox, ExpectedCommitments(w)).value;
    if rs != [] {
      assert rs[0] in rs && rs[0].device in w.context.participants;
    }
  }

  /** What the two exchanges and the gate of `derive_key` let through. */
  datatype Gathered = Gathered(commitments: seq<Contribution>, openings: seq<Contribution>)

  function Gather(w: World, threshold: nat, l: Local, inbox: seq<Message>): Result<Gathered, DkdError> {
    match OwnCommitment(w, l)
    case Err(e) => Err(e)
    case Ok(own) =>
      match Commitments(w, own, inbox)
      case Err(e) => Err(e)
      case Ok(commitments) =>
        var rest := if |commitments| - 1 <= |inbox| then inbox[|commitments| - 1..] else [];
        match Reveals(w, l, commitments, rest)
        case Err(e) => Err(e)
        case Ok(openings) =>
          match Unique(w, Reveal, {}, openings)
          case Some(e) => Err(e)
          case None =>
            if |openings| < threshold then Err(ThresholdNotMet)
            else Ok(Gathered(commitments, openings))
  }

  /** `execute_protocol` up to key derivation. */
  method RunExchanges(w: World, threshold: nat, l: Local, inbox: seq<Message>) returns (res: Result<Gathered, DkdError>)
    ensures res == Gather(w, threshold, l, inbox)
  {
    var own := OwnCommitment(w, l);
    if own.Err? {
      return Err(own.error);
    }
    var n := ExpectedCommitments(w);
    var peers := ReceiveAll(w, Commitment, None, inbox, n);
    if peers.Err? {
      return Err(peers.error);
    }
    var commitments := [own.value] + peers.value;
    SomebodyExpected(w, inbox);
    ReceiveExact(w, Commitment, None, {}, inbox, n);
    var opening := SignedAs(w,
      own.value.(phase := Reveal, version := DKD_CONTRIBUTION_PROTOCOL_VERSION, timestamp := l.revealTime,
        signature := []));
    if opening.Err? {
      return Err(opening.error);
    }
    var revealed := ReceiveAll(w, Reveal, Some(PriorOf(commitments)), inbox[n..], n);
    if revealed.Err? {
      return Err(revealed.error);
    }
    var openings := [opening.value] + revealed.value;
    var verdict := EnsureUniqueContributors(w, Reveal, openings);
    if verdict.Some? {
      return Err(verdict.value);
    }
    if |openings| < threshold {
      return Err(ThresholdNotMet);
    }
    return Ok(Gathered(commitments, openings));
  }

  // ---------------------------------------------------------------- properties

  function Devices(cs: seq<Contribution>): (ds: seq<DeviceId>)
    ensures |ds| == |cs|
  {
    seq(|cs|, i requires 0 <= i < |cs| => cs[i].device)
  }

  lemma {:induction false} ReceiveExact(w: World, phase: Phase, prior: Prior, seen: set<DeviceId>, inbox: seq<Message>,
      n: nat)
    requires Receive(w, phase, prior, seen, inbox, n).Ok?
    ensures var rs := Receive(w, phase, prior, seen, inbox, n).value;
      && |rs| == n && n <= |inbox|
      && (forall c <- rs :: Validate(w, phase, c).None? && c.device !in seen)
      && (prior.Some? ==> forall c <- rs :: c.device in prior.value && prior.value[c.device] == c.commitment)
    decreases n
  {
    if n > 0 {
      var c := Accept(w, phase, prior, seen, inbox[0]).value;
      ReceiveExact(w, phase, prior, seen + {c.device}, inbox[1..], n - 1);
    }
  }

  lemma {:induction false} UniqueExact(w: World, phase: Phase, seen: set<DeviceId>, cs: seq<Contribution>)
    requires Unique(w, phase, seen, cs).None?
    ensures forall c <- cs :: Validate(w, phase, c).None? && c.device !in seen
    ensures NoDup(Devices(cs))
    decreases cs
  {
    if cs != [] {
      UniqueExact(w, phase, seen + {cs[0].device}, cs[1..]);
      forall i, j | 0 <= i < j < |cs| ensures Devices(cs)[i] != Devices(cs)[j] {
        if i > 0 {
          assert Devices(cs[1..])[i - 1] != Devices(cs[1..])[j - 1];
        } else {
          assert cs[j] in cs[1..];
        }
      }
    }
  }

  /** Pigeonhole: as many distinct contributors as there are participant slots,
      all of them participants, fill every slot exactly once. */
  lemma Pigeonhole(devices: seq<DeviceId>, participants: seq<DeviceId>)
    requires NoDup(devices) && |devices| == |participants| && Elems(devices) <= Elems(participants)
    ensures Elems(devices) == Elems(participants) && NoDup(participants)
  {
    ElemsCount(devices);
    ElemsCount(participants);
    SubsetCount(Elems(devices), Elems(participants));
  }

  lemma {:induction false} PriorKeys(cs: seq<Contribution>)
    ensures PriorOf(cs).Keys == Elems(Devices(cs))
  {
    if cs != [] {
      var past, last := cs[..|cs| - 1], cs[|cs| - 1];
      PriorKeys(past);
      assert Devices(cs) == Devices(past) + [last.device];
      ElemsSnoc(Devices(past), last.device);
    }
  }

  lemma {:induction false} PriorAt(cs: seq<Contribution>, i: nat)
    requires i < |cs| && NoDup(Devices(cs))
    ensures cs[i].device in PriorOf(cs) && PriorOf(cs)[cs[i].device] == cs[i].commitment
  {
    var past := cs[..|cs| - 1];
    if i < |past| {
      assert Devices(cs) == Devices(past) + [cs[|past|].device];
      assert Devices(cs)[i] != Devices(cs)[|past|];
      forall a, b | 0 <= a < b < |past| ensures Devices(past)[a] != Devices(past)[b] {
        assert Devices(cs)[a] != Devices(cs)[b];
      }
      PriorAt(past, i);
    }
  }

  /** The map of commitments by device, for devices that differ. */
  lemma PriorExact(cs: seq<Contribution>)
    ensures PriorOf(cs).Keys == Elems(Devices(cs))
    ensures NoDup(Devices(cs)) ==> forall c <- cs :: c.device in PriorOf(cs) && PriorOf(cs)[c.device] == c.commitment
  {
    PriorKeys(cs);
    if NoDup(Devices(cs)) {
      forall c <- cs ensures c.device in PriorOf(cs) && PriorOf(cs)[c.device] == c.commitment {
        var i :| 0 <= i < |cs| && cs[i] == c;
        PriorAt(cs, i);
      }
    }
  }

  lemma ElemsDevices(cs: seq<Contribution>, d: DeviceId)
    ensures d in Elems(Devices(cs)) <==> exists i :: 0 <= i < |cs| && cs[i].device == d
  {
    if d in Elems(Devices(cs)) {
      var i :| 0 <= i < |cs| && Devices(cs)[i] == d;
      assert cs[i].device == d;
    }
    if i :| 0 <= i < |cs| && cs[i].device == d {
      assert Devices(cs)[i] == d;
    }
  }

  /** Everything the exchanges guarantee about what they gathered. */
  ghost predicate Obtained(w: World, threshold: nat, l: Local, g: Gathered) {
    && |g.openings| == |g.commitments| == |w.context.participants| > 0
    && |g.openings| >= threshold
    && OwnCommitment(w, l) == Ok(g.commitments[0])
    && (forall c <- g.commitments[1..] :: Validate(w, Commitment, c).None?)
    && g.openings[0].device == l.device == g.commitments[0].device
    && g.openings[0].randomness == g.commitments[0].randomness
    && g.openings[0].commitment == g.commitments[0].commitment
    && (forall c <- g.openings[1..] ::
          c.device in PriorOf(g.commitments) && PriorOf(g.commitments)[c.device] == c.commitment)
    && NoDup(Devices(g.openings))
    && (forall c <- g.openings :: Validate(w, Reveal, c).None?)
  }

  lemma CommitmentsGathered(w: World, own: Contribution, inbox: seq<Message>)
    requires Commitments(w, own, inbox).Ok?
    ensures var ms := Commitments(w, own, inbox).value;
      && |ms| == |w.context.participants| > 0 && ms[0] == own && |ms| - 1 <= |inbox|
      && forall c <- ms[1..] :: Validate(w, Commitment, c).None?
  {
    SomebodyExpected(w, inbox);
    ReceiveExact(w, Commitment, None, {}, inbox, |w.context.participants| - 1);
    var peers := Receive(w, Commitment, None, {}, inbox, |w.context.participants| - 1).value;
    assert ([own] + peers)[1..] == peers;
  }

  lemma RevealsGathered(w: World, l: Local, ms: seq<Contribution>, inbox: seq<Message>)
    requires ms != [] && |w.context.participants| > 0 && Reveals(w, l, ms, inbox).Ok?
    ensures var rs := Reveals(w, l, ms, inbox).value;
      && |rs| == |w.context.participants|
      && rs[0].device == ms[0].device && rs[0].randomness == ms[0].randomness && rs[0].commitment == ms[0].commitment
      && forall c <- rs[1..] :: c.device in PriorOf(ms) && PriorOf(ms)[c.device] == c.commitment
  {
    var n := |w.context.participants| - 1;
    ReceiveExact(w, Reveal, Some(PriorOf(ms)), {}, inbox, n);
    var peers := Receive(w, Reveal, Some(PriorOf(ms)), {}, inbox, n).value;
    var rs := Reveals(w, l, ms, inbox).value;
    assert rs == [rs[0]] + peers;
    assert rs[1..] == peers;
  }

  lemma GatherObtains(w: World, threshold: nat, l: Local, inbox: seq<Message>)
    requires Gather(w, threshold, l, inbox).Ok?
    ensures Obtained(w, threshold, l, Gather(w, threshold, l, inbox).value)
  {
    var g := Gather(w, threshold, l, inbox).value;
    CommitmentsGathered(w, OwnCommitment(w, l).value, inbox);
    RevealsGathered(w, l, g.commitments, inbox[|g.commitments| - 1..]);
    UniqueExact(w, Reveal, {}, g.openings);
  }

  lemma ObtainedFromAll(w: World, threshold: nat, l: Local, g: Gathered)
    requires Obtained(w, threshold, l, g)
    ensures NoDup(w.context.participants) && Elems(Devices(g.openings)) == Elems(w.context.participants)
  {
    forall d | d in Elems(Devices(g.openings)) ensures d in Elems(w.context.participants) {
      ElemsDevices(g.openings, d);
      var i :| 0 <= i < |g.openings| && g.openings[i].device == d;
      assert g.openings[i] in g.openings;
    }
    Pigeonhole(Devices(g.openings), w.context.participants);
  }

  lemma ObtainedCommittedOnce(w: World, threshold: nat, l: Local, g: Gathered)
    requires Obtained(w, threshold, l, g)
    ensures NoDup(Devices(g.commitments)) && Elems(Devices(g.commitments)) == Elems(Devices(g.openings))
  {
    PriorExact(g.commitments);
    var ds, cs := Devices(g.openings), Devices(g.commitments);
    forall d | d in Elems(ds) ensures d in Elems(cs) {
      ElemsDevices(g.openings, d);
      ElemsDevices(g.commitments, d);
      var i :| 0 <= i < |g.openings| && g.openings[i].device == d;
      if i > 0 {
        assert g.openings[i] in g.openings[1..];
      }
    }
    ElemsCount(ds);
    ElemsCount(cs);
    SubsetCount(Elems(ds), Elems(cs));
  }

  /** Full participation: when the gate is passed, the contributors are exactly
      the participants, the participant list named nobody twice, the threshold is
      met, every contribution passed validation; and the first phase, too, heard
      every participant exactly once. */
  lemma FullParticipation(w: World, threshold: nat, l: Local, inbox: seq<Message>)
    requires Gather(w, threshold, l, inbox).Ok?
    ensures var g := Gather(w, threshold, l, inbox).value;
      && NoDup(w.context.participants)
      && NoDup(Devices(g.openings)) && Elems(Devices(g.openings)) == Elems(w.context.participants)
      && NoDup(Devices(g.commitments)) && Elems(Devices(g.commitments)) == Elems(w.context.participants)
      && |g.openings| == |w.context.participants| >= threshold
      && forall c <- g.openings :: Validate(w, Reveal, c).None?
  {
    var g := Gather(w, threshold, l, inbox).value;
    GatherObtains(w, threshold, l, inbox);
    ObtainedFromAll(w, threshold, l, g);
    ObtainedCommittedOnce(w, threshold, l, g);
  }

  ghost predicate CollisionFree(crypto: Crypto) {
    forall x, y :: crypto.hash(x) == crypto.hash(y) ==> x == y
  }

  /** First-phase contributions hash to their commitment, the local one by
      construction and the others by validation. */
  lemma CommitmentsHash(w: World, threshold: nat, l: Local, g: Gathered, j: nat)
    requires Obtained(w, threshold, l, g) && j < |g.commitments|
    ensures w.crypto.hash(g.commitments[j].randomness) == g.commitments[j].commitment
  {
    if j > 0 {
      assert g.commitments[j] in g.commitments[1..];
    }
  }

  lemma SameDeviceSameCommitment(w: World, threshold: nat, l: Local, g: Gathered, i: nat, j: nat)
    requires Obtained(w, threshold, l, g)
    requires i < |g.openings| && j < |g.commitments| && g.openings[i].device == g.commitments[j].device
    ensures g.openings[i].commitment == g.commitments[j].commitment
  {
    ObtainedCommittedOnce(w, threshold, l, g);
    PriorExact(g.commitments);
    assert g.commitments[j] in g.commitments;
    if i == 0 {
      assert g.commitments[0] in g.commitments;
    } else {
      assert g.openings[i] in g.openings[1..];
    }
  }

  /** Binding: every revealed contribution opens the one commitment its device
      made; with a collision-free hash it is the randomness committed to. */
  lemma RevealsOpenCommitments(w: World, threshold: nat, l: Local, inbox: seq<Message>, i: nat, j: nat)
    requires Gather(w, threshold, l, inbox).Ok?
    requires var g := Gather(w, threshold, l, inbox).value;
      i < |g.openings| && j < |g.commitments| && g.openings[i].device == g.commitments[j].device
    ensures var g := Gather(w, threshold, l, inbox).value;
      && g.openings[i].commitment == g.commitments[j].commitment
      && w.crypto.hash(g.openings[i].randomness) == w.crypto.hash(g.commitments[j].randomness) ==
        g.commitments[j].commitment
      && (CollisionFree(w.crypto) ==> g.openings[i].randomness == g.commitments[j].randomness)
  {
    var g := Gather(w, threshold, l, inbox).value;
    GatherObtains(w, threshold, l, inbox);
    SameDeviceSameCommitment(w, threshold, l, g, i, j);
    CommitmentsHash(w, threshold, l, g, j);
    assert g.openings[i] in g.openings;
  }
}
