/** What it takes for a contribution to be received and for the exchanges to succeed,
    said field by field and without the protocol's own checks. */
module DkdAdmission {
  import opened Common
  import opened Ordering
  import opened Dkd

  /** The fields of a contribution fit the session, the enrolment and the phase. */
  predicate FitsBarSignature(w: World, phase: Phase, c: Contribution) {
    && c.device in w.context.participants
    && c.device in w.signers && c.keyId == w.signers[c.device].keyId
    && c.phase == phase && c.version == DKD_CONTRIBUTION_PROTOCOL_VERSION
    && c.timestamp >= w.context.epoch
    && c.commitment == w.crypto.hash(c.randomness)
  }

  predicate FitsSession(w: World, phase: Phase, c: Contribution) {
    FitsBarSignature(w, phase, c) && c.signature != []
  }

  /** The message was sent by the contributor and carries a signature by the enrolled
      key over the session context and every signed field. */
  predicate Authentic(w: World, m: Message, c: Contribution) {
    && m.body == Some(c) && m.sender == c.device && c.device in w.signers
    && var signed := Transcript(w.context, c.device, c.keyId, c.commitment, c.timestamp, c.phase, c.version);
       w.crypto.verify(signed, c.signature, w.signers[c.device].publicKey) == Some(true)
  }

  predicate Matches(prior: Prior, c: Contribution) {
    prior.Some? ==> c.device in prior.value && prior.value[c.device] == c.commitment
  }

  /** A message that stands on its own; what remains is that its device is new. */
  predicate Welcome(w: World, phase: Phase, prior: Prior, m: Message) {
    m.body.Some? && Authentic(w, m, m.body.value) && FitsSession(w, phase, m.body.value) && Matches(prior, m.body.value)
  }

  lemma ValidateIff(w: World, phase: Phase, c: Contribution)
    ensures Validate(w, phase, c).None? <==> FitsSession(w, phase, c)
  {
  }

  lemma AcceptIff(w: World, phase: Phase, prior: Prior, seen: set<DeviceId>, m: Message)
    ensures Accept(w, phase, prior, seen, m).Ok? <==>
            Welcome(w, phase, prior, m) && m.body.value.device !in seen
    ensures Accept(w, phase, prior, seen, m).Ok? ==> m.body == Some(Accept(w, phase, prior, seen, m).value)
  {
  }

  /** What a refused message had against it. */
  predicate Fault(w: World, phase: Phase, prior: Prior, seen: set<DeviceId>, m: Message, e: DkdError) {
    match e
    case Undecodable => m.body.None?
    case DuplicateContributor => m.body.Some? && m.body.value.device in seen
    case UnknownSigner => m.body.Some? && m.body.value.device !in w.signers
    case SignatureError =>
      && m.body.Some? && m.body.value.device in w.signers
      && var c := m.body.value;
         var signed := Transcript(w.context, c.device, c.keyId, c.commitment, c.timestamp, c.phase, c.version);
         w.crypto.verify(signed, c.signature, w.signers[c.device].publicKey) == None
    case BadEvidence =>
      m.body.Some? && !(Authentic(w, m, m.body.value) && FitsBarSignature(w, phase, m.body.value))
    case UnknownContributor => m.body.Some? && prior.Some? && m.body.value.device !in prior.value
    case CommitmentMismatch =>
      && m.body.Some? && prior.Some? && m.body.value.device in prior.value
      && prior.value[m.body.value.device] != m.body.value.commitment
    case MissingSignature => m.body.Some? && m.body.value.signature == []
    case _ => false
  }

  /** The order in which faults are reported. */
  function FaultRank(e: DkdError): nat {
    match e
    case Undecodable => 0
    case DuplicateContributor => 1
    case UnknownSigner => 2
    case SignatureError => 3
    case BadEvidence => 4
    case UnknownContributor => 5
    case CommitmentMismatch => 6
    case _ => 7
  }

  /** A message is refused for the first of its faults. */
  lemma AcceptRefusal(w: World, phase: Phase, prior: Prior, seen: set<DeviceId>, m: Message)
    requires Accept(w, phase, prior, seen, m).Err?
    ensures Fault(w, phase, prior, seen, m, Accept(w, phase, prior, seen, m).error)
    ensures forall e :: Fault(w, phase, prior, seen, m, e) ==>
      FaultRank(Accept(w, phase, prior, seen, m).error) <= FaultRank(e)
  {
  }

  /** Every one of the first `n` messages is welcome, from a device not heard before. */
  predicate AllWelcome(w: World, phase: Phase, prior: Prior, seen: set<DeviceId>, inbox: seq<Message>, n: nat) {
    && n <= |inbox|
    && (forall i :: 0 <= i < n ==> Welcome(w, phase, prior, inbox[i]) && inbox[i].body.value.device !in seen)
    && (forall i, j :: 0 <= i < j < n && inbox[i].body.Some? && inbox[j].body.Some? ==>
          inbox[i].body.value.device != inbox[j].body.value.device)
  }

  lemma WelcomeTail(w: World, phase: Phase, prior: Prior, seen: set<DeviceId>, inbox: seq<Message>, n: nat)
    requires 0 < n <= |inbox| && Welcome(w, phase, prior, inbox[0]) && inbox[0].body.value.device !in seen
    ensures AllWelcome(w, phase, prior, seen, inbox, n) <==>
            AllWelcome(w, phase, prior, seen + {inbox[0].body.value.device}, inbox[1..], n - 1)
  {
    var rest, more := inbox[1..], seen + {inbox[0].body.value.device};
    if AllWelcome(w, phase, prior, more, rest, n - 1) {
      forall i | 0 <= i < n ensures Welcome(w, phase, prior, inbox[i]) && inbox[i].body.value.device !in seen {
        assert i > 0 ==> inbox[i] == rest[i - 1];
      }
      forall i, j | 0 <= i < j < n ensures inbox[i].body.value.device != inbox[j].body.value.device {
        assert inbox[j] == rest[j - 1];
        assert i > 0 ==> inbox[i] == rest[i - 1];
      }
    }
  }

  /** The receive loop succeeds exactly when it gets `n` welcome messages from different
      devices, and then returns what they carry, in order. */
  lemma {:induction false} ReceiveIff(
      w: World, phase: Phase, prior: Prior, seen: set<DeviceId>, inbox: seq<Message>, n: nat)
    ensures Receive(w, phase, prior, seen, inbox, n).Ok? <==> AllWelcome(w, phase, prior, seen, inbox, n)
    ensures Receive(w, phase, prior, seen, inbox, n).Ok? ==>
      var rs := Receive(w, phase, prior, seen, inbox, n).value;
      |rs| == n <= |inbox| && forall i :: 0 <= i < n ==> inbox[i].body == Some(rs[i])
    decreases n
  {
    if n > 0 && inbox != [] {
      AcceptIff(w, phase, prior, seen, inbox[0]);
      if Accept(w, phase, prior, seen, inbox[0]).Ok? {
        ReceiveIff(w, phase, prior, seen + {inbox[0].body.value.device}, inbox[1..], n - 1);
        if n <= |inbox| {
          WelcomeTail(w, phase, prior, seen, inbox, n);
        }
      }
    }
  }

  lemma {:induction false} UniqueIff(w: World, phase: Phase, seen: set<DeviceId>, cs: seq<Contribution>)
    ensures Unique(w, phase, seen, cs).None? <==>
            (forall c <- cs :: FitsSession(w, phase, c) && c.device !in seen) && NoDup(Devices(cs))
    decreases cs
  {
    if cs != [] {
      ValidateIff(w, phase, cs[0]);
      UniqueIff(w, phase, seen + {cs[0].device}, cs[1..]);
      UniqueTail(cs);
      assert cs == [cs[0]] + cs[1..];
    }
  }

  lemma UniqueTail(cs: seq<Contribution>)
    requires cs != []
    ensures NoDup(Devices(cs)) <==> NoDup(Devices(cs[1..])) && forall c <- cs[1..] :: c.device != cs[0].device
  {
    var ds, tail := Devices(cs), Devices(cs[1..]);
    assert ds == [cs[0].device] + tail;
    if NoDup(ds) {
      forall i, j | 0 <= i < j < |tail| ensures tail[i] != tail[j] {
        assert ds[i + 1] != ds[j + 1];
      }
      forall c <- cs[1..] ensures c.device != cs[0].device {
        var i :| 0 <= i < |cs[1..]| && cs[1..][i] == c;
        assert ds[0] != ds[i + 1];
      }
    }
    if NoDup(tail) && forall c <- cs[1..] :: c.device != cs[0].device {
      forall i, j | 0 <= i < j < |ds| ensures ds[i] != ds[j] {
        assert cs[1..][j - 1] in cs[1..];
      }
    }
  }

  // ------------------------------------------------------- the local contribution

  /** What the local device contributes in a phase: its own randomness, committed to,
      signed with its enrolled key. */
  predicate IsOwn(w: World, l: Local, phase: Phase, at: nat, c: Contribution) {
    && l.device in w.signers && w.signers[l.device].privateKey.Some?
    && c.device == l.device && c.keyId == w.signers[l.device].keyId
    && c.randomness == l.randomness && c.commitment == w.crypto.hash(l.randomness)
    && c.phase == phase && c.version == DKD_CONTRIBUTION_PROTOCOL_VERSION && c.timestamp == at
    && w.crypto.sign(Transcript(w.context, l.device, c.keyId, c.commitment, at, phase, c.version),
                     w.signers[l.device].privateKey.value) == Some(c.signature)
  }

  lemma OwnIff(w: World, l: Local, c: Contribution)
    ensures OwnCommitment(w, l) == Ok(c) <==> IsOwn(w, l, Commitment, l.commitTime, c)
  {
  }

  lemma OwnOpeningIff(w: World, l: Local, first: Contribution, c: Contribution)
    requires IsOwn(w, l, Commitment, l.commitTime, first)
    ensures SignedAs(w, first.(phase := Reveal, version := DKD_CONTRIBUTION_PROTOCOL_VERSION,
                               timestamp := l.revealTime, signature := [])) == Ok(c) <==>
            IsOwn(w, l, Reveal, l.revealTime, c)
  {
  }

  // ----------------------------------------------------------------- both exchanges

  /** The messages carry the contributions, in order. */
  predicate Carried(inbox: seq<Message>, cs: seq<Contribution>) {
    |cs| <= |inbox| && forall i :: 0 <= i < |cs| ==> inbox[i].body == Some(cs[i])
  }

  /** One phase of the protocol as seen by one device: it hears the contributions of
      `n` others, each in a welcome message. */
  predicate HeardFrom(w: World, phase: Phase, prior: Prior, inbox: seq<Message>, n: nat, cs: seq<Contribution>) {
    |cs| == n && AllWelcome(w, phase, prior, {}, inbox, n) && Carried(inbox, cs)
  }

  lemma HeardIff(w: World, phase: Phase, prior: Prior, inbox: seq<Message>, n: nat, cs: seq<Contribution>)
    ensures Receive(w, phase, prior, {}, inbox, n) == Ok(cs) <==> HeardFrom(w, phase, prior, inbox, n, cs)
  {
    ReceiveIff(w, phase, prior, {}, inbox, n);
    if HeardFrom(w, phase, prior, inbox, n, cs) {
      var rs := Receive(w, phase, prior, {}, inbox, n).value;
      forall i | 0 <= i < n ensures rs[i] == cs[i] {
        assert inbox[i].body == Some(rs[i]) && inbox[i].body == Some(cs[i]);
      }
      assert rs == cs;
    }
  }

  predicate PhaseOne(w: World, inbox: seq<Message>, ms: seq<Contribution>) {
    && |ms| == |w.context.participants| > 0
    && HeardFrom(w, Commitment, None, inbox, |ms| - 1, ms[1..])
  }

  predicate PhaseTwo(w: World, l: Local, ms: seq<Contribution>, inbox: seq<Message>, os: seq<Contribution>) {
    && |os| == |w.context.participants| > 0 && IsOwn(w, l, Reveal, l.revealTime, os[0])
    && HeardFrom(w, Reveal, Some(PriorOf(ms)), inbox, |os| - 1, os[1..])
  }

  lemma CommitmentsIff(w: World, own: Contribution, inbox: seq<Message>, ms: seq<Contribution>)
    ensures Commitments(w, own, inbox) == Ok(ms) <==> PhaseOne(w, inbox, ms) && ms[0] == own
  {
    var n := ExpectedCommitments(w);
    if Commitments(w, own, inbox) == Ok(ms) {
      SomebodyExpected(w, inbox);
      ReceiveIff(w, Commitment, None, {}, inbox, n);
      var peers := Receive(w, Commitment, None, {}, inbox, n).value;
      assert ms == [own] + peers && ms[1..] == peers;
      HeardIff(w, Commitment, None, inbox, n, ms[1..]);
    }
    if PhaseOne(w, inbox, ms) && ms[0] == own {
      HeardIff(w, Commitment, None, inbox, n, ms[1..]);
      assert ms == [own] + ms[1..];
    }
  }

  lemma RevealsIff(w: World, l: Local, ms: seq<Contribution>, inbox: seq<Message>, os: seq<Contribution>)
    requires ms != [] && IsOwn(w, l, Commitment, l.commitTime, ms[0]) && |w.context.participants| > 0
    ensures Reveals(w, l, ms, inbox) == Ok(os) <==> PhaseTwo(w, l, ms, inbox, os)
  {
    var n, prior := |w.context.participants| - 1, Some(PriorOf(ms));
    if Reveals(w, l, ms, inbox) == Ok(os) {
      ReceiveIff(w, Reveal, prior, {}, inbox, n);
      var peers := Receive(w, Reveal, prior, {}, inbox, n).value;
      assert os == [os[0]] + peers && os[1..] == peers;
      HeardIff(w, Reveal, prior, inbox, n, os[1..]);
      OwnOpeningIff(w, l, ms[0], os[0]);
    }
    if PhaseTwo(w, l, ms, inbox, os) {
      HeardIff(w, Reveal, prior, inbox, n, os[1..]);
      OwnOpeningIff(w, l, ms[0], os[0]);
      assert os == [os[0]] + os[1..];
    }
  }

  /** How the exchanges go when they succeed: the device's own contribution and one
      welcome message from each other device in each phase, the second phase opening
      the first; and the openings are all different, fit the session and reach the
      threshold. */
  predicate Exchanged(w: World, threshold: nat, l: Local, inbox: seq<Message>, g: Gathered) {
    && PhaseOne(w, inbox, g.commitments) && IsOwn(w, l, Commitment, l.commitTime, g.commitments[0])
    && |g.commitments| - 1 <= |inbox|
    && PhaseTwo(w, l, g.commitments, inbox[|g.commitments| - 1..], g.openings)
    && (forall c <- g.openings :: FitsSession(w, Reveal, c)) && NoDup(Devices(g.openings))
    && threshold <= |g.openings|
  }

  /** The steps behind a success, one by one. */
  lemma GatherSteps(w: World, threshold: nat, l: Local, inbox: seq<Message>, g: Gathered)
    requires Gather(w, threshold, l, inbox) == Ok(g)
    ensures OwnCommitment(w, l).Ok? && Commitments(w, OwnCommitment(w, l).value, inbox) == Ok(g.commitments)
    ensures 0 < |g.commitments| <= |inbox| + 1
    ensures Reveals(w, l, g.commitments, inbox[|g.commitments| - 1..]) == Ok(g.openings)
    ensures Unique(w, Reveal, {}, g.openings).None? && threshold <= |g.openings|
  {
    CommitmentsGathered(w, OwnCommitment(w, l).value, inbox);
  }

  lemma GatherExchanged(w: World, threshold: nat, l: Local, inbox: seq<Message>)
    requires Gather(w, threshold, l, inbox).Ok?
    ensures Exchanged(w, threshold, l, inbox, Gather(w, threshold, l, inbox).value)
  {
    var g := Gather(w, threshold, l, inbox).value;
    GatherSteps(w, threshold, l, inbox, g);
    StepsExchanged(w, threshold, l, inbox, g, OwnCommitment(w, l).value);
  }

  lemma StepsExchanged(w: World, threshold: nat, l: Local, inbox: seq<Message>, g: Gathered, own: Contribution)
    requires OwnCommitment(w, l) == Ok(own) && Commitments(w, own, inbox) == Ok(g.commitments)
    requires 0 < |g.commitments| <= |inbox| + 1
    requires Reveals(w, l, g.commitments, inbox[|g.commitments| - 1..]) == Ok(g.openings)
    requires Unique(w, Reveal, {}, g.openings).None? && threshold <= |g.openings|
    ensures Exchanged(w, threshold, l, inbox, g)
  {
    var rest := inbox[|g.commitments| - 1..];
    assert PhaseOne(w, inbox, g.commitments) && g.commitments[0] == own by {
      CommitmentsIff(w, own, inbox, g.commitments);
    }
    assert IsOwn(w, l, Commitment, l.commitTime, own) by { OwnIff(w, l, own); }
    assert PhaseTwo(w, l, g.commitments, rest, g.openings) by {
      RevealsIff(w, l, g.commitments, rest, g.openings);
    }
    assert (forall c <- g.openings :: FitsSession(w, Reveal, c)) && NoDup(Devices(g.openings)) by {
      UniqueIff(w, Reveal, {}, g.openings);
    }
  }

  lemma ExchangedGathers(w: World, threshold: nat, l: Local, inbox: seq<Message>, g: Gathered)
    requires Exchanged(w, threshold, l, inbox, g)
    ensures Gather(w, threshold, l, inbox) == Ok(g)
  {
    var own := g.commitments[0];
    assert OwnCommitment(w, l) == Ok(own) by { OwnIff(w, l, own); }
    assert Commitments(w, own, inbox) == Ok(g.commitments) by { CommitmentsIff(w, own, inbox, g.commitments); }
    var rest := inbox[|g.commitments| - 1..];
    assert Reveals(w, l, g.commitments, rest) == Ok(g.openings) by {
      RevealsIff(w, l, g.commitments, rest, g.openings);
    }
    assert Unique(w, Reveal, {}, g.openings).None? by { UniqueIff(w, Reveal, {}, g.openings); }
  }

  /** The exchanges succeed with an outcome exactly when that is how they went. */
  lemma GatherIff(w: World, threshold: nat, l: Local, inbox: seq<Message>, g: Gathered)
    ensures Gather(w, threshold, l, inbox) == Ok(g) <==> Exchanged(w, threshold, l, inbox, g)
  {
    if Gather(w, threshold, l, inbox) == Ok(g) {
      GatherExchanged(w, threshold, l, inbox);
    }
    if Exchanged(w, threshold, l, inbox, g) {
      ExchangedGathers(w, threshold, l, inbox, g);
    }
  }

  /** An opening is the local device's own or arrived in an authentic message. */
  predicate Genuine(w: World, l: Local, inbox: seq<Message>, c: Contribution) {
    && FitsSession(w, Reveal, c)
    && (if c.device == l.device then IsOwn(w, l, Reveal, l.revealTime, c) else exists m <- inbox :: Authentic(w, m, c))
  }

  /** After success every participant is heard exactly once in each phase, and every
      opening is genuine: nothing by another device is used without its signature. */
  lemma AuthenticParticipation(w: World, threshold: nat, l: Local, inbox: seq<Message>)
    requires Gather(w, threshold, l, inbox).Ok?
    ensures var g := Gather(w, threshold, l, inbox).value;
      && NoDup(w.context.participants) && l.device in w.context.participants
      && NoDup(Devices(g.openings)) && Elems(Devices(g.openings)) == Elems(w.context.participants)
      && forall c <- g.openings :: Genuine(w, l, inbox, c)
  {
    var g := Gather(w, threshold, l, inbox).value;
    FullParticipation(w, threshold, l, inbox);
    GatherExchanged(w, threshold, l, inbox);
    assert g.openings[0] in g.openings;
    forall i | 0 <= i < |g.openings| ensures Genuine(w, l, inbox, g.openings[i]) {
      OpeningGenuine(w, threshold, l, inbox, g, i);
    }
  }

  lemma OpeningGenuine(w: World, threshold: nat, l: Local, inbox: seq<Message>, g: Gathered, i: nat)
    requires Exchanged(w, threshold, l, inbox, g) && i < |g.openings|
    ensures Genuine(w, l, inbox, g.openings[i])
  {
    var c, rest := g.openings[i], inbox[|g.commitments| - 1..];
    assert c in g.openings;
    if i > 0 {
      assert Devices(g.openings)[0] != Devices(g.openings)[i];
      assert g.openings[1..][i - 1] == c && rest[i - 1].body == Some(c);
      assert Welcome(w, Reveal, Some(PriorOf(g.commitments)), rest[i - 1]);
      assert rest[i - 1] in inbox && Authentic(w, rest[i - 1], c);
    }
  }
}
