/** Why the exchanges fail: every error names a true defect, of the device itself, of the
    first message that is missing or at fault, or of what was gathered. */
module DkdRefusal {
  import opened Common
  import opened Ordering
  import opened Dkd
  import opened DkdAdmission

  /** The field of a contribution that does not fit. */
  predicate Misfit(w: World, phase: Phase, c: Contribution, e: DkdError) {
    match e
    case UnknownContributor => c.device !in w.context.participants
    case UnknownSigner => c.device !in w.signers
    case KeyMismatch => c.device in w.signers && c.keyId != w.signers[c.device].keyId
    case WrongPhase => c.phase != phase
    case WrongVersion => c.version != DKD_CONTRIBUTION_PROTOCOL_VERSION
    case ReplayDetected => c.timestamp < w.context.epoch
    case MissingSignature => c.signature == []
    case CommitmentMismatch => c.commitment != w.crypto.hash(c.randomness)
    case _ => false
  }

  /** The order in which they are looked at. */
  function MisfitRank(e: DkdError): nat {
    match e
    case UnknownContributor => 0
    case UnknownSigner => 1
    case KeyMismatch => 2
    case WrongPhase => 3
    case WrongVersion => 4
    case ReplayDetected => 5
    case MissingSignature => 6
    case _ => 7
  }

  lemma ValidateRefusal(w: World, phase: Phase, c: Contribution)
    requires Validate(w, phase, c).Some?
    ensures Misfit(w, phase, c, Validate(w, phase, c).value)
    ensures forall e :: Misfit(w, phase, c, e) ==> MisfitRank(Validate(w, phase, c).value) <= MisfitRank(e)
  {
  }

  // ---------------------------------------------------------------- receiving

  function HeardBy(inbox: seq<Message>, k: nat): set<DeviceId>
    requires k <= |inbox|
  {
    set i | 0 <= i < k && inbox[i].body.Some? :: inbox[i].body.value.device
  }

  /** The first `k` messages are welcome; the next is missing or at fault. */
  predicate Stalled(w: World, phase: Phase, prior: Prior, seen: set<DeviceId>, inbox: seq<Message>, k: nat,
      e: DkdError) {
    && AllWelcome(w, phase, prior, seen, inbox, k)
    && if k == |inbox| then e == NetworkFailure
       else Fault(w, phase, prior, seen + HeardBy(inbox, k), inbox[k], e)
  }

  lemma HeardFirst(inbox: seq<Message>, k: nat)
    requires k < |inbox| && inbox[0].body.Some?
    ensures HeardBy(inbox, k + 1) == {inbox[0].body.value.device} + HeardBy(inbox[1..], k)
  {
    forall i | 0 <= i < k && inbox[1..][i].body.Some? ensures inbox[1..][i].body.value.device in HeardBy(inbox, k + 1) {
      assert inbox[1..][i] == inbox[i + 1];
    }
    forall i | 0 < i < k + 1 && inbox[i].body.Some? ensures inbox[i].body.value.device in HeardBy(inbox[1..], k) {
      assert inbox[i] == inbox[1..][i - 1];
    }
  }

  lemma {:induction false} ReceiveStalls(w: World, phase: Phase, prior: Prior, seen: set<DeviceId>,
      inbox: seq<Message>, n: nat) returns (k: nat)
    requires Receive(w, phase, prior, seen, inbox, n).Err?
    ensures k < n && Stalled(w, phase, prior, seen, inbox, k, Receive(w, phase, prior, seen, inbox, n).error)
    decreases n
  {
    k := 0;
    if inbox != [] {
      AcceptIff(w, phase, prior, seen, inbox[0]);
      if Accept(w, phase, prior, seen, inbox[0]).Ok? {
        var d, rest := inbox[0].body.value.device, inbox[1..];
        var j := ReceiveStalls(w, phase, prior, seen + {d}, rest, n - 1);
        k := j + 1;
        WelcomeTail(w, phase, prior, seen, inbox, k);
        HeardFirst(inbox, j);
        assert seen + HeardBy(inbox, k) == seen + {d} + HeardBy(rest, j);
      } else {
        AcceptRefusal(w, phase, prior, seen, inbox[0]);
        assert seen + HeardBy(inbox, 0) == seen;
      }
    }
  }

  // -------------------------------------------------------- the device itself

  /** Why a device cannot sign what it has to say. */
  predicate CannotSign(w: World, l: Local, phase: Phase, at: nat, e: DkdError) {
    match e
    case UnknownSigner => l.device !in w.signers
    case NoSigningKey => l.device in w.signers && w.signers[l.device].privateKey.None?
    case SigningFailed =>
      && l.device in w.signers && w.signers[l.device].privateKey.Some?
      && w.crypto.sign(Transcript(w.context, l.device, w.signers[l.device].keyId, w.crypto.hash(l.randomness), at,
                                  phase, DKD_CONTRIBUTION_PROTOCOL_VERSION),
                       w.signers[l.device].privateKey.value).None?
    case _ => false
  }

  lemma OwnRefusal(w: World, l: Local)
    requires OwnCommitment(w, l).Err?
    ensures CannotSign(w, l, Commitment, l.commitTime, OwnCommitment(w, l).error)
  {
  }

  lemma OpeningRefusal(w: World, l: Local, first: Contribution, opening: Contribution)
    requires IsOwn(w, l, Commitment, l.commitTime, first)
    requires opening == first.(phase := Reveal, version := DKD_CONTRIBUTION_PROTOCOL_VERSION,
                               timestamp := l.revealTime, signature := [])
    requires SignedAs(w, opening).Err?
    ensures CannotSign(w, l, Reveal, l.revealTime, SignedAs(w, opening).error)
  {
  }

  // ------------------------------------------------------------- what was gathered

  /** The `k`-th opening repeats a device or does not fit. */
  predicate Spoils(w: World, os: seq<Contribution>, k: nat, e: DkdError) {
    && k < |os|
    && ((e == DuplicateContributor && exists c <- os[..k] :: c.device == os[k].device) || Misfit(w, Reveal, os[k], e))
  }

  lemma {:induction false} UniqueRefusal(w: World, os: seq<Contribution>, i: nat, seen: set<DeviceId>) returns (k: nat)
    requires i <= |os| && Unique(w, Reveal, seen, os[i..]).Some?
    requires forall d <- seen :: exists c <- os[..i] :: c.device == d
    ensures Spoils(w, os, k, Unique(w, Reveal, seen, os[i..]).value)
    decreases |os| - i
  {
    assert os[i..][0] == os[i] && os[i..][1..] == os[i + 1..];
    k := i;
    if os[i].device !in seen {
      if Validate(w, Reveal, os[i]).Some? {
        ValidateRefusal(w, Reveal, os[i]);
      } else {
        assert os[..i + 1] == os[..i] + [os[i]];
        k := UniqueRefusal(w, os, i + 1, seen + {os[i].device});
      }
    }
  }

  // ------------------------------------------------------------ both exchanges

  /** What can go wrong once the commitments are in. */
  ghost predicate RevealFails(w: World, threshold: nat, l: Local, ms: seq<Contribution>, inbox: seq<Message>,
      e: DkdError) {
    || CannotSign(w, l, Reveal, l.revealTime, e)
    || (exists k: nat :: k < |w.context.participants| - 1 && Stalled(w, Reveal, Some(PriorOf(ms)), {}, inbox, k, e))
    || (exists os :: PhaseTwo(w, l, ms, inbox, os)
                     && ((exists k: nat :: Spoils(w, os, k, e)) || (e == ThresholdNotMet && |os| < threshold)))
  }

  ghost predicate CommitFails(w: World, l: Local, inbox: seq<Message>, e: DkdError) {
    || CannotSign(w, l, Commitment, l.commitTime, e)
    || exists k: nat :: k < ExpectedCommitments(w) && Stalled(w, Commitment, None, {}, inbox, k, e)
  }

  ghost predicate ExchangeFails(w: World, threshold: nat, l: Local, inbox: seq<Message>, e: DkdError) {
    || CommitFails(w, l, inbox, e)
    || exists ms :: PhaseOne(w, inbox, ms) && |ms| - 1 <= |inbox| && IsOwn(w, l, Commitment, l.commitTime, ms[0])
                    && RevealFails(w, threshold, l, ms, inbox[|ms| - 1..], e)
  }

  lemma RevealsRefusal(w: World, threshold: nat, l: Local, ms: seq<Contribution>, inbox: seq<Message>)
    requires ms != [] && IsOwn(w, l, Commitment, l.commitTime, ms[0]) && |w.context.participants| > 0
    requires Reveals(w, l, ms, inbox).Err?
    ensures RevealFails(w, threshold, l, ms, inbox, Reveals(w, l, ms, inbox).error)
  {
    var opening := ms[0].(phase := Reveal, version := DKD_CONTRIBUTION_PROTOCOL_VERSION, timestamp := l.revealTime,
                          signature := []);
    if SignedAs(w, opening).Err? {
      OpeningRefusal(w, l, ms[0], opening);
    } else {
      var k := ReceiveStalls(w, Reveal, Some(PriorOf(ms)), {}, inbox, |w.context.participants| - 1);
    }
  }

  lemma GateRefusal(w: World, threshold: nat, l: Local, ms: seq<Contribution>, inbox: seq<Message>, e: DkdError)
    requires ms != [] && IsOwn(w, l, Commitment, l.commitTime, ms[0]) && |w.context.participants| > 0
    requires Reveals(w, l, ms, inbox).Ok?
    requires var os := Reveals(w, l, ms, inbox).value;
      || Unique(w, Reveal, {}, os) == Some(e)
      || (e == ThresholdNotMet && |os| < threshold)
    ensures RevealFails(w, threshold, l, ms, inbox, e)
  {
    var os := Reveals(w, l, ms, inbox).value;
    RevealsIff(w, l, ms, inbox, os);
    if Unique(w, Reveal, {}, os) == Some(e) {
      assert os[0..] == os;
      var k := UniqueRefusal(w, os, 0, {});
    }
  }

  /** For every inbox: the error the exchanges end with is a true one. */
  lemma GatherRefusal(w: World, threshold: nat, l: Local, inbox: seq<Message>)
    requires Gather(w, threshold, l, inbox).Err?
    ensures ExchangeFails(w, threshold, l, inbox, Gather(w, threshold, l, inbox).error)
  {
    var own := OwnCommitment(w, l);
    if own.Err? {
      OwnRefusal(w, l);
    } else if Commitments(w, own.value, inbox).Err? {
      var k := ReceiveStalls(w, Commitment, None, {}, inbox, ExpectedCommitments(w));
    } else {
      var ms := Commitments(w, own.value, inbox).value;
      OwnIff(w, l, own.value);
      CommitmentsIff(w, own.value, inbox, ms);
      CommitmentsGathered(w, own.value, inbox);
      LaterRefusal(w, threshold, l, inbox, ms, inbox[|ms| - 1..]);
    }
  }

  lemma LaterRefusal(w: World, threshold: nat, l: Local, inbox: seq<Message>, ms: seq<Contribution>,
      rest: seq<Message>)
    requires OwnCommitment(w, l).Ok? && Commitments(w, OwnCommitment(w, l).value, inbox) == Ok(ms)
    requires 0 < |ms| <= |inbox| + 1 && rest == inbox[|ms| - 1..] && |w.context.participants| > 0
    requires IsOwn(w, l, Commitment, l.commitTime, ms[0]) && Gather(w, threshold, l, inbox).Err?
    ensures RevealFails(w, threshold, l, ms, rest, Gather(w, threshold, l, inbox).error)
  {
    if Reveals(w, l, ms, rest).Err? {
      RevealsRefusal(w, threshold, l, ms, rest);
    } else {
      GateRefusal(w, threshold, l, ms, rest, Gather(w, threshold, l, inbox).error);
    }
  }
}
