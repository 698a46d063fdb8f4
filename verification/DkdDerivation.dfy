/** The key-derivation input, and the coordinator's session table. */
module DkdDerivation {
  import opened Common
  import opened Ordering
  import opened Dkd
  import opened DkdAdmission
  import opened Quorum

  // ------------------------------------------------------------- the KDF input

  function LittleEndian(n: nat, width: nat): (b: Bytes)
    ensures |b| == width
    decreases width
  {
    if width == 0 then [] else [(n % 256) as byte] + LittleEndian(n / 256, width - 1)
  }

  function Prefix(ctx: Context): Bytes { ctx.app + ctx.purpose + LittleEndian(ctx.epoch, 8) }

  function DeviceOf(c: Contribution): Bytes { c.device }

  function Encode(cs: seq<Contribution>): Bytes {
    if cs == [] then [] else cs[0].randomness + cs[0].device + Encode(cs[1..])
  }

  /** Session context, then randomness and device id of every contribution in
      order of device id. */
  function CombinedInput(ctx: Context, cs: seq<Contribution>): Bytes {
    Prefix(ctx) + Encode(StableSort(DeviceOf, cs))
  }

  method CombineContributions(ctx: Context, cs: seq<Contribution>) returns (input: Bytes)
    ensures input == CombinedInput(ctx, cs)
  {
    input := ctx.app;
    input := input + ctx.purpose;
    input := input + LittleEndian(ctx.epoch, 8);
    var sorted := StableSort(DeviceOf, cs);
    assert sorted[0..] == sorted;
    for i := 0 to |sorted|
      invariant input + Encode(sorted[i..]) == CombinedInput(ctx, cs)
    {
      assert sorted[i..][0] == sorted[i] && sorted[i..][1..] == sorted[i + 1..];
      ghost var rest := Encode(sorted[i + 1..]);
      assert input + (sorted[i].randomness + sorted[i].device + rest) ==
        input + sorted[i].randomness + sorted[i].device + rest;
      input := input + sorted[i].randomness;
      input := input + sorted[i].device;
    }
    assert input + [] == input;
  }

  datatype Record = Record(device: DeviceId, randomness: Randomness)

  function RecordOf(c: Contribution): Record { Record(c.device, c.randomness) }

  function RecordDevice(r: Record): Bytes { r.device }

  function Project(cs: seq<Contribution>): (rs: seq<Record>)
    ensures |rs| == |cs|
  {
    seq(|cs|, i requires 0 <= i < |cs| => RecordOf(cs[i]))
  }

  function RecordSet(cs: seq<Contribution>): set<Record> { set c | c in cs :: RecordOf(c) }

  lemma ProjectElems(cs: seq<Contribution>)
    ensures Elems(Project(cs)) == RecordSet(cs)
  {
    forall r | r in RecordSet(cs) ensures r in Elems(Project(cs)) {
      var c :| c in cs && RecordOf(c) == r;
      var i :| 0 <= i < |cs| && cs[i] == c;
      assert Project(cs)[i] == r;
    }
  }

  lemma ProjectTail(cs: seq<Contribution>)
    requires cs != []
    ensures Project(cs) == [RecordOf(cs[0])] + Project(cs[1..])
  {
  }

  /** Records are 48 bytes wide, so the encoding can be cut up again. */
  lemma {:induction false} EncodeUnambiguous(a: seq<Contribution>, b: seq<Contribution>)
    ensures |Encode(a)| == 48 * |a|
    ensures Encode(a) == Encode(b) <==> Project(a) == Project(b)
    decreases a
  {
    if a == [] {
      assert b != [] ==> |Encode(b)| >= 48;
    } else {
      EncodeUnambiguous(a[1..], if b == [] then [] else b[1..]);
      if b != [] {
        var x, y := Encode(a), Encode(b);
        assert x[..32] == a[0].randomness && x[32..48] == a[0].device && x[48..] == Encode(a[1..]);
        assert y[..32] == b[0].randomness && y[32..48] == b[0].device && y[48..] == Encode(b[1..]);
        ProjectTail(a);
        ProjectTail(b);
        if Project(a) == Project(b) {
          assert Project(a)[0] == Project(b)[0] && Project(a)[1..] == Project(a[1..]) &&
            Project(b)[1..] == Project(b[1..]);
        }
      }
    }
  }

  /** Sorting distinct contributors keeps their records and lists them in order. */
  lemma SortedRecords(cs: seq<Contribution>)
    requires NoDup(Devices(cs))
    ensures var rs := Project(StableSort(DeviceOf, cs));
      SortedBy(RecordDevice, rs) && Elems(rs) == RecordSet(cs)
  {
    var sorted := StableSort(DeviceOf, cs);
    assert DistinctKeys(DeviceOf, cs) by {
      assert forall i :: 0 <= i < |cs| ==> Devices(cs)[i] == DeviceOf(cs[i]);
    }
    StableSortIsCanonical(DeviceOf, cs);
    CanonicalSorted(DeviceOf, cs);
    forall x, y | x in cs && y in cs && DeviceOf(x) == DeviceOf(y) ensures x == y {
      var i :| 0 <= i < |cs| && cs[i] == x;
      var j :| 0 <= j < |cs| && cs[j] == y;
      assert Devices(cs)[i] == Devices(cs)[j];
    }
    assert Elems(sorted) == Elems(cs);
    ProjectElems(sorted);
    assert RecordSet(sorted) == RecordSet(cs) by {
      assert forall c :: c in sorted <==> c in Elems(sorted);
      assert forall c :: c in cs <==> c in Elems(cs);
    }
    forall i, j | 0 <= i < j < |sorted|
      ensures Less(RecordDevice(Project(sorted)[i]), RecordDevice(Project(sorted)[j]))
    {
      assert Less(DeviceOf(sorted[i]), DeviceOf(sorted[j]));
    }
  }

  lemma RecordsIff(cs: seq<Contribution>, cs': seq<Contribution>)
    requires NoDup(Devices(cs)) && NoDup(Devices(cs'))
    ensures Encode(StableSort(DeviceOf, cs)) == Encode(StableSort(DeviceOf, cs')) <==> RecordSet(cs) == RecordSet(cs')
  {
    var a, b := StableSort(DeviceOf, cs), StableSort(DeviceOf, cs');
    SortedRecords(cs);
    SortedRecords(cs');
    EncodeUnambiguous(a, b);
    if RecordSet(cs) == RecordSet(cs') {
      SortedUnique(RecordDevice, Project(a), Project(b));
    }
  }

  /** Canonical and unambiguous: for one session, two sets of distinct
      contributors give the same input exactly when they are the same devices with
      the same randomness, whatever order the messages arrived in. */
  lemma KdfInputIdentifiesContributors(ctx: Context, cs: seq<Contribution>, cs': seq<Contribution>)
    requires NoDup(Devices(cs)) && NoDup(Devices(cs'))
    ensures CombinedInput(ctx, cs) == CombinedInput(ctx, cs') <==> RecordSet(cs) == RecordSet(cs')
  {
    RecordsIff(cs, cs');
    var n := |Prefix(ctx)|;
    assert CombinedInput(ctx, cs)[n..] == Encode(StableSort(DeviceOf, cs));
    assert CombinedInput(ctx, cs')[n..] == Encode(StableSort(DeviceOf, cs'));
  }

  // --------------------------------------------- what the input says about the session

  function Pow256(k: nat): nat { if k == 0 then 1 else 256 * Pow256(k - 1) }

  /** The number a string of bytes stands for, lowest byte first. */
  function Value(b: Bytes): nat { if b == [] then 0 else b[0] as nat + 256 * Value(b[1..]) }

  lemma {:induction false} ValueBound(b: Bytes)
    ensures Value(b) < Pow256(|b|)
  {
    if b != [] {
      ValueBound(b[1..]);
    }
  }

  /** What is lost above the width, as a multiple of the width's power. */
  lemma {:induction false} Excess(n: nat, width: nat) returns (q: nat)
    ensures n == q * Pow256(width) + Value(LittleEndian(n, width))
    decreases width
  {
    if width == 0 {
      q := n;
    } else {
      q := Excess(n / 256, width - 1);
      var low, p := Value(LittleEndian(n / 256, width - 1)), Pow256(width - 1);
      assert LittleEndian(n, width)[1..] == LittleEndian(n / 256, width - 1);
      assert n == 256 * (q * p + low) + n % 256;
      assert q * Pow256(width) == 256 * (q * p) by { assert Pow256(width) == 256 * p; Regroup(q, p); }
    }
  }

  lemma Regroup(q: nat, p: nat)
    ensures q * (256 * p) == 256 * (q * p)
  {
  }

  lemma EightBytes()
    ensures Pow256(8) == 0x1_0000_0000_0000_0000
  {
    assert Pow256(4) == 0x1_0000_0000;
    assert Pow256(6) == 0x1_0000_0000_0000;
  }

  lemma Remainder(n: nat, q: nat, r: nat)
    requires n == q * 0x1_0000_0000_0000_0000 + r && r < 0x1_0000_0000_0000_0000
    ensures n % 0x1_0000_0000_0000_0000 == r
  {
  }

  /** Eight bytes encode a number modulo 2^64, lowest byte first. */
  lemma LittleEndianDecodes(n: nat)
    ensures Value(LittleEndian(n, 8)) == n % 0x1_0000_0000_0000_0000
  {
    EightBytes();
    ValueBound(LittleEndian(n, 8));
    var q := Excess(n, 8);
    Remainder(n, q, Value(LittleEndian(n, 8)));
  }

  lemma {:induction false} ValueInjective(a: Bytes, b: Bytes)
    requires |a| == |b| && Value(a) == Value(b)
    ensures a == b
    decreases a
  {
    if a != [] {
      assert a[0] == b[0] && Value(a[1..]) == Value(b[1..]);
      ValueInjective(a[1..], b[1..]);
      assert a == [a[0]] + a[1..] && b == [b[0]] + b[1..];
    }
  }

  lemma SameEpochIff(m: nat, n: nat)
    ensures LittleEndian(m, 8) == LittleEndian(n, 8) <==>
            m % 0x1_0000_0000_0000_0000 == n % 0x1_0000_0000_0000_0000
  {
    LittleEndianDecodes(m);
    LittleEndianDecodes(n);
    if Value(LittleEndian(m, 8)) == Value(LittleEndian(n, 8)) {
      ValueInjective(LittleEndian(m, 8), LittleEndian(n, 8));
    }
  }

  lemma {:induction false} EncodedAt(cs: seq<Contribution>, k: nat)
    requires k < |cs|
    ensures |Encode(cs)| == 48 * |cs|
    ensures Encode(cs)[48 * k..48 * k + 32] == cs[k].randomness
    ensures Encode(cs)[48 * k + 32..48 * k + 48] == cs[k].device
    decreases cs
  {
    EncodeUnambiguous(cs, cs);
    if k > 0 {
      EncodedAt(cs[1..], k - 1);
      var x, y := Encode(cs), Encode(cs[1..]);
      assert x[48..] == y;
      assert x[48 * k..48 * k + 32] == y[48 * (k - 1)..48 * (k - 1) + 32];
      assert x[48 * k + 32..48 * k + 48] == y[48 * (k - 1) + 32..48 * (k - 1) + 48];
    }
  }

  /** The records follow the device order, one for each contribution. */
  lemma RecordsInOrder(cs: seq<Contribution>)
    requires NoDup(Devices(cs))
    ensures StableSort(DeviceOf, cs) == Canonical(DeviceOf, cs)
    ensures |StableSort(DeviceOf, cs)| == |cs|
  {
    assert DistinctKeys(DeviceOf, cs) by {
      assert forall i :: 0 <= i < |cs| ==> Devices(cs)[i] == DeviceOf(cs[i]);
    }
    StableSortIsCanonical(DeviceOf, cs);
    StableSortKeeps(DeviceOf, cs);
    assert |multiset(StableSort(DeviceOf, cs))| == |multiset(cs)|;
  }

  lemma Parts(a: Bytes, p: Bytes, e: Bytes, rest: Bytes)
    ensures (a + p + e + rest)[..|a|] == a
    ensures (a + p + e + rest)[|a|..|a| + |p|] == p
    ensures (a + p + e + rest)[|a| + |p|..|a| + |p| + |e|] == e
  {
  }

  /** Where the session is: the application, the purpose, then eight bytes of epoch. */
  lemma SessionLayout(ctx: Context, cs: seq<Contribution>)
    ensures |CombinedInput(ctx, cs)| >= |ctx.app| + |ctx.purpose| + 8
    ensures CombinedInput(ctx, cs)[..|ctx.app|] == ctx.app
    ensures CombinedInput(ctx, cs)[|ctx.app|..|ctx.app| + |ctx.purpose|] == ctx.purpose
    ensures Value(CombinedInput(ctx, cs)[|ctx.app| + |ctx.purpose|..|ctx.app| + |ctx.purpose| + 8])
            == ctx.epoch % 0x1_0000_0000_0000_0000
  {
    LittleEndianDecodes(ctx.epoch);
    Parts(ctx.app, ctx.purpose, LittleEndian(ctx.epoch, 8), Encode(StableSort(DeviceOf, cs)));
  }

  lemma EncodedAfter(x: Bytes, cs: seq<Contribution>, k: nat, at: nat)
    requires k < |cs| && at == |x| + 48 * k
    ensures |x + Encode(cs)| == |x| + 48 * |cs|
    ensures (x + Encode(cs))[at..at + 32] == cs[k].randomness
    ensures (x + Encode(cs))[at + 32..at + 48] == cs[k].device
  {
    EncodedAt(cs, k);
    var y := Encode(cs);
    assert (x + y)[at..at + 32] == y[48 * k..48 * k + 32];
    assert (x + y)[at + 32..at + 48] == y[48 * k + 32..48 * k + 48];
  }

  /** Where the contributions are: after the session 48 bytes for each, in the order of
      the devices, randomness first. */
  lemma RecordLayout(ctx: Context, cs: seq<Contribution>, k: nat)
    requires NoDup(Devices(cs)) && k < |cs|
    ensures |Canonical(DeviceOf, cs)| == |cs|
    ensures |CombinedInput(ctx, cs)| == |ctx.app| + |ctx.purpose| + 8 + 48 * |cs|
    ensures var at := |ctx.app| + |ctx.purpose| + 8 + 48 * k;
      && CombinedInput(ctx, cs)[at..at + 32] == Canonical(DeviceOf, cs)[k].randomness
      && CombinedInput(ctx, cs)[at + 32..at + 48] == Canonical(DeviceOf, cs)[k].device
  {
    RecordsInOrder(cs);
    assert |Prefix(ctx)| == |ctx.app| + |ctx.purpose| + 8;
    EncodedAfter(Prefix(ctx), Canonical(DeviceOf, cs), k, |ctx.app| + |ctx.purpose| + 8 + 48 * k);
  }

  /** Two inputs whose contexts take up as much room, over distinct contributors, agree
      exactly when application and purpose read the same one after the other, the
      epochs agree modulo 2^64, and so do the contributions. */
  lemma KdfInputIdentifiesSession(ctx: Context, ctx': Context, cs: seq<Contribution>, cs': seq<Contribution>)
    requires NoDup(Devices(cs)) && NoDup(Devices(cs'))
    requires |ctx.app + ctx.purpose| == |ctx'.app + ctx'.purpose|
    ensures CombinedInput(ctx, cs) == CombinedInput(ctx', cs') <==>
            && ctx.app + ctx.purpose == ctx'.app + ctx'.purpose
            && ctx.epoch % 0x1_0000_0000_0000_0000 == ctx'.epoch % 0x1_0000_0000_0000_0000
            && RecordSet(cs) == RecordSet(cs')
    ensures |ctx.app| == |ctx'.app| ==>
      (ctx.app + ctx.purpose == ctx'.app + ctx'.purpose <==> ctx.app == ctx'.app && ctx.purpose == ctx'.purpose)
  {
    var x, y, p := CombinedInput(ctx, cs), CombinedInput(ctx', cs'), |ctx.app + ctx.purpose|;
    var records, records' := Encode(StableSort(DeviceOf, cs)), Encode(StableSort(DeviceOf, cs'));
    SameEpochIff(ctx.epoch, ctx'.epoch);
    assert x[..p] == ctx.app + ctx.purpose && x[p..p + 8] == LittleEndian(ctx.epoch, 8) && x[p + 8..] == records;
    assert y[..p] == ctx'.app + ctx'.purpose && y[p..p + 8] == LittleEndian(ctx'.epoch, 8) && y[p + 8..] == records';
    assert x == x[..p] + x[p..p + 8] + x[p + 8..] && y == y[..p] + y[p..p + 8] + y[p + 8..];
    RecordsIff(cs, cs');
    if |ctx.app| == |ctx'.app| {
      assert (ctx.app + ctx.purpose)[..|ctx.app|] == ctx.app && (ctx.app + ctx.purpose)[|ctx.app|..] == ctx.purpose;
      assert (ctx'.app + ctx'.purpose)[..|ctx.app|] == ctx'.app;
      assert (ctx'.app + ctx'.purpose)[|ctx.app|..] == ctx'.purpose;
    }
  }

  /** The boundary between application and purpose is not marked: a byte may move from
      one to the other without changing the input. */
  lemma BoundaryUnmarked(cs: seq<Contribution>)
    ensures CombinedInput(Context("s", [1], [2], [], 0), cs) == CombinedInput(Context("s", [1, 2], [], [], 0), cs)
  {
    var one, two, none: Bytes := [1], [2], [];
    assert one + two == [1, 2] + none;
  }

  /** Every opening carries the commitment its device made, and hashes to it. */
  lemma OpeningAt(w: World, threshold: nat, l: Local, g: Gathered, i: nat)
    requires Obtained(w, threshold, l, g) && i < |g.openings|
    ensures var c := g.openings[i];
      c.device in PriorOf(g.commitments) &&
        PriorOf(g.commitments)[c.device] == c.commitment == w.crypto.hash(c.randomness)
  {
    ObtainedCommittedOnce(w, threshold, l, g);
    assert g.openings[i] in g.openings;
    if i == 0 {
      PriorAt(g.commitments, 0);
    } else {
      assert g.openings[i] in g.openings[1..];
    }
  }

  /** The opening of a device that took part. */
  lemma OpeningOf(w: World, threshold: nat, l: Local, g: Gathered, d: DeviceId) returns (i: nat)
    requires Obtained(w, threshold, l, g) && d in w.context.participants
    ensures i < |g.openings| && g.openings[i].device == d
  {
    ObtainedFromAll(w, threshold, l, g);
    assert d in Elems(w.context.participants);
    ElemsDevices(g.openings, d);
    i :| 0 <= i < |g.openings| && g.openings[i].device == d;
  }

  lemma SamePriorsSameRecords(w: World, w': World, threshold: nat, l: Local, l': Local, g: Gathered, g': Gathered)
    requires Obtained(w, threshold, l, g) && Obtained(w', threshold, l', g')
    requires w.context == w'.context && w.crypto == w'.crypto && CollisionFree(w.crypto)
    requires PriorOf(g.commitments) == PriorOf(g'.commitments)
    ensures RecordSet(g.openings) <= RecordSet(g'.openings)
  {
    forall r | r in RecordSet(g.openings) ensures r in RecordSet(g'.openings) {
      var c :| c in g.openings && RecordOf(c) == r;
      var i :| 0 <= i < |g.openings| && g.openings[i] == c;
      var j := OpeningOf(w', threshold, l', g', c.device);
      OpeningAt(w, threshold, l, g, i);
      OpeningAt(w', threshold, l', g', j);
      assert g'.openings[j] in g'.openings && RecordOf(g'.openings[j]) == r;
    }
  }

  lemma SameRecordsSamePriors(w: World, w': World, threshold: nat, l: Local, l': Local, g: Gathered, g': Gathered)
    requires Obtained(w, threshold, l, g) && Obtained(w', threshold, l', g')
    requires w.context == w'.context && w.crypto == w'.crypto
    requires RecordSet(g.openings) == RecordSet(g'.openings)
    ensures PriorOf(g.commitments) == PriorOf(g'.commitments)
  {
    var p, p' := PriorOf(g.commitments), PriorOf(g'.commitments);
    ObtainedFromAll(w, threshold, l, g);
    ObtainedFromAll(w', threshold, l', g');
    ObtainedCommittedOnce(w, threshold, l, g);
    ObtainedCommittedOnce(w', threshold, l', g');
    PriorKeys(g.commitments);
    PriorKeys(g'.commitments);
    assert p.Keys == p'.Keys;
    forall d | d in p ensures p[d] == p'[d] {
      assert d in Elems(w.context.participants);
      var i := OpeningOf(w, threshold, l, g, d);
      OpeningAt(w, threshold, l, g, i);
      assert RecordOf(g.openings[i]) in RecordSet(g.openings);
      var c :| c in g'.openings && RecordOf(c) == RecordOf(g.openings[i]);
      var j :| 0 <= j < |g'.openings| && g'.openings[j] == c;
      OpeningAt(w', threshold, l', g', j);
    }
  }

  /** Two devices that complete one session under a collision-free hash feed the KDF
      the same bytes exactly when they saw the same commitments, however the reveals
      arrived and whatever their signers. */
  lemma SameCommitmentsSameInput(w: World, w': World, threshold: nat, l: Local, l': Local, inbox: seq<Message>,
      inbox': seq<Message>)
    requires Gather(w, threshold, l, inbox).Ok? && Gather(w', threshold, l', inbox').Ok?
    requires w.context == w'.context && w.crypto == w'.crypto && CollisionFree(w.crypto)
    ensures var g, g' := Gather(w, threshold, l, inbox).value, Gather(w', threshold, l', inbox').value;
      CombinedInput(w.context, g.openings) == CombinedInput(w'.context, g'.openings) <==>
      PriorOf(g.commitments) == PriorOf(g'.commitments)
  {
    var g, g' := Gather(w, threshold, l, inbox).value, Gather(w', threshold, l', inbox').value;
    GatherObtains(w, threshold, l, inbox);
    GatherObtains(w', threshold, l', inbox');
    KdfInputIdentifiesContributors(w.context, g.openings, g'.openings);
    if PriorOf(g.commitments) == PriorOf(g'.commitments) {
      SamePriorsSameRecords(w, w', threshold, l, l', g, g');
      SamePriorsSameRecords(w', w, threshold, l', l, g', g);
    }
    if RecordSet(g.openings) == RecordSet(g'.openings) {
      SameRecordsSamePriors(w, w', threshold, l, l', g, g');
    }
  }

  // --------------------------------------------------------- the coordinator

  datatype SessionError =
    | BelowThreshold | TooManySessions | SessionNotFound
    | JournalFailure | CryptographicFailure | Protocol(error: DkdError)

  /** The KDF over the input, salted with the session and labelled with application and
      purpose; and the keyed proof over session, key and commitments. Both may fail. */
  datatype Kdf = Kdf(derive: (Bytes, string, Bytes, Bytes) -> Option<Bytes>,
      prove: (string, Bytes, seq<Hash>) -> Option<Bytes>)

  datatype AgreementMode = Provisional | CoordinatorSoftSafe | ConsensusFinalized

  /** `combine` hashes the concatenated commitments; the two flags are what the
      ceremony policy allows. */
  datatype Setup = Setup(
    crypto: Crypto, kdf: Kdf, combine: seq<Hash> -> Hash, threshold: nat,
    softSafeAllowed: bool, finalizationAllowed: bool, initialMode: AgreementMode)

  datatype DkdResult = DkdResult(
    session: string, key: Bytes, combinedCommitment: Hash, participantCount: u16, epoch: nat,
    proof: Bytes, mode: AgreementMode, reversionRisk: bool)

  function CommitmentsIn(cs: seq<Contribution>): seq<Hash> { seq(|cs|, i requires 0 <= i < |cs| => cs[i].commitment) }

  /** The result over the gathered openings, unless the derivation or its proof fails. */
  function ResultOf(s: Setup, mode: AgreementMode, ctx: Context, id: string,
      openings: seq<Contribution>): Option<DkdResult> {
    var key := s.kdf.derive(CombinedInput(ctx, openings), id, ctx.app, ctx.purpose);
    if key.None? then None
    else
      var proof := s.kdf.prove(id, key.value, CommitmentsIn(openings));
      var m := if s.finalizationAllowed then CoordinatorSoftSafe else mode;
      if proof.None? then None
      else Some(DkdResult(id, key.value, s.combine(CommitmentsIn(openings)), AsU16(|openings|), ctx.epoch, proof.value,
        m, m != ConsensusFinalized))
  }

  /** The loop of the proof and of the combined commitment. */
  method Committed(openings: seq<Contribution>) returns (commitments: seq<Hash>)
    ensures commitments == CommitmentsIn(openings)
  {
    commitments := [];
    for i := 0 to |openings|
      invariant commitments == CommitmentsIn(openings[..i])
    {
      commitments := commitments + [openings[i].commitment];
    }
    assert openings[..|openings|] == openings;
  }

  method DeriveResult(s: Setup, mode: AgreementMode, ctx: Context, id: string, openings: seq<Contribution>)
      returns (res: Option<DkdResult>)
    ensures res == ResultOf(s, mode, ctx, id, openings)
  {
    var input := CombineContributions(ctx, openings);
    var key := s.kdf.derive(input, id, ctx.app, ctx.purpose);
    if key.None? {
      return None;
    }
    var commitments := Committed(openings);
    var proof := s.kdf.prove(id, key.value, commitments);
    if proof.None? {
      return None;
    }
    var agreement := mode;
    if s.finalizationAllowed {
      agreement := CoordinatorSoftSafe;
    }
    res := Some(DkdResult(id, key.value, s.combine(commitments), AsU16(|openings|), ctx.epoch, proof.value, agreement,
      agreement != ConsensusFinalized));
  }

  /** One execution up to the result, before the session is closed. */
  function Execution(s: Setup, mode: AgreementMode, signers: Signers, sessions: map<string, Context>, id: string,
      l: Local, inbox: seq<Message>): Result<DkdResult, SessionError> {
    if l.device !in signers then Err(Protocol(UnknownSigner))
    else if signers[l.device].privateKey.None? then Err(Protocol(NoSigningKey))
    else if id !in sessions then Err(SessionNotFound)
    else
      match Gather(World(s.crypto, signers, sessions[id]), s.threshold, l, inbox)
      case Err(e) => Err(Protocol(e))
      case Ok(g) =>
        var result := ResultOf(s, mode, sessions[id], id, g.openings);
        if result.Some? then Ok(result.value) else Err(CryptographicFailure)
  }

  method Execute(s: Setup, mode: AgreementMode, signers: Signers, sessions: map<string, Context>, id: string, l: Local,
      inbox: seq<Message>) returns (res: Result<DkdResult, SessionError>)
    ensures res == Execution(s, mode, signers, sessions, id, l, inbox)
  {
    if l.device !in signers {
      return Err(Protocol(UnknownSigner));
    }
    if signers[l.device].privateKey.None? {
      return Err(Protocol(NoSigningKey));
    }
    if id !in sessions {
      return Err(SessionNotFound);
    }
    var got := RunExchanges(World(s.crypto, signers, sessions[id]), s.threshold, l, inbox);
    if got.Err? {
      return Err(Protocol(got.error));
    }
    var result := DeriveResult(s, mode, sessions[id], id, got.value.openings);
    res := if result.Some? then Ok(result.value) else Err(CryptographicFailure);
  }

  /** A result only ever comes from an open session, from one opening by each of its
      participants and nobody else, each genuine; its count is theirs, and it is final
      only in a ceremony that cannot be finalized by consensus. */
  lemma ResultNeedsEveryone(s: Setup, mode: AgreementMode, signers: Signers, sessions: map<string, Context>,
      id: string, l: Local, inbox: seq<Message>)
    requires Execution(s, mode, signers, sessions, id, l, inbox).Ok?
    ensures id in sessions && NoDup(sessions[id].participants) && |sessions[id].participants| >= s.threshold
    ensures exists openings ::
      && NoDup(Devices(openings)) && Elems(Devices(openings)) == Elems(sessions[id].participants)
      && (forall c <- openings :: Genuine(World(s.crypto, signers, sessions[id]), l, inbox, c))
      && ResultOf(s, mode, sessions[id], id, openings) ==
        Some(Execution(s, mode, signers, sessions, id, l, inbox).value)
    ensures var r := Execution(s, mode, signers, sessions, id, l, inbox).value;
      && r.participantCount == AsU16(|sessions[id].participants|)
      && (!r.reversionRisk <==> !s.finalizationAllowed && mode == ConsensusFinalized)
  {
    var w := World(s.crypto, signers, sessions[id]);
    FullParticipation(w, s.threshold, l, inbox);
    AuthenticParticipation(w, s.threshold, l, inbox);
    var openings := Gather(w, s.threshold, l, inbox).value.openings;
    assert ResultOf(s, mode, sessions[id], id, openings) ==
      Some(Execution(s, mode, signers, sessions, id, l, inbox).value);
  }

  class DkdProtocol {
    const setup: Setup
    const maxSessions: nat
    const app: Bytes
    const purpose: Bytes
    var sessions: map<string, Context>
    var signers: Signers
    var mode: AgreementMode

    ghost predicate Valid() reads this { |sessions| <= maxSessions }

    constructor (setup: Setup, maxSessions: nat, app: Bytes, purpose: Bytes)
      ensures Valid() && sessions == map[] && signers == map[] && mode == setup.initialMode
      ensures this.setup == setup && this.maxSessions == maxSessions && this.app == app && this.purpose == purpose
    {
      this.setup, this.maxSessions, this.app, this.purpose := setup, maxSessions, app, purpose;
      sessions, signers, mode := map[], map[], setup.initialMode;
    }

    /** Trusts a participant's key for verification; an earlier entry is replaced. */
    method RegisterVerificationKey(d: DeviceId, keyId: string, publicKey: Bytes)
      modifies this`signers
      ensures signers == old(signers)[d := Signer(keyId, publicKey, None)]
    {
      signers := signers[d := Signer(keyId, publicKey, None)];
    }

    method RegisterSigningKey(d: DeviceId, keyId: string, publicKey: Bytes, privateKey: Bytes)
      modifies this`signers
      ensures signers == old(signers)[d := Signer(keyId, publicKey, Some(privateKey))]
    {
      signers := signers[d := Signer(keyId, publicKey, Some(privateKey))];
    }

    /** The table is updated before the event is logged, so a journal failure
        leaves the session open. */
    method InitiateSession(participants: seq<DeviceId>, id: string, now: nat, journalOk: bool)
        returns (res: Result<string, SessionError>)
      requires Valid()
      modifies this
      ensures Valid() && signers == old(signers)
      ensures |participants| < setup.threshold ==>
        res == Err(BelowThreshold) && sessions == old(sessions) && mode == old(mode)
      ensures |participants| >= setup.threshold && |old(sessions)| >= maxSessions ==>
        res == Err(TooManySessions) && sessions == old(sessions) && mode == old(mode)
      ensures |participants| >= setup.threshold && |old(sessions)| < maxSessions ==>
        && mode == (if setup.softSafeAllowed then CoordinatorSoftSafe else old(mode))
        && sessions == old(sessions)[id := Context(id, app, purpose, participants, now)]
        && res == if journalOk then Ok(id) else Err(JournalFailure)
    {
      if |participants| < setup.threshold {
        return Err(BelowThreshold);
      }
      if |sessions| >= maxSessions {
        return Err(TooManySessions);
      }
      if setup.softSafeAllowed {
        mode := CoordinatorSoftSafe;
      }
      InsertCount(sessions, id, Context(id, app, purpose, participants, now));
      sessions := sessions[id := Context(id, app, purpose, participants, now)];
      if !journalOk {
        return Err(JournalFailure);
      }
      return Ok(id);
    }

    method CloseSession(id: string)
      requires Valid()
      modifies this`sessions
      ensures Valid() && sessions == old(sessions) - {id}
    {
      RemoveCount(sessions, id);
      sessions := sessions - {id};
    }

    /** The session closes exactly when a key was derived, even if the completion
        cannot be logged. */
    method ExecuteProtocol(id: string, l: Local, inbox: seq<Message>, journalOk: bool)
        returns (res: Result<DkdResult, SessionError>)
      requires Valid()
      modifies this`sessions
      ensures Valid()
      ensures var e := Execution(setup, mode, signers, old(sessions), id, l, inbox);
        && sessions == (if e.Ok? then old(sessions) - {id} else old(sessions))
        && res == if e.Ok? && !journalOk then Err(JournalFailure) else e
    {
      res := Execute(setup, mode, signers, sessions, id, l, inbox);
      if res.Ok? {
        CloseSession(id);
        if !journalOk {
          res := Err(JournalFailure);
        }
      }
    }
  }

  lemma InsertCount(m: map<string, Context>, id: string, c: Context)
    ensures |m[id := c]| <= |m| + 1
  {
    assert m[id := c].Keys == m.Keys + {id};
  }

  lemma RemoveCount(m: map<string, Context>, id: string)
    ensures |m - {id}| <= |m|
  {
    assert (m - {id}).Keys == m.Keys - {id};
    SubsetCount((m - {id}).Keys, m.Keys);
  }
}
