/** Anti-entropy merge: attested tree operations are verified against the known
    state they name as parent, applied, and the result becomes a known state.
    Signature checking, structural application and hashing are parameters
    (`Rules`); everything the handler itself decides is modelled. */
module AntiEntropy {
  import opened Common

  type Hash = nat
  type NodeIndex = nat
  type LeafId = nat
  type Key = (nat, Hash)

  datatype TreeOpKind =
    | AddLeaf(under: NodeIndex)
    | RemoveLeaf(leaf: LeafId)
    | ChangePolicy(node: NodeIndex)
    | RotateEpoch(affected: seq<NodeIndex>)

  /** `payload` stands for the fields the handler never looks at (leaf data,
      aggregate signature, signer count). */
  datatype AttestedOp = AttestedOp(parentEpoch: nat, parentCommitment: Hash, kind: TreeOpKind, payload: nat)

  datatype TreeState = TreeState(epoch: nat, commitment: Hash, leafParent: map<LeafId, NodeIndex>, body: nat)

  /** The code the handler calls but does not contain. */
  datatype Rules = Rules(
    fingerprint: AttestedOp -> Option<Hash>,
    attested: (TreeState, AttestedOp, NodeIndex) -> bool,
    apply: (TreeState, AttestedOp) -> Option<TreeState>)

  datatype SyncError =
    | ParentEpoch | ParentCommitment | TargetNode | AttestedOpRejected | ApplyFailed
    | OplogParentChain | RemoteParentChain
    | Fingerprint | BatchReplay | Replay

  type Known = map<Key, TreeState>

  function StateKey(s: TreeState): Key { (s.epoch, s.commitment) }

  function ParentKey(op: AttestedOp): Key { (op.parentEpoch, op.parentCommitment) }

  function TargetNodeOf(s: TreeState, op: AttestedOp): Option<NodeIndex> {
    match op.kind
    case AddLeaf(under) => Some(under)
    case RemoveLeaf(leaf) => if leaf in s.leafParent then Some(s.leafParent[leaf]) else None
    case ChangePolicy(node) => Some(node)
    case RotateEpoch(affected) => if affected == [] then None else Some(affected[0])
  }

  /** `verify_operation` followed by `advance_state`. */
  function Admit(r: Rules, s: TreeState, op: AttestedOp): Result<TreeState, SyncError> {
    if op.parentEpoch != s.epoch then Err(ParentEpoch)
    else if op.parentCommitment != s.commitment then Err(ParentCommitment)
    else match TargetNodeOf(s, op)
      case None => Err(TargetNode)
      case Some(node) =>
        if !r.attested(s, op, node) then Err(AttestedOpRejected)
        else match r.apply(s, op)
          case None => Err(ApplyFailed)
          case Some(next) => Ok(next)
  }

  datatype Trial = Deferred | Refused(error: SyncError) | Admitted(state: TreeState)

  function Try(r: Rules, known: Known, op: AttestedOp): Trial {
    if ParentKey(op) !in known then Deferred
    else match Admit(r, known[ParentKey(op)], op)
      case Err(e) => Refused(e)
      case Ok(s) => Admitted(s)
  }

  function Learn(known: Known, s: TreeState): Known { known[StateKey(s) := s] }

  function Genesis(anchor: TreeState): Known { map[StateKey(anchor) := anchor] }

  // ---------------------------------------------------------------- worklist

  datatype Verdict = Done | Orphaned | Rejected(error: SyncError)

  /** `accepted` in the order applied, `left` whatever was not applied. */
  datatype Outcome = Outcome(known: Known, accepted: seq<AttestedOp>, left: seq<AttestedOp>, verdict: Verdict)

  function Prefixed(accepted: seq<AttestedOp>, left: seq<AttestedOp>, o: Outcome): Outcome {
    o.(accepted := accepted + o.accepted, left := left + o.left)
  }

  /** One sweep over the pending operations. */
  function Pass(r: Rules, known: Known, ops: seq<AttestedOp>): (o: Outcome)
    ensures |o.accepted| + |o.left| == |ops|
    ensures !o.verdict.Orphaned?
    decreases ops
  {
    if ops == [] then Outcome(known, [], [], Done)
    else
      match Try(r, known, ops[0])
      case Deferred => Prefixed([], [ops[0]], Pass(r, known, ops[1..]))
      case Refused(e) => Outcome(known, [], ops, Rejected(e))
      case Admitted(s) => Prefixed([ops[0]], [], Pass(r, Learn(known, s), ops[1..]))
  }

  /** Sweeps until nothing is pending, an operation is refused, or a sweep
      applies nothing. */
  function Worklist(r: Rules, known: Known, pending: seq<AttestedOp>): (o: Outcome)
    decreases |pending|
  {
    if pending == [] then Outcome(known, [], [], Done)
    else
      var p := Pass(r, known, pending);
      if p.verdict.Rejected? then p
      else if p.accepted == [] then p.(verdict := Orphaned)
      else Prefixed(p.accepted, [], Worklist(r, p.known, p.left))
  }

  /** The order-free partner of the worklist: every operation in turn finds its
      parent known, verifies and applies. */
  function Chain(r: Rules, known: Known, ops: seq<AttestedOp>): Option<Known>
    decreases ops
  {
    if ops == [] then Some(known)
    else
      match Try(r, known, ops[0])
      case Admitted(s) => Chain(r, Learn(known, s), ops[1..])
      case _ => None
  }

  // ----------------------------------------------- the handler's own programs

  function ChainFailure(v: Verdict, orphan: SyncError): SyncError
    requires !v.Done?
  {
    if v.Orphaned? then orphan else v.error
  }

  function BuildKnown(r: Rules, anchor: TreeState, ops: seq<AttestedOp>): Result<Known, SyncError> {
    var o := Worklist(r, Genesis(anchor), ops);
    if o.verdict.Done? then Ok(o.known) else Err(ChainFailure(o.verdict, OplogParentChain))
  }

  lemma PrefixedTwice(a: seq<AttestedOp>, b: seq<AttestedOp>, x: seq<AttestedOp>, y: seq<AttestedOp>, o: Outcome)
    ensures Prefixed(a, b, Prefixed(x, y, o)) == Prefixed(a + x, b + y, o)
    ensures a + [] == a && b + [] == b
  {
    assert a + (x + o.accepted) == (a + x) + o.accepted;
    assert b + (y + o.left) == (b + y) + o.left;
  }

  /** Moving the head of a sweep into what has been collected so far. */
  lemma PassHead(r: Rules, known: Known, ops: seq<AttestedOp>, accepted: seq<AttestedOp>, left: seq<AttestedOp>)
    requires ops != []
    ensures var t, whole := Try(r, known, ops[0]), Prefixed(accepted, left, Pass(r, known, ops));
      && (t.Deferred? ==> whole == Prefixed(accepted, left + [ops[0]], Pass(r, known, ops[1..])))
      && (t.Refused? ==> whole == Outcome(known, accepted, left + ops, Rejected(t.error)))
      && (t.Admitted? ==> whole == Prefixed(accepted + [ops[0]], left, Pass(r, Learn(known, t.state), ops[1..])))
  {
    var head := [ops[0]];
    match Try(r, known, ops[0])
    case Deferred => PrefixedTwice(accepted, left, [], head, Pass(r, known, ops[1..]));
    case Refused(_) => assert accepted + [] == accepted;
    case Admitted(s) => PrefixedTwice(accepted, left, head, [], Pass(r, Learn(known, s), ops[1..]));
  }

  /** The inner loop that both programs share. */
  method Sweep(r: Rules, start: Known, pending: seq<AttestedOp>)
    returns (known: Known, accepted: seq<AttestedOp>, nextPending: seq<AttestedOp>, refused: Option<SyncError>)
    ensures var p := Pass(r, start, pending);
      && known == p.known && accepted == p.accepted
      && (refused.None? ==> p.verdict.Done? && nextPending == p.left)
      && (refused.Some? ==> p.verdict == Rejected(refused.value))
  {
    known, accepted, nextPending, refused := start, [], [], None;
    for i := 0 to |pending|
      invariant Pass(r, start, pending) == Prefixed(accepted, nextPending, Pass(r, known, pending[i..]))
    {
      var op := pending[i];
      assert pending[i..][0] == op && pending[i..][1..] == pending[i + 1..];
      PassHead(r, known, pending[i..], accepted, nextPending);
      match Try(r, known, op)
      case Deferred =>
        nextPending := nextPending + [op];
      case Refused(e) =>
        return known, accepted, nextPending, Some(e);
      case Admitted(s) =>
        known := Learn(known, s);
        accepted := accepted + [op];
    }
  }

  /** The outer loop that both programs share. */
  method Drain(r: Rules, start: Known, batch: seq<AttestedOp>)
    returns (known: Known, accepted: seq<AttestedOp>, verdict: Verdict)
    ensures var o := Worklist(r, start, batch);
      known == o.known && accepted == o.accepted && verdict == o.verdict
  {
    var pending := batch;
    known, accepted := start, [];
    while pending != []
      invariant Worklist(r, start, batch) == Prefixed(accepted, [], Worklist(r, known, pending))
      decreases |pending|
    {
      var next, swept, nextPending, refused := Sweep(r, known, pending);
      PrefixedTwice(accepted, [], swept, [], Worklist(r, next, nextPending));
      accepted := accepted + swept;
      known := next;
      if refused.Some? {
        return known, accepted, Rejected(refused.value);
      }
      if swept == [] {
        return known, accepted, Orphaned;
      }
      pending := nextPending;
    }
    verdict := Done;
  }

  method BuildKnownStates(r: Rules, anchor: TreeState, ops: seq<AttestedOp>) returns (res: Result<Known, SyncError>)
    ensures res == BuildKnown(r, anchor, ops)
  {
    var known, _, verdict := Drain(r, Genesis(anchor), ops);
    res := if verdict.Done? then Ok(known) else Err(ChainFailure(verdict, OplogParentChain));
  }

  // --------------------------------------------------------- duplicate screen

  predicate HasFingerprints(r: Rules, ops: seq<AttestedOp>) {
    forall op <- ops :: r.fingerprint(op).Some?
  }

  function Prints(r: Rules, ops: seq<AttestedOp>): set<Hash> {
    set op | op in ops && r.fingerprint(op).Some? :: r.fingerprint(op).value
  }

  predicate DistinctPrints(r: Rules, ops: seq<AttestedOp>) {
    forall i, j :: 0 <= i < j < |ops| ==> r.fingerprint(ops[i]) != r.fingerprint(ops[j])
  }

  /** What the two fingerprint sets of `merge_remote_ops` decide. */
  predicate Fresh(r: Rules, oplog: seq<AttestedOp>, batch: seq<AttestedOp>) {
    && HasFingerprints(r, batch)
    && DistinctPrints(r, batch)
    && Prints(r, batch) !! Prints(r, oplog)
  }

  /** The first offence, in batch order; `seen` are the batch's earlier prints. */
  function Screen(r: Rules, existing: set<Hash>, seen: set<Hash>, batch: seq<AttestedOp>): Option<SyncError>
    decreases batch
  {
    if batch == [] then None
    else match r.fingerprint(batch[0])
      case None => Some(Fingerprint)
      case Some(h) =>
        if h in seen then Some(BatchReplay)
        else if h in existing then Some(Replay)
        else Screen(r, existing, seen + {h}, batch[1..])
  }

  // -------------------------------------------------------------------- merge

  /** `known` is the map the merge held when it stopped, `oplog` the log it left. */
  datatype Merged = Merged(known: Known, oplog: seq<AttestedOp>, result: Result<(), SyncError>)

  function Merge(r: Rules, anchor: TreeState, oplog: seq<AttestedOp>, batch: seq<AttestedOp>): Merged {
    match BuildKnown(r, anchor, oplog)
    case Err(e) => Merged(Genesis(anchor), oplog, Err(e))
    case Ok(known) =>
      if !HasFingerprints(r, oplog) then Merged(known, oplog, Err(Fingerprint))
      else match Screen(r, Prints(r, oplog), {}, batch)
        case Some(e) => Merged(known, oplog, Err(e))
        case None =>
          var o := Worklist(r, known, batch);
          Merged(o.known, oplog + o.accepted,
                 if o.verdict.Done? then Ok(()) else Err(ChainFailure(o.verdict, RemoteParentChain)))
  }

  class AntiEntropyHandler {
    const rules: Rules
    const anchor: TreeState
    var oplog: seq<AttestedOp>

    constructor (rules: Rules, anchor: TreeState)
      ensures this.rules == rules && this.anchor == anchor && oplog == []
    {
      this.rules := rules;
      this.anchor := anchor;
      oplog := [];
    }

    /** Operations pushed before an error stay in the log, as in the source. */
    method MergeRemoteOps(ops: seq<AttestedOp>) returns (res: Result<(), SyncError>)
      modifies this
      ensures res == Merge(rules, anchor, old(oplog), ops).result
      ensures oplog == Merge(rules, anchor, old(oplog), ops).oplog
    {
      var built := BuildKnownStates(rules, anchor, oplog);
      if built.Err? {
        return Err(built.error);
      }
      var known := built.value;
      if exists op <- oplog :: rules.fingerprint(op).None? {
        return Err(Fingerprint);
      }
      var existing := Prints(rules, oplog);
      ghost var logged := existing;
      var batchPrints: set<Hash> := {};
      var pending: seq<AttestedOp> := [];
      for i := 0 to |ops|
        invariant pending == ops[..i]
        invariant existing == logged + batchPrints
        invariant Screen(rules, logged, {}, ops) == Screen(rules, logged, batchPrints, ops[i..])
      {
        assert ops[i..][0] == ops[i] && ops[i..][1..] == ops[i + 1..];
        match rules.fingerprint(ops[i])
        case None =>
          return Err(Fingerprint);
        case Some(mark) =>
          if mark in batchPrints {
            return Err(BatchReplay);
          }
          batchPrints := batchPrints + {mark};
          if mark in existing {
            return Err(Replay);
          }
          existing := existing + {mark};
          pending := pending + [ops[i]];
      }
      assert pending == ops;
      var _, accepted, verdict := Drain(rules, known, pending);
      oplog := oplog + accepted;
      res := if verdict.Done? then Ok(()) else Err(ChainFailure(verdict, RemoteParentChain));
    }
  }
}
