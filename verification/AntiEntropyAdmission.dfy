/** What it takes for an operation to be logged, said without the handler's own checks:
    a known parent, the target its kind names there, an attestation for that target,
    and a successful application. */
module AntiEntropyAdmission {
  import opened Common
  import opened AntiEntropy
  import opened AntiEntropyReplay
  import opened AntiEntropyConfluence

  /** The node an operation is about, in the state it names as parent. */
  predicate Targets(s: TreeState, op: AttestedOp, node: NodeIndex) {
    match op.kind
    case AddLeaf(under) => node == under
    case RemoveLeaf(leaf) => leaf in s.leafParent && s.leafParent[leaf] == node
    case ChangePolicy(changed) => node == changed
    case RotateEpoch(affected) => |affected| > 0 && affected[0] == node
  }

  ghost predicate Attested(r: Rules, s: TreeState, op: AttestedOp) {
    exists node :: Targets(s, op, node) && r.attested(s, op, node)
  }

  ghost predicate Admissible(r: Rules, s: TreeState, op: AttestedOp) {
    && op.parentEpoch == s.epoch && op.parentCommitment == s.commitment
    && Attested(r, s, op) && r.apply(s, op).Some?
  }

  /** The reason an operation is refused for, each ruling out the ones before. */
  ghost predicate Grounds(r: Rules, s: TreeState, op: AttestedOp, e: SyncError) {
    match e
    case ParentEpoch => op.parentEpoch != s.epoch
    case ParentCommitment => op.parentEpoch == s.epoch && op.parentCommitment != s.commitment
    case TargetNode => ParentKey(op) == StateKey(s) && !exists node :: Targets(s, op, node)
    case AttestedOpRejected =>
      ParentKey(op) == StateKey(s) && (exists node :: Targets(s, op, node)) && !Attested(r, s, op)
    case ApplyFailed => ParentKey(op) == StateKey(s) && Attested(r, s, op) && r.apply(s, op).None?
    case _ => false
  }

  lemma TargetUnique(s: TreeState, op: AttestedOp, node: NodeIndex)
    ensures TargetNodeOf(s, op) == Some(node) <==> Targets(s, op, node)
  {
  }

  /** Admission is exactly admissibility, its result is the application's, and each
      refusal has its one true reason. */
  lemma AdmitIff(r: Rules, s: TreeState, op: AttestedOp, e: SyncError)
    ensures Admit(r, s, op).Ok? <==> Admissible(r, s, op)
    ensures Admit(r, s, op).Ok? ==> Some(Admit(r, s, op).value) == r.apply(s, op)
    ensures Admit(r, s, op) == Err(e) <==> Grounds(r, s, op, e)
  {
    var target := TargetNodeOf(s, op);
    forall node: NodeIndex ensures Targets(s, op, node) <==> target == Some(node) {
      TargetUnique(s, op, node);
    }
    if target.Some? {
      assert Targets(s, op, target.value);
    }
  }

  /** The operation's parent is among the states, it is admissible there, and the state
      it leads to is among them too. */
  ghost predicate Vouched(r: Rules, known: Known, op: AttestedOp) {
    && ParentKey(op) in known
    && Admissible(r, known[ParentKey(op)], op)
    && var next := r.apply(known[ParentKey(op)], op).value;
       StateKey(next) in known && known[StateKey(next)] == next
  }

  lemma AbsorbedVouched(r: Rules, anchor: TreeState, known: Known, op: AttestedOp)
    requires KeysDetermine(r, anchor) && Sound(r, anchor, known) && Absorbed(r, known, op)
    ensures Vouched(r, known, op)
  {
    var s := known[ParentKey(op)];
    AdmitIff(r, s, op, ApplyFailed);
    var next := Try(r, known, op).state;
    StepReached(r, anchor, s, op);
    assert Reached(r, anchor, known[StateKey(next)]) && StateKey(known[StateKey(next)]) == StateKey(next);
  }

  /** The map before the `i`-th operation of a log. */
  function KnownBefore(r: Rules, anchor: TreeState, log: seq<AttestedOp>, i: nat): Option<Known>
    requires i <= |log|
  {
    Chain(r, Genesis(anchor), log[..i])
  }

  /** After any run of merges, failed ones included, every logged operation was
      admissible, for the state it names, at its own place in the log; and where a key
      determines its state, it still is in the map rebuilt from the whole log. */
  lemma LoggedWasAttested(r: Rules, anchor: TreeState, batches: seq<seq<AttestedOp>>, i: nat)
    requires i < |LogAfter(r, anchor, [], batches)|
    ensures var log := LogAfter(r, anchor, [], batches);
      && KnownBefore(r, anchor, log, i).Some? && BuildKnown(r, anchor, log).Ok?
      && ParentKey(log[i]) in KnownBefore(r, anchor, log, i).value
      && Admissible(r, KnownBefore(r, anchor, log, i).value[ParentKey(log[i])], log[i])
      && (KeysDetermine(r, anchor) ==> Vouched(r, BuildKnown(r, anchor, log).value, log[i]))
  {
    var log := LogAfter(r, anchor, [], batches);
    RunKeepsReplay(r, anchor, [], batches);
    ReplayableBuilds(r, anchor, log);
    assert log == log[..i] + log[i..];
    ChainAppend(r, Genesis(anchor), log[..i], log[i..]);
    var known := KnownBefore(r, anchor, log, i).value;
    assert Try(r, known, log[i]).Admitted?;
    AdmitIff(r, known[ParentKey(log[i])], log[i], ApplyFailed);
    if KeysDetermine(r, anchor) {
      var final := BuildKnown(r, anchor, log).value;
      GenesisSound(r, anchor);
      ChainAbsorbs(r, anchor, Genesis(anchor), log);
      ChainSound(r, anchor, Genesis(anchor), log);
      assert log[i] in log;
      AbsorbedVouched(r, anchor, final, log[i]);
    }
  }

  /** A batch of one operation with a false attestation: nothing is logged. */
  lemma ForgedRefused(r: Rules, anchor: TreeState, oplog: seq<AttestedOp>, op: AttestedOp)
    requires Replayable(r, anchor, oplog) && Fresh(r, oplog, [op])
    requires var known := Chain(r, Genesis(anchor), oplog).value;
      ParentKey(op) in known && StateKey(known[ParentKey(op)]) == ParentKey(op)
      && (exists node :: Targets(known[ParentKey(op)], op, node)) && !Attested(r, known[ParentKey(op)], op)
    ensures Merge(r, anchor, oplog, [op]).oplog == oplog
    ensures Merge(r, anchor, oplog, [op]).result == Err(AttestedOpRejected)
  {
    var known := Chain(r, Genesis(anchor), oplog).value;
    ReplayableBuilds(r, anchor, oplog);
    ScreenPasses(r, Prints(r, oplog), {}, [op]);
    AdmitIff(r, known[ParentKey(op)], op, AttestedOpRejected);
    assert Worklist(r, known, [op]) == Pass(r, known, [op]);
    assert oplog + [] == oplog;
  }

  // ------------------------------------------------------------ the batch screen

  /** The first offence of a batch at `i`, all before it being new and distinct. */
  predicate Offence(r: Rules, existing: set<Hash>, batch: seq<AttestedOp>, i: nat, e: SyncError) {
    && i < |batch| && HasFingerprints(r, batch[..i]) && DistinctPrints(r, batch[..i])
    && Prints(r, batch[..i]) !! existing
    && match r.fingerprint(batch[i])
       case None => e == Fingerprint
       case Some(h) =>
         if h in Prints(r, batch[..i]) then e == BatchReplay else h in existing && e == Replay
  }

  lemma PrintsSnoc(r: Rules, ops: seq<AttestedOp>, op: AttestedOp)
    requires r.fingerprint(op).Some?
    ensures Prints(r, ops + [op]) == Prints(r, ops) + {r.fingerprint(op).value}
    ensures HasFingerprints(r, ops) ==> HasFingerprints(r, ops + [op])
    ensures DistinctPrints(r, ops) && r.fingerprint(op).value !in Prints(r, ops) ==> DistinctPrints(r, ops + [op])
  {
    var longer := ops + [op];
    assert forall x :: x in longer <==> x in ops || x == op;
    if DistinctPrints(r, ops) && r.fingerprint(op).value !in Prints(r, ops) {
      forall i, j | 0 <= i < j < |longer| ensures r.fingerprint(longer[i]) != r.fingerprint(longer[j]) {
        if j == |ops| {
          assert longer[i] in ops;
        }
      }
    }
  }

  lemma {:induction false} ScreenFrom(r: Rules, existing: set<Hash>, batch: seq<AttestedOp>, i: nat) returns (k: nat)
    requires i <= |batch| && HasFingerprints(r, batch[..i]) && DistinctPrints(r, batch[..i])
    requires Prints(r, batch[..i]) !! existing
    requires Screen(r, existing, Prints(r, batch[..i]), batch[i..]).Some?
    ensures Offence(r, existing, batch, k, Screen(r, existing, Prints(r, batch[..i]), batch[i..]).value)
    decreases |batch| - i
  {
    var seen := Prints(r, batch[..i]);
    assert batch[i..][0] == batch[i] && batch[i..][1..] == batch[i + 1..];
    var h := r.fingerprint(batch[i]);
    if h.Some? && h.value !in seen && h.value !in existing {
      assert batch[..i + 1] == batch[..i] + [batch[i]];
      PrintsSnoc(r, batch[..i], batch[i]);
      k := ScreenFrom(r, existing, batch, i + 1);
    } else {
      k := i;
    }
  }

  /** A batch is refused for its first offence, and for what that is. */
  lemma ScreenRefusal(r: Rules, existing: set<Hash>, batch: seq<AttestedOp>) returns (k: nat)
    requires Screen(r, existing, {}, batch).Some?
    ensures Offence(r, existing, batch, k, Screen(r, existing, {}, batch).value)
  {
    assert batch[..0] == [] && batch[0..] == batch;
    assert Prints(r, batch[..0]) == {};
    k := ScreenFrom(r, existing, batch, 0);
  }

  // ------------------------------------------------------------- why merges fail

  /** The error a merge answers, over a replayable log: the first offence of the
      batch; or else that the operations left over find no parent; or else the true
      grounds against one of them in the state it names. */
  lemma MergeRefusal(r: Rules, anchor: TreeState, oplog: seq<AttestedOp>, batch: seq<AttestedOp>)
    requires Replayable(r, anchor, oplog) && Merge(r, anchor, oplog, batch).result.Err?
    ensures var m := Merge(r, anchor, oplog, batch);
      || (m.oplog == oplog && exists k: nat :: Offence(r, Prints(r, oplog), batch, k, m.result.error))
      || (m.result.error == RemoteParentChain && exists op :: op in batch && ParentKey(op) !in m.known)
      || (exists op :: op in batch && ParentKey(op) in m.known
                       && Grounds(r, m.known[ParentKey(op)], op, m.result.error))
  {
    var m := Merge(r, anchor, oplog, batch);
    ReplayableBuilds(r, anchor, oplog);
    var known := Chain(r, Genesis(anchor), oplog).value;
    if Screen(r, Prints(r, oplog), {}, batch).Some? {
      var k := ScreenRefusal(r, Prints(r, oplog), batch);
    } else {
      var o := Worklist(r, known, batch);
      WorklistTrace(r, known, batch);
      if o.verdict.Orphaned? {
        var op := o.left[0];
        SplitMember(batch, o, op);
        assert op in batch && ParentKey(op) !in m.known;
      } else {
        var op :| op in o.left && Try(r, o.known, op) == Refused(o.verdict.error);
        SplitMember(batch, o, op);
        AdmitIff(r, o.known[ParentKey(op)], op, o.verdict.error);
      }
    }
  }

  /** A log that does not rebuild is refused with the same kinds of reason. */
  lemma RebuildRefusal(r: Rules, anchor: TreeState, log: seq<AttestedOp>)
    requires BuildKnown(r, anchor, log).Err?
    ensures var o := Worklist(r, Genesis(anchor), log);
      || (BuildKnown(r, anchor, log) == Err(OplogParentChain) && exists op :: op in log && ParentKey(op) !in o.known)
      || (exists op :: op in log && ParentKey(op) in o.known
                       && Grounds(r, o.known[ParentKey(op)], op, BuildKnown(r, anchor, log).error))
  {
    var o := Worklist(r, Genesis(anchor), log);
    WorklistTrace(r, Genesis(anchor), log);
    if o.verdict.Orphaned? {
      var op := o.left[0];
      SplitMember(log, o, op);
      assert op in log && ParentKey(op) !in o.known;
    } else {
      var op :| op in o.left && Try(r, o.known, op) == Refused(o.verdict.error);
      SplitMember(log, o, op);
      AdmitIff(r, o.known[ParentKey(op)], op, o.verdict.error);
    }
  }

  /** Over a log that does not rebuild, or holds an operation without a fingerprint, no
      batch merges: the log stays as it is and the answer is that defect. */
  lemma BrokenLogRefused(r: Rules, anchor: TreeState, log: seq<AttestedOp>, batch: seq<AttestedOp>)
    requires BuildKnown(r, anchor, log).Err? || exists op <- log :: r.fingerprint(op).None?
    ensures var m := Merge(r, anchor, log, batch);
      && m.oplog == log
      && m.result == Err(if BuildKnown(r, anchor, log).Err? then BuildKnown(r, anchor, log).error else Fingerprint)
  {
    if BuildKnown(r, anchor, log).Ok? {
      var op :| op in log && r.fingerprint(op).None?;
      assert !HasFingerprints(r, log);
    }
  }
}
