/** Merges are not atomic: exactly when a merge leaves a trace, exactly when it is all
    or nothing, and what resending a batch then meets. */
module AntiEntropyAtomicity {
  import opened Common
  import opened AntiEntropy
  import opened AntiEntropyReplay
  import opened AntiEntropyConfluence

  /** What becomes of the first operation, in batch order, whose parent is known. */
  function FirstTrial(r: Rules, known: Known, batch: seq<AttestedOp>): Trial
    decreases batch
  {
    if batch == [] then Deferred
    else if ParentKey(batch[0]) in known then Try(r, known, batch[0])
    else FirstTrial(r, known, batch[1..])
  }

  lemma {:induction false} PassLogs(r: Rules, known: Known, batch: seq<AttestedOp>)
    ensures Pass(r, known, batch).accepted != [] <==> FirstTrial(r, known, batch).Admitted?
    decreases batch
  {
    if batch != [] && ParentKey(batch[0]) !in known {
      PassLogs(r, known, batch[1..]);
    }
  }

  lemma WorklistLogs(r: Rules, known: Known, batch: seq<AttestedOp>)
    ensures Worklist(r, known, batch).accepted != [] <==> FirstTrial(r, known, batch).Admitted?
  {
    PassLogs(r, known, batch);
  }

  /** Exactly when a merge extends the log, successful or not. */
  lemma MergeLogsIff(r: Rules, anchor: TreeState, oplog: seq<AttestedOp>, batch: seq<AttestedOp>)
    requires Replayable(r, anchor, oplog)
    ensures BuildKnown(r, anchor, oplog).Ok?
    ensures Merge(r, anchor, oplog, batch).oplog != oplog <==>
            Fresh(r, oplog, batch) && FirstTrial(r, BuildKnown(r, anchor, oplog).value, batch).Admitted?
  {
    ReplayableBuilds(r, anchor, oplog);
    ScreenPasses(r, Prints(r, oplog), {}, batch);
    var known := BuildKnown(r, anchor, oplog).value;
    WorklistLogs(r, known, batch);
    var o := Worklist(r, known, batch);
    assert oplog + o.accepted == oplog <==> o.accepted == [] by {
      assert |oplog + o.accepted| == |oplog| + |o.accepted|;
    }
  }

  /** A merge is all or nothing exactly when the batch is not fresh, or its first
      operation with a known parent is refused or there is none, or the whole batch
      is derivable. */
  lemma MergeAtomicIff(r: Rules, anchor: TreeState, oplog: seq<AttestedOp>, batch: seq<AttestedOp>)
    requires KeysDetermine(r, anchor) && Replayable(r, anchor, oplog)
    ensures BuildKnown(r, anchor, oplog).Ok?
    ensures var m, known := Merge(r, anchor, oplog, batch), BuildKnown(r, anchor, oplog).value;
      m.result.Ok? || m.oplog == oplog <==>
      !Fresh(r, oplog, batch) || !FirstTrial(r, known, batch).Admitted? || Derivable(r, known, batch)
  {
    MergeLogsIff(r, anchor, oplog, batch);
    MergeSucceedsIff(r, anchor, oplog, batch);
  }

  lemma {:induction false} ScreenReplays(r: Rules, existing: set<Hash>, seen: set<Hash>, batch: seq<AttestedOp>,
      op: AttestedOp)
    requires HasFingerprints(r, batch) && DistinctPrints(r, batch) && Prints(r, batch) !! seen
    requires op in batch && r.fingerprint(op).value in existing
    ensures Screen(r, existing, seen, batch) == Some(Replay)
    decreases batch
  {
    var h, rest := r.fingerprint(batch[0]).value, batch[1..];
    assert batch == [batch[0]] + rest;
    assert h in Prints(r, batch);
    if h !in existing {
      assert forall x <- rest :: x in batch;
      HeadPrint(r, batch, h);
      ScreenReplays(r, existing, seen + {h}, rest, op);
    }
  }

  /** Once a merge has logged anything of a batch, resending the whole batch is
      refused as a replay and changes nothing, also when the first merge failed. */
  lemma ResendRefused(r: Rules, anchor: TreeState, oplog: seq<AttestedOp>, batch: seq<AttestedOp>)
    requires Replayable(r, anchor, oplog) && Merge(r, anchor, oplog, batch).oplog != oplog
    ensures var m := Merge(r, anchor, oplog, batch);
      Merge(r, anchor, m.oplog, batch) == Merged(m.known, m.oplog, Err(Replay))
  {
    var m := Merge(r, anchor, oplog, batch);
    MergeLogsIff(r, anchor, oplog, batch);
    MergeKeepsReplay(r, anchor, oplog, batch);
    ReplayableBuilds(r, anchor, m.oplog);
    ScreenPasses(r, Prints(r, oplog), {}, batch);
    var known := BuildKnown(r, anchor, oplog).value;
    var o := Worklist(r, known, batch);
    WorklistLogs(r, known, batch);
    WorklistTrace(r, known, batch);
    var op := o.accepted[0];
    SplitMember(batch, o, op);
    assert op in m.oplog;
    assert r.fingerprint(op).value in Prints(r, m.oplog);
    ScreenReplays(r, Prints(r, m.oplog), {}, batch, op);
  }

  // --------------------------------------------------- a batch accepted in part

  function PartialRules(): Rules {
    Rules((op: AttestedOp) => Some(op.payload), (s, op, node) => true,
      (s: TreeState, op: AttestedOp) => Some(TreeState(s.epoch, op.payload, map[], 0)))
  }

  /** The first operation applies to the anchor, the second names a parent nobody
      knows: the merge fails and the first stays in the log. */
  lemma PartialMerge()
    ensures var anchor := TreeState(0, 0, map[], 0);
      var good, orphan := AttestedOp(0, 0, AddLeaf(0), 1), AttestedOp(9, 9, AddLeaf(0), 2);
      var m := Merge(PartialRules(), anchor, [], [good, orphan]);
      m.oplog == [good] && m.result == Err(RemoteParentChain)
  {
    var r, anchor := PartialRules(), TreeState(0, 0, map[], 0);
    var good, orphan := AttestedOp(0, 0, AddLeaf(0), 1), AttestedOp(9, 9, AddLeaf(0), 2);
    var known, next := Genesis(anchor), TreeState(0, 1, map[], 0);
    var more := Learn(known, next);
    assert Try(r, known, good) == Admitted(next);
    assert Try(r, more, orphan) == Deferred;
    assert [orphan][1..] == [] && [good, orphan][1..] == [orphan];
    assert Pass(r, more, [orphan]) == Outcome(more, [], [orphan], Done);
    assert Pass(r, known, [good, orphan]) == Outcome(more, [good], [orphan], Done);
    assert Worklist(r, more, [orphan]) == Outcome(more, [], [orphan], Orphaned);
    assert Worklist(r, known, [good, orphan]) == Outcome(more, [good], [orphan], Orphaned);
    ScreenPasses(r, {}, {}, [good, orphan]);
    assert Prints(r, []) == {};
    assert [] + [good] == [good];
  }
}
