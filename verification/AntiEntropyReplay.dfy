/** Safety over whole runs of the merge: the log can always be replayed in one
    sweep to exactly the map the last merge held, failed merges included. */
module AntiEntropyReplay {
  import opened Common
  import opened AntiEntropy

  // ------------------------------------------------------ facts about chains

  lemma {:induction false} ChainAppend(r: Rules, known: Known, a: seq<AttestedOp>, b: seq<AttestedOp>)
    ensures Chain(r, known, a + b) ==
            match Chain(r, known, a) { case None => None case Some(k) => Chain(r, k, b) }
    decreases a
  {
    if a == [] {
      assert a + b == b;
    } else {
      assert (a + b)[0] == a[0] && (a + b)[1..] == a[1..] + b;
      match Try(r, known, a[0])
      case Admitted(s) => ChainAppend(r, Learn(known, s), a[1..], b);
      case _ =>
    }
  }

  /** A chain is swept in one pass that leaves nothing behind. */
  lemma {:induction false} ChainIsOnePass(r: Rules, known: Known, ops: seq<AttestedOp>)
    requires Chain(r, known, ops).Some?
    ensures Pass(r, known, ops) == Outcome(Chain(r, known, ops).value, ops, [], Done)
    decreases ops
  {
    if ops != [] {
      ChainIsOnePass(r, Learn(known, Try(r, known, ops[0]).state), ops[1..]);
      assert [ops[0]] + ops[1..] == ops;
    }
  }

  lemma ChainIsDrained(r: Rules, known: Known, ops: seq<AttestedOp>)
    requires Chain(r, known, ops).Some?
    ensures Worklist(r, known, ops) == Outcome(Chain(r, known, ops).value, ops, [], Done)
  {
    ChainIsOnePass(r, known, ops);
    assert ops + [] == ops;
  }

  // -------------------------------------------------- what one worklist does

  /** Whatever a sweep accepted is a chain to the map it ended with, and a
      refusal is a refusal by that final map. */
  lemma {:induction false} PassTrace(r: Rules, known: Known, ops: seq<AttestedOp>)
    ensures var p := Pass(r, known, ops);
      && Chain(r, known, p.accepted) == Some(p.known)
      && (p.verdict.Rejected? ==> exists op <- p.left :: Try(r, p.known, op) == Refused(p.verdict.error))
    decreases ops
  {
    if ops != [] {
      match Try(r, known, ops[0])
      case Deferred =>
        PassTrace(r, known, ops[1..]);
        assert [] + Pass(r, known, ops[1..]).accepted == Pass(r, known, ops[1..]).accepted;
      case Refused(_) =>
        assert ops[0] in ops;
      case Admitted(s) =>
        PassTrace(r, Learn(known, s), ops[1..]);
        var p := Pass(r, Learn(known, s), ops[1..]);
        assert [] + p.left == p.left;
        assert ([ops[0]] + p.accepted)[1..] == p.accepted;
    }
  }

  /** A sweep neither loses nor invents operations. */
  lemma {:induction false} PassConserves(r: Rules, known: Known, ops: seq<AttestedOp>)
    ensures var p := Pass(r, known, ops); multiset(p.accepted) + multiset(p.left) == multiset(ops)
    decreases ops
  {
    if ops != [] {
      assert ops == [ops[0]] + ops[1..];
      match Try(r, known, ops[0])
      case Deferred => PassConserves(r, known, ops[1..]);
      case Refused(_) =>
      case Admitted(s) => PassConserves(r, Learn(known, s), ops[1..]);
    }
  }

  /** A sweep that applies nothing found no parent at all. */
  lemma {:induction false} IdlePass(r: Rules, known: Known, ops: seq<AttestedOp>)
    requires Pass(r, known, ops).accepted == [] && Pass(r, known, ops).verdict.Done?
    ensures Pass(r, known, ops).known == known && Pass(r, known, ops).left == ops
    ensures forall op <- ops :: ParentKey(op) !in known
    decreases ops
  {
    if ops != [] {
      assert ops == [ops[0]] + ops[1..];
      IdlePass(r, known, ops[1..]);
    }
  }

  /** The run of a worklist, read off its outcome. */
  ghost predicate Traced(r: Rules, known: Known, batch: seq<AttestedOp>, o: Outcome) {
    && Chain(r, known, o.accepted) == Some(o.known)
    && multiset(o.accepted) + multiset(o.left) == multiset(batch)
    && match o.verdict
       case Done => o.left == []
       case Orphaned => o.left != [] && forall op <- o.left :: ParentKey(op) !in o.known
       case Rejected(e) => exists op <- o.left :: Try(r, o.known, op) == Refused(e)
  }

  lemma TracedAfterPass(r: Rules, known: Known, pending: seq<AttestedOp>, p: Outcome, o: Outcome)
    requires Chain(r, known, p.accepted) == Some(p.known)
    requires multiset(p.accepted) + multiset(p.left) == multiset(pending)
    requires Traced(r, p.known, p.left, o)
    ensures Traced(r, known, pending, Prefixed(p.accepted, [], o))
  {
    ChainAppend(r, known, p.accepted, o.accepted);
    assert multiset(p.accepted + o.accepted) == multiset(p.accepted) + multiset(o.accepted);
    assert [] + o.left == o.left;
  }

  lemma {:induction false} WorklistTrace(r: Rules, known: Known, pending: seq<AttestedOp>)
    ensures Traced(r, known, pending, Worklist(r, known, pending))
    decreases |pending|
  {
    if pending != [] {
      var p := Pass(r, known, pending);
      PassTrace(r, known, pending);
      PassConserves(r, known, pending);
      if p.verdict.Done? && p.accepted == [] {
        IdlePass(r, known, pending);
      }
      if p.verdict.Done? && p.accepted != [] {
        WorklistTrace(r, p.known, p.left);
        TracedAfterPass(r, known, pending, p, Worklist(r, p.known, p.left));
      }
    }
  }

  // ------------------------------------------------------------------ screen

  /** The batch screen passes exactly the batches of fresh operations. */
  lemma {:induction false} ScreenPasses(r: Rules, existing: set<Hash>, seen: set<Hash>, batch: seq<AttestedOp>)
    ensures Screen(r, existing, seen, batch).None? <==>
            HasFingerprints(r, batch) && DistinctPrints(r, batch) && Prints(r, batch) !! existing + seen
    decreases batch
  {
    if batch != [] && r.fingerprint(batch[0]).Some? {
      var h := r.fingerprint(batch[0]).value;
      var rest := batch[1..];
      ScreenPasses(r, existing, seen + {h}, rest);
      assert batch == [batch[0]] + rest;
      assert Prints(r, batch) == Prints(r, rest) + {h} by {
        assert forall op <- rest :: op in batch;
      }
      assert HasFingerprints(r, batch) <==> HasFingerprints(r, rest);
      if HasFingerprints(r, rest) {
        HeadPrint(r, batch, h);
      }
    }
  }

  lemma HeadPrint(r: Rules, batch: seq<AttestedOp>, h: Hash)
    requires batch != [] && HasFingerprints(r, batch) && r.fingerprint(batch[0]) == Some(h)
    ensures DistinctPrints(r, batch) <==> DistinctPrints(r, batch[1..]) && h !in Prints(r, batch[1..])
  {
    var rest := batch[1..];
    if DistinctPrints(r, batch) {
      forall i, j | 0 <= i < j < |rest| ensures r.fingerprint(rest[i]) != r.fingerprint(rest[j]) {
        assert rest[i] == batch[i + 1] && rest[j] == batch[j + 1];
      }
      forall op <- rest ensures r.fingerprint(op).value != h {
        var i :| 0 <= i < |rest| && rest[i] == op;
        assert r.fingerprint(batch[0]) != r.fingerprint(batch[i + 1]);
      }
    }
    if DistinctPrints(r, rest) && h !in Prints(r, rest) {
      forall i, j | 0 <= i < j < |batch| ensures r.fingerprint(batch[i]) != r.fingerprint(batch[j]) {
        assert batch[j] == rest[j - 1];
        if i > 0 {
          assert batch[i] == rest[i - 1];
        } else {
          assert batch[j] in rest;
        }
      }
    }
  }

  // ---------------------------------------------------------- the invariant

  /** Every operation of the log finds its parent among its predecessors,
      verifies and applies; and no two operations share a fingerprint. */
  predicate Replayable(r: Rules, anchor: TreeState, oplog: seq<AttestedOp>) {
    && Chain(r, Genesis(anchor), oplog).Some?
    && HasFingerprints(r, oplog)
    && DistinctPrints(r, oplog)
  }

  lemma ReplayableBuilds(r: Rules, anchor: TreeState, oplog: seq<AttestedOp>)
    requires Replayable(r, anchor, oplog)
    ensures BuildKnown(r, anchor, oplog) == Ok(Chain(r, Genesis(anchor), oplog).value)
  {
    ChainIsDrained(r, Genesis(anchor), oplog);
  }

  lemma DistinctAppend(r: Rules, a: seq<AttestedOp>, b: seq<AttestedOp>)
    requires HasFingerprints(r, a) && DistinctPrints(r, a)
    requires HasFingerprints(r, b) && DistinctPrints(r, b)
    requires Prints(r, a) !! Prints(r, b)
    ensures HasFingerprints(r, a + b) && DistinctPrints(r, a + b)
  {
    var c := a + b;
    forall i, j | 0 <= i < j < |c| ensures r.fingerprint(c[i]) != r.fingerprint(c[j]) {
      if i < |a| <= j {
        assert r.fingerprint(a[i]).value in Prints(r, a) && r.fingerprint(b[j - |a|]).value in Prints(r, b);
      }
    }
  }

  /** Dropping operations from a batch keeps fingerprints distinct, whatever
      order the rest is taken in. */
  lemma DistinctPart(r: Rules, batch: seq<AttestedOp>, part: seq<AttestedOp>)
    requires HasFingerprints(r, batch) && DistinctPrints(r, batch)
    requires multiset(part) <= multiset(batch)
    ensures HasFingerprints(r, part) && DistinctPrints(r, part) && Prints(r, part) <= Prints(r, batch)
  {
    forall op <- part ensures op in batch {
      assert op in multiset(part);
    }
    forall i, j | 0 <= i < j < |part| ensures r.fingerprint(part[i]) != r.fingerprint(part[j]) {
      if part[i] == part[j] {
        TwicePresent(part, i, j);
        TwiceFound(batch, part[i]);
      } else {
        assert part[i] in batch && part[j] in batch;
      }
    }
  }

  lemma TwicePresent<T>(s: seq<T>, i: nat, j: nat)
    requires i < j < |s| && s[i] == s[j]
    ensures multiset(s)[s[i]] >= 2
  {
    assert s == s[..j] + [s[j]] + s[j + 1..];
    assert s[i] in s[..j];
  }

  lemma TwiceFound<T>(s: seq<T>, x: T)
    requires multiset(s)[x] >= 2
    ensures exists i, j :: 0 <= i < j < |s| && s[i] == x && s[j] == x
  {
    assert x in multiset(s);
    var i :| 0 <= i < |s| && s[i] == x;
    var rest := s[..i] + s[i + 1..];
    assert s == s[..i] + [x] + s[i + 1..];
    assert x in multiset(rest);
    var k :| 0 <= k < |rest| && rest[k] == x;
    if k < i { assert s[k] == x; } else { assert s[k + 1] == x; }
  }

  /** One merge, successful or not, extends the log by a part of the batch,
      keeps it replayable, and stops with exactly the map a replay rebuilds. */
  lemma MergeKeepsReplay(r: Rules, anchor: TreeState, oplog: seq<AttestedOp>, batch: seq<AttestedOp>)
    requires Replayable(r, anchor, oplog)
    ensures var m := Merge(r, anchor, oplog, batch);
      && Replayable(r, anchor, m.oplog)
      && Chain(r, Genesis(anchor), m.oplog) == Some(m.known)
      && oplog <= m.oplog
      && multiset(m.oplog) <= multiset(oplog) + multiset(batch)
      && (m.result.Ok? ==> multiset(m.oplog) == multiset(oplog) + multiset(batch))
  {
    ReplayableBuilds(r, anchor, oplog);
    ScreenPasses(r, Prints(r, oplog), {}, batch);
    var known := Chain(r, Genesis(anchor), oplog).value;
    if Screen(r, Prints(r, oplog), {}, batch).None? {
      var o := Worklist(r, known, batch);
      WorklistTrace(r, known, batch);
      ChainAppend(r, Genesis(anchor), oplog, o.accepted);
      DistinctPart(r, batch, o.accepted);
      DistinctAppend(r, oplog, o.accepted);
      assert multiset(oplog + o.accepted) == multiset(oplog) + multiset(o.accepted);
    }
  }

  // --------------------------------------------------------------- whole runs

  function LogAfter(r: Rules, anchor: TreeState, oplog: seq<AttestedOp>, batches: seq<seq<AttestedOp>>): seq<AttestedOp>
    decreases batches
  {
    if batches == [] then oplog
    else LogAfter(r, anchor, Merge(r, anchor, oplog, batches[0]).oplog, batches[1..])
  }

  lemma {:induction false} RunKeepsReplay(r: Rules, anchor: TreeState, oplog: seq<AttestedOp>,
      batches: seq<seq<AttestedOp>>)
    requires Replayable(r, anchor, oplog)
    ensures Replayable(r, anchor, LogAfter(r, anchor, oplog, batches))
    ensures oplog <= LogAfter(r, anchor, oplog, batches)
    decreases batches
  {
    if batches != [] {
      MergeKeepsReplay(r, anchor, oplog, batches[0]);
      RunKeepsReplay(r, anchor, Merge(r, anchor, oplog, batches[0]).oplog, batches[1..]);
    }
  }

  /** From an empty log: after any merges at all, one more merge stops with the
      map that `build_known_states` rebuilds from the log it leaves, in a single
      sweep; fingerprints in that log are pairwise distinct; and rebuilding never
      fails. */
  lemma ReplayAfterAnyRun(r: Rules, anchor: TreeState, batches: seq<seq<AttestedOp>>, last: seq<AttestedOp>)
    ensures var before := LogAfter(r, anchor, [], batches);
      var m := Merge(r, anchor, before, last);
      && BuildKnown(r, anchor, before).Ok?
      && BuildKnown(r, anchor, m.oplog) == Ok(m.known)
      && Pass(r, Genesis(anchor), m.oplog) == Outcome(m.known, m.oplog, [], Done)
      && HasFingerprints(r, m.oplog) && DistinctPrints(r, m.oplog)
  {
    var before := LogAfter(r, anchor, [], batches);
    RunKeepsReplay(r, anchor, [], batches);
    MergeKeepsReplay(r, anchor, before, last);
    ReplayableBuilds(r, anchor, before);
    var m := Merge(r, anchor, before, last);
    ReplayableBuilds(r, anchor, m.oplog);
    ChainIsOnePass(r, Genesis(anchor), m.oplog);
  }
}
