/** Order independence of the merge. When a state key determines its state, the
    outcome of a batch depends on which operations it holds and not on their
    order, and replicas that hold the same operations hold the same states. */
module AntiEntropyConfluence {
  import opened Common
  import opened AntiEntropy
  import opened AntiEntropyReplay

  // ------------------------------------------------------- reachable states

  function Follow(r: Rules, anchor: TreeState, path: seq<AttestedOp>): Option<TreeState> {
    if path == [] then Some(anchor)
    else match Follow(r, anchor, path[..|path| - 1])
      case None => None
      case Some(s) =>
        match Admit(r, s, path[|path| - 1])
        case Err(_) => None
        case Ok(t) => Some(t)
  }

  ghost predicate Reached(r: Rules, anchor: TreeState, s: TreeState) {
    exists path :: Follow(r, anchor, path) == Some(s)
  }

  /** No two states reachable by verified steps share (epoch, commitment). */
  ghost predicate KeysDetermine(r: Rules, anchor: TreeState) {
    forall s, t :: Reached(r, anchor, s) && Reached(r, anchor, t) && StateKey(s) == StateKey(t) ==> s == t
  }

  ghost predicate Sound(r: Rules, anchor: TreeState, known: Known) {
    forall k <- known :: StateKey(known[k]) == k && Reached(r, anchor, known[k])
  }

  lemma GenesisSound(r: Rules, anchor: TreeState)
    ensures Sound(r, anchor, Genesis(anchor))
  {
    assert Follow(r, anchor, []) == Some(anchor);
  }

  lemma StepReached(r: Rules, anchor: TreeState, s: TreeState, op: AttestedOp)
    requires Reached(r, anchor, s) && Admit(r, s, op).Ok?
    ensures Reached(r, anchor, Admit(r, s, op).value)
  {
    var path :| Follow(r, anchor, path) == Some(s);
    var longer := path + [op];
    assert longer[..|longer| - 1] == path;
    assert Follow(r, anchor, longer) == Some(Admit(r, s, op).value);
  }

  /** In a sound map the two parent checks of `verify_operation` never fire. */
  lemma ParentChecksRedundant(r: Rules, anchor: TreeState, known: Known, op: AttestedOp)
    requires Sound(r, anchor, known)
    ensures Try(r, known, op) != Refused(ParentEpoch) && Try(r, known, op) != Refused(ParentCommitment)
  {
    if ParentKey(op) in known {
      assert StateKey(known[ParentKey(op)]) == ParentKey(op);
    }
  }

  lemma LearnSound(r: Rules, anchor: TreeState, known: Known, op: AttestedOp)
    requires Sound(r, anchor, known) && Try(r, known, op).Admitted?
    ensures Sound(r, anchor, Learn(known, Try(r, known, op).state))
  {
    StepReached(r, anchor, known[ParentKey(op)], op);
  }

  lemma {:induction false} ChainSound(r: Rules, anchor: TreeState, known: Known, ops: seq<AttestedOp>)
    requires Sound(r, anchor, known) && Chain(r, known, ops).Some?
    ensures Sound(r, anchor, Chain(r, known, ops).value)
    ensures known.Keys <= Chain(r, known, ops).value.Keys
    decreases ops
  {
    if ops != [] {
      LearnSound(r, anchor, known, ops[0]);
      ChainSound(r, anchor, Learn(known, Try(r, known, ops[0]).state), ops[1..]);
    }
  }

  lemma SoundAgree(r: Rules, anchor: TreeState, a: Known, b: Known, k: Key)
    requires KeysDetermine(r, anchor) && Sound(r, anchor, a) && Sound(r, anchor, b)
    requires k in a && k in b
    ensures a[k] == b[k]
  {
  }

  lemma SameKeysSameMap(r: Rules, anchor: TreeState, a: Known, b: Known)
    requires KeysDetermine(r, anchor) && Sound(r, anchor, a) && Sound(r, anchor, b)
    requires a.Keys == b.Keys
    ensures a == b
  {
    forall k | k in a ensures a[k] == b[k] {
      SoundAgree(r, anchor, a, b, k);
    }
  }

  // --------------------------------------------------------- the exchange step

  /** The operation's parent is known, it passes, and its result is known. */
  predicate Absorbed(r: Rules, known: Known, op: AttestedOp) {
    Try(r, known, op).Admitted? && StateKey(Try(r, known, op).state) in known
  }

  lemma AbsorbedGrows(r: Rules, anchor: TreeState, known: Known, more: Known, op: AttestedOp)
    requires KeysDetermine(r, anchor) && Sound(r, anchor, known) && Sound(r, anchor, more)
    requires known.Keys <= more.Keys
    requires Try(r, known, op).Admitted? && StateKey(Try(r, known, op).state) in more
    ensures Absorbed(r, more, op)
  {
    SoundAgree(r, anchor, known, more, ParentKey(op));
  }

  /** Everything a chain applied stays absorbed by the map it ends with. */
  lemma {:induction false} ChainAbsorbs(r: Rules, anchor: TreeState, known: Known, ops: seq<AttestedOp>)
    requires KeysDetermine(r, anchor) && Sound(r, anchor, known) && Chain(r, known, ops).Some?
    ensures forall op <- ops :: Absorbed(r, Chain(r, known, ops).value, op)
    decreases ops
  {
    if ops != [] {
      var next := Learn(known, Try(r, known, ops[0]).state);
      LearnSound(r, anchor, known, ops[0]);
      ChainAbsorbs(r, anchor, next, ops[1..]);
      ChainSound(r, anchor, next, ops[1..]);
      AbsorbedGrows(r, anchor, known, Chain(r, known, ops).value, ops[0]);
      assert ops == [ops[0]] + ops[1..];
    }
  }

  /** A chain of operations that `big` either absorbed or cannot yet place never
      leaves `big`: by induction every operation's parent is in `big`, so `big`
      absorbed it, so its result is in `big` too. */
  lemma {:induction false} ChainWithin(r: Rules, anchor: TreeState, known: Known, ops: seq<AttestedOp>, big: Known)
    requires KeysDetermine(r, anchor) && Sound(r, anchor, known) && Sound(r, anchor, big)
    requires known.Keys <= big.Keys
    requires Chain(r, known, ops).Some?
    requires forall op <- ops :: Absorbed(r, big, op) || ParentKey(op) !in big
    ensures Chain(r, known, ops).value.Keys <= big.Keys
    ensures forall op <- ops :: Absorbed(r, big, op)
    decreases ops
  {
    if ops != [] {
      var s := Try(r, known, ops[0]).state;
      SoundAgree(r, anchor, known, big, ParentKey(ops[0]));
      assert Absorbed(r, big, ops[0]);
      LearnSound(r, anchor, known, ops[0]);
      ChainWithin(r, anchor, Learn(known, s), ops[1..], big);
      assert ops == [ops[0]] + ops[1..];
    }
  }

  // --------------------------------------------------------------- confluence

  /** Nothing left over can be placed: the outcome of a worklist that refused nothing. */
  predicate Saturated(o: Outcome) {
    forall op <- o.left :: ParentKey(op) !in o.known
  }

  lemma SplitMember(batch: seq<AttestedOp>, o: Outcome, op: AttestedOp)
    requires multiset(o.accepted) + multiset(o.left) == multiset(batch)
    ensures op in batch <==> op in o.accepted || op in o.left
  {
    assert op in batch <==> op in multiset(batch);
    assert op in o.accepted <==> op in multiset(o.accepted);
    assert op in o.left <==> op in multiset(o.left);
  }

  /** A saturated outcome dominates every other way to work on the same batch. */
  lemma Dominates(r: Rules, anchor: TreeState, known: Known, b: seq<AttestedOp>, o: Outcome, b': seq<AttestedOp>,
      o': Outcome)
    requires KeysDetermine(r, anchor) && Sound(r, anchor, known)
    requires Traced(r, known, b, o) && Traced(r, known, b', o') && Saturated(o)
    requires multiset(b) == multiset(b')
    ensures o'.known.Keys <= o.known.Keys
    ensures forall op <- o'.accepted :: op in o.accepted
    ensures !o'.verdict.Rejected?
  {
    ChainSound(r, anchor, known, o.accepted);
    ChainSound(r, anchor, known, o'.accepted);
    ChainAbsorbs(r, anchor, known, o.accepted);
    forall op | op in b' ensures Absorbed(r, o.known, op) || ParentKey(op) !in o.known {
      assert op in multiset(b);
      SplitMember(b, o, op);
    }
    forall op <- o'.accepted ensures op in b' {
      SplitMember(b', o', op);
    }
    ChainWithin(r, anchor, known, o'.accepted, o.known);
    forall op <- o'.accepted ensures op in o.accepted {
      assert op in multiset(b);
      SplitMember(b, o, op);
    }
    if o'.verdict.Rejected? {
      var bad :| bad in o'.left && Try(r, o'.known, bad) == Refused(o'.verdict.error);
      SplitMember(b', o', bad);
      SoundAgree(r, anchor, o'.known, o.known, ParentKey(bad));
      assert false;
    }
  }

  /** In a saturated outcome an operation is accepted with its full multiplicity
      or not at all. */
  lemma AllOrNothing(r: Rules, anchor: TreeState, known: Known, b: seq<AttestedOp>, o: Outcome, op: AttestedOp)
    requires KeysDetermine(r, anchor) && Sound(r, anchor, known) && Traced(r, known, b, o) && Saturated(o)
    ensures multiset(o.accepted)[op] == if op in o.accepted then multiset(b)[op] else 0
  {
    ChainAbsorbs(r, anchor, known, o.accepted);
    assert op in o.accepted ==> op !in o.left;
    assert op in o.accepted <==> op in multiset(o.accepted);
    assert op in o.left <==> op in multiset(o.left);
    assert multiset(b)[op] == multiset(o.accepted)[op] + multiset(o.left)[op];
  }

  /** Confluence of the worklist, failing runs included: the kind of verdict is
      the same for every order of the batch, and unless an operation was refused
      so are the final map and the accepted operations. */
  lemma WorklistConfluent(r: Rules, anchor: TreeState, known: Known, b: seq<AttestedOp>, b': seq<AttestedOp>)
    requires KeysDetermine(r, anchor) && Sound(r, anchor, known)
    requires multiset(b) == multiset(b')
    ensures var o, o' := Worklist(r, known, b), Worklist(r, known, b');
      && (o.verdict.Done? <==> o'.verdict.Done?)
      && (o.verdict.Rejected? <==> o'.verdict.Rejected?)
      && (!o.verdict.Rejected? ==> o.known == o'.known && multiset(o.accepted) == multiset(o'.accepted))
  {
    var o, o' := Worklist(r, known, b), Worklist(r, known, b');
    WorklistTrace(r, known, b);
    WorklistTrace(r, known, b');
    if !o.verdict.Rejected? {
      Dominates(r, anchor, known, b, o, b', o');
    }
    if !o'.verdict.Rejected? {
      Dominates(r, anchor, known, b', o', b, o);
    }
    if !o.verdict.Rejected? && !o'.verdict.Rejected? {
      ChainSound(r, anchor, known, o.accepted);
      ChainSound(r, anchor, known, o'.accepted);
      SameKeysSameMap(r, anchor, o.known, o'.known);
      forall op ensures multiset(o.accepted)[op] == multiset(o'.accepted)[op] {
        AllOrNothing(r, anchor, known, b, o, op);
        AllOrNothing(r, anchor, known, b', o', op);
      }
      assert multiset(o.accepted) == multiset(o'.accepted);
      LeftSize(b, o);
      LeftSize(b', o');
    }
  }

  lemma LeftSize(b: seq<AttestedOp>, o: Outcome)
    requires multiset(o.accepted) + multiset(o.left) == multiset(b)
    ensures |o.left| == |multiset(b)| - |multiset(o.accepted)|
  {
    assert |multiset(o.accepted) + multiset(o.left)| == |multiset(o.accepted)| + |multiset(o.left)|;
  }

  /** The batch can be ordered so that every operation in turn verifies against
      a state already known. */
  ghost predicate Derivable(r: Rules, known: Known, batch: seq<AttestedOp>) {
    exists order :: multiset(order) == multiset(batch) && Chain(r, known, order).Some?
  }

  /** The worklist completes exactly on the derivable batches. */
  lemma DoneIffDerivable(r: Rules, anchor: TreeState, known: Known, batch: seq<AttestedOp>)
    requires KeysDetermine(r, anchor) && Sound(r, anchor, known)
    ensures Worklist(r, known, batch).verdict.Done? <==> Derivable(r, known, batch)
  {
    WorklistTrace(r, known, batch);
    if Worklist(r, known, batch).verdict.Done? {
      assert multiset(Worklist(r, known, batch).accepted) == multiset(batch);
    }
    if Derivable(r, known, batch) {
      var order :| multiset(order) == multiset(batch) && Chain(r, known, order).Some?;
      ChainIsDrained(r, known, order);
      WorklistConfluent(r, anchor, known, order, batch);
    }
  }

  // ------------------------------------------------------------- merge results

  lemma FreshInvariant(r: Rules, oplog: seq<AttestedOp>, b: seq<AttestedOp>, b': seq<AttestedOp>)
    requires multiset(b) == multiset(b') && Fresh(r, oplog, b)
    ensures Fresh(r, oplog, b')
  {
    DistinctPart(r, b, b');
  }

  lemma ReplayableSound(r: Rules, anchor: TreeState, oplog: seq<AttestedOp>)
    requires Replayable(r, anchor, oplog)
    ensures BuildKnown(r, anchor, oplog).Ok? && Sound(r, anchor, BuildKnown(r, anchor, oplog).value)
  {
    ReplayableBuilds(r, anchor, oplog);
    GenesisSound(r, anchor);
    ChainSound(r, anchor, Genesis(anchor), oplog);
  }

  /** A merge succeeds exactly when the batch is fresh and derivable from the
      states already known. */
  lemma MergeSucceedsIff(r: Rules, anchor: TreeState, oplog: seq<AttestedOp>, batch: seq<AttestedOp>)
    requires KeysDetermine(r, anchor) && Replayable(r, anchor, oplog)
    ensures BuildKnown(r, anchor, oplog).Ok?
    ensures Merge(r, anchor, oplog, batch).result.Ok? <==>
            Fresh(r, oplog, batch) && Derivable(r, BuildKnown(r, anchor, oplog).value, batch)
  {
    ReplayableSound(r, anchor, oplog);
    ScreenPasses(r, Prints(r, oplog), {}, batch);
    DoneIffDerivable(r, anchor, BuildKnown(r, anchor, oplog).value, batch);
  }

  /** Whether a merge succeeds does not depend on batch order, and on success
      neither do the known states nor the operations the log holds. */
  lemma MergeConfluent(r: Rules, anchor: TreeState, oplog: seq<AttestedOp>, b: seq<AttestedOp>, b': seq<AttestedOp>)
    requires KeysDetermine(r, anchor) && Replayable(r, anchor, oplog)
    requires multiset(b) == multiset(b')
    ensures var m, m' := Merge(r, anchor, oplog, b), Merge(r, anchor, oplog, b');
      && (m.result.Ok? <==> m'.result.Ok?)
      && (m.result.Ok? ==> m.known == m'.known && multiset(m.oplog) == multiset(m'.oplog))
  {
    ReplayableSound(r, anchor, oplog);
    ScreenPasses(r, Prints(r, oplog), {}, b);
    ScreenPasses(r, Prints(r, oplog), {}, b');
    if Fresh(r, oplog, b) {
      FreshInvariant(r, oplog, b, b');
      WorklistConfluent(r, anchor, BuildKnown(r, anchor, oplog).value, b, b');
      MergeKeepsReplay(r, anchor, oplog, b);
      MergeKeepsReplay(r, anchor, oplog, b');
    } else if Fresh(r, oplog, b') {
      FreshInvariant(r, oplog, b', b);
    }
  }

  /** Convergence of replicas: two logs built by any two merge histories from the
      same anchor, however the operations were batched, ordered, or retried. The
      one with more operations knows at least the states of the other, with the
      same contents; the same operations give the same map. */
  lemma ReplicasConverge(r: Rules, anchor: TreeState, run: seq<seq<AttestedOp>>, run': seq<seq<AttestedOp>>)
    requires KeysDetermine(r, anchor)
    requires Elems(LogAfter(r, anchor, [], run)) <= Elems(LogAfter(r, anchor, [], run'))
    ensures var k, k' := BuildKnown(r, anchor, LogAfter(r, anchor, [], run)),
      BuildKnown(r, anchor, LogAfter(r, anchor, [], run'));
      && k.Ok? && k'.Ok?
      && (forall key <- k.value :: key in k'.value && k'.value[key] == k.value[key])
      && (Elems(LogAfter(r, anchor, [], run)) == Elems(LogAfter(r, anchor, [], run')) ==> k == k')
  {
    RunKeepsReplay(r, anchor, [], run);
    RunKeepsReplay(r, anchor, [], run');
    var log, log' := LogAfter(r, anchor, [], run), LogAfter(r, anchor, [], run');
    LogsOrdered(r, anchor, log, log');
    if Elems(log) == Elems(log') {
      LogsOrdered(r, anchor, log', log);
      ReplayableSound(r, anchor, log);
      ReplayableSound(r, anchor, log');
      SameKeysSameMap(r, anchor, BuildKnown(r, anchor, log).value, BuildKnown(r, anchor, log').value);
    }
  }

  lemma LogsOrdered(r: Rules, anchor: TreeState, log: seq<AttestedOp>, log': seq<AttestedOp>)
    requires KeysDetermine(r, anchor) && Replayable(r, anchor, log) && Replayable(r, anchor, log')
    requires Elems(log) <= Elems(log')
    ensures var k, k' := BuildKnown(r, anchor, log), BuildKnown(r, anchor, log');
      k.Ok? && k'.Ok? && forall key <- k.value :: key in k'.value && k'.value[key] == k.value[key]
  {
    ReplayableSound(r, anchor, log);
    ReplayableSound(r, anchor, log');
    ReplayableBuilds(r, anchor, log);
    ReplayableBuilds(r, anchor, log');
    GenesisSound(r, anchor);
    var k, k' := BuildKnown(r, anchor, log).value, BuildKnown(r, anchor, log').value;
    ChainSound(r, anchor, Genesis(anchor), log');
    ChainAbsorbs(r, anchor, Genesis(anchor), log');
    forall op <- log ensures Absorbed(r, k', op) {
      assert op in Elems(log);
      assert op in Elems(log');
    }
    ChainWithin(r, anchor, Genesis(anchor), log, k');
    forall key <- k ensures key in k' && k'[key] == k[key] {
      SoundAgree(r, anchor, k, k', key);
    }
  }
}
