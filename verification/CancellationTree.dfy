/** Inherited cancellation in the tree of task groups. A group's flag lives in a
    watch channel. Its sender lives as long as a handle of the group or a wrapper of
    one of its running tasks; `request_cancellation` sends on it, and a send with no
    live receiver is dropped. Receivers sit in tokens and wrappers. Every group also
    owns a token on its parent, which that token's holders keep alive after the
    group itself is gone. So ownership is part of the model. */
module CancellationTree {
  import opened Common

  /** `handle`: some clone of the group's handle is alive outside its own wrappers.
      `spawning`: tasks registered whose spawner has not subscribed yet.
      `running`: wrappers, each with a receiver and a clone of the group.
      `tokens`: cancellation tokens handed out and still held. */
  datatype Node = Node(
    parent: Option<nat>, cancelled: bool, handle: bool,
    spawning: set<nat>, running: set<nat>, tokens: set<nat>)
  {
    predicate SenderAlive() { handle || running != {} }

    /** Somebody holds the group or a token on it, hence its token on the parent. */
    predicate Owned() { SenderAlive() || tokens != {} }

    /** `shutdown_cancelled` returns: the flag is up, or the sender is gone. */
    predicate Signalled() { cancelled || !SenderAlive() }
  }

  /** Groups in order of creation; the root is group 0. */
  type Tree = seq<Node>

  const ROOT_ONLY: Tree := [Node(None, false, true, {}, {}, {})]

  predicate WellFormed(t: Tree) {
    forall g :: 0 <= g < |t| && t[g].parent.Some? ==> t[g].parent.value < g
  }

  /** A spawner works through a handle until it has subscribed. */
  predicate Good(t: Tree) {
    WellFormed(t) && forall g :: 0 <= g < |t| && t[g].spawning != {} ==> t[g].handle
  }

  predicate IsCancelled(t: Tree, g: nat)
    requires WellFormed(t) && g < |t|
    decreases g
  {
    t[g].cancelled || (t[g].parent.Some? && IsCancelled(t, t[g].parent.value))
  }

  /** `TaskGroupCancellationToken::cancelled` returns for a token on `g`. */
  predicate TokenReady(t: Tree, g: nat)
    requires WellFormed(t) && g < |t|
    decreases g
  {
    IsCancelled(t, g) || t[g].Signalled() || (t[g].parent.Some? && TokenReady(t, t[g].parent.value))
  }

  /** One of the first two branches in the wrapper of a task of `g` is ready, so the
      task ends as cancelled. */
  predicate TaskWoken(t: Tree, g: nat)
    requires WellFormed(t) && g < |t|
  {
    t[g].Signalled() || (t[g].parent.Some? && TokenReady(t, t[g].parent.value))
  }

  /** `a` is `g` or one of its ancestors. */
  predicate Above(t: Tree, a: nat, g: nat)
    requires WellFormed(t) && g < |t|
    decreases g
  {
    a == g || (t[g].parent.Some? && Above(t, a, t[g].parent.value))
  }

  // ------------------------------------------------------------- who listens

  predicate ChildOf(t: Tree, c: nat, g: nat) { g < c < |t| && t[c].parent == Some(g) }

  /** The token that `g` owns on its parent is alive: it is held by the group, by a
      wrapper, by a token on `g`, or through the token of a child. */
  ghost predicate Pinned(t: Tree, g: nat)
    requires g < |t|
    decreases |t| - g
  {
    t[g].Owned() || exists c: nat :: ChildOf(t, c, g) && Pinned(t, c)
  }

  /** The channel of `g` has a live receiver. */
  ghost predicate Listened(t: Tree, g: nat)
    requires g < |t|
  {
    t[g].running != {} || t[g].tokens != {} || exists c: nat :: ChildOf(t, c, g) && Pinned(t, c)
  }

  lemma {:induction false} AboveBounds(t: Tree, a: nat, g: nat)
    requires WellFormed(t) && g < |t| && Above(t, a, g)
    ensures a <= g
    decreases g
  {
    if a != g {
      AboveBounds(t, a, t[g].parent.value);
    }
  }

  lemma {:induction false} AboveTransitive(t: Tree, a: nat, b: nat, g: nat)
    requires WellFormed(t) && g < |t| && b < |t| && Above(t, a, b) && Above(t, b, g)
    ensures Above(t, a, g)
    decreases g
  {
    if b != g {
      AboveTransitive(t, a, b, t[g].parent.value);
    }
  }

  /** The child of `a` on the way down to `g`. */
  lemma {:induction false} WayDown(t: Tree, a: nat, g: nat) returns (c: nat)
    requires WellFormed(t) && g < |t| && Above(t, a, g) && a != g
    ensures ChildOf(t, c, a) && Above(t, c, g)
    decreases g
  {
    var p := t[g].parent.value;
    if p == a {
      c := g;
    } else {
      c := WayDown(t, a, p);
    }
  }

  predicate OwnedBelow(t: Tree, g: nat, d: nat)
    requires WellFormed(t)
  {
    d < |t| && t[d].Owned() && Above(t, g, d)
  }

  /** Reference counts along the tree: a group's token on its parent is alive
      exactly when the group or some descendant, however far, is owned. */
  lemma {:induction false} PinnedIff(t: Tree, g: nat)
    requires WellFormed(t) && g < |t|
    ensures Pinned(t, g) <==> exists d: nat :: OwnedBelow(t, g, d)
    decreases |t| - g
  {
    if t[g].Owned() {
      assert OwnedBelow(t, g, g);
    } else if c: nat :| ChildOf(t, c, g) && Pinned(t, c) {
      PinnedIff(t, c);
      var d: nat :| OwnedBelow(t, c, d);
      AboveTransitive(t, g, c, d);
      assert OwnedBelow(t, g, d);
    } else if d: nat :| OwnedBelow(t, g, d) {
      var c := WayDown(t, g, d);
      PinnedIff(t, c);
      assert OwnedBelow(t, c, d);
      assert false;
    }
  }

  /** A group is listened to exactly when it has a wrapper or a token, or when some
      proper descendant is owned, whatever became of the groups in between. */
  lemma ListenedIff(t: Tree, g: nat)
    requires WellFormed(t) && g < |t|
    ensures Listened(t, g) <==>
            t[g].running != {} || t[g].tokens != {} || exists d: nat :: d != g && OwnedBelow(t, g, d)
  {
    if c: nat :| ChildOf(t, c, g) && Pinned(t, c) {
      PinnedIff(t, c);
      var d: nat :| OwnedBelow(t, c, d);
      AboveTransitive(t, g, c, d);
      AboveBounds(t, c, d);
      assert d != g && OwnedBelow(t, g, d);
    }
    if d: nat :| d != g && OwnedBelow(t, g, d) {
      var c := WayDown(t, g, d);
      PinnedIff(t, c);
      assert OwnedBelow(t, c, d);
    }
  }

  // ---------------------------------------------------------------- the steps

  datatype Event =
    | NewGroup(parent: nat)
    | Register(group: nat, task: nat)
    | Subscribe(group: nat, task: nat)
    | Exit(group: nat, task: nat)
    | NewToken(group: nat, token: nat)
    | DropToken(group: nat, token: nat)
    | DropHandle(group: nat)
    | Cancel(group: nat)

  predicate HasHandle(t: Tree, g: nat) { g < |t| && t[g].handle }

  /** Everything but an exit and a dropped token goes through a handle, and a spawner
      borrows it until it has subscribed. */
  predicate Enabled(t: Tree, e: Event) {
    match e
    case NewGroup(p) => HasHandle(t, p)
    case Register(g, x) => HasHandle(t, g) && x !in t[g].spawning + t[g].running
    case Subscribe(g, x) => HasHandle(t, g) && x in t[g].spawning
    case Exit(g, x) => g < |t| && x in t[g].running
    case NewToken(g, k) => HasHandle(t, g)
    case DropToken(g, k) => g < |t|
    case DropHandle(g) => HasHandle(t, g) && t[g].spawning == {}
    case Cancel(g) => HasHandle(t, g)
  }

  ghost function Step(t: Tree, e: Event): Tree
    requires Enabled(t, e)
  {
    match e
    case NewGroup(p) => t + [Node(Some(p), false, true, {}, {}, {})]
    case Register(g, x) => t[g := t[g].(spawning := t[g].spawning + {x})]
    case Subscribe(g, x) => t[g := t[g].(spawning := t[g].spawning - {x}, running := t[g].running + {x})]
    case Exit(g, x) => t[g := t[g].(running := t[g].running - {x})]
    case NewToken(g, k) => t[g := t[g].(tokens := t[g].tokens + {k})]
    case DropToken(g, k) => t[g := t[g].(tokens := t[g].tokens - {k})]
    case DropHandle(g) => t[g := t[g].(handle := false)]
    case Cancel(g) => if Listened(t, g) then t[g := t[g].(cancelled := true)] else t
  }

  lemma StepGood(t: Tree, e: Event)
    requires Good(t) && Enabled(t, e)
    ensures Good(Step(t, e)) && |t| <= |Step(t, e)|
    ensures forall g :: 0 <= g < |t| ==> Step(t, e)[g].parent == t[g].parent
  {
  }

  // ------------------------------------------------------ reading cancellation

  /** A token reads as cancelled exactly when its group or an ancestor is flagged. */
  lemma {:induction false} CancelledByAncestor(t: Tree, g: nat)
    requires WellFormed(t) && g < |t|
    ensures IsCancelled(t, g) <==> exists a: nat :: a < |t| && Above(t, a, g) && t[a].cancelled
    decreases g
  {
    if t[g].parent.Some? {
      var p := t[g].parent.value;
      CancelledByAncestor(t, p);
      if IsCancelled(t, p) {
        var a: nat :| a < |t| && Above(t, a, p) && t[a].cancelled;
        assert Above(t, a, g);
      }
    }
    assert Above(t, g, g);
  }

  /** A wait on a token, or in a wrapper, ends exactly when the group or an ancestor
      is flagged or has lost its sender. */
  lemma {:induction false} WokenByAncestor(t: Tree, g: nat)
    requires WellFormed(t) && g < |t|
    ensures TokenReady(t, g) <==> exists a: nat :: a < |t| && Above(t, a, g) && t[a].Signalled()
    ensures TaskWoken(t, g) <==> TokenReady(t, g)
    decreases g
  {
    CancelledByAncestor(t, g);
    assert Above(t, g, g);
    if t[g].parent.Some? {
      var p := t[g].parent.value;
      WokenByAncestor(t, p);
      if TokenReady(t, p) {
        var a: nat :| a < |t| && Above(t, a, p) && t[a].Signalled();
        assert Above(t, a, g);
      }
      if IsCancelled(t, p) {
        CancelledByAncestor(t, p);
        var a: nat :| a < |t| && Above(t, a, p) && t[a].cancelled;
        assert t[a].Signalled();
      }
    }
  }

  lemma {:induction false} AboveSame(t: Tree, t': Tree, a: nat, g: nat)
    requires WellFormed(t) && WellFormed(t') && g < |t| <= |t'|
    requires forall i :: 0 <= i < |t| ==> t'[i].parent == t[i].parent
    ensures Above(t', a, g) <==> Above(t, a, g)
    decreases g
  {
    if t[g].parent.Some? {
      AboveSame(t, t', a, t[g].parent.value);
    }
  }

  /** What one request does, exactly. Every owned group strictly below reads as
      cancelled afterwards, also below groups whose handles are gone. The group itself
      does when anyone listens to it; with no listener the request leaves no trace. */
  lemma CancelReaches(t: Tree, g: nat, d: nat)
    requires Good(t) && HasHandle(t, g) && d < |t|
    ensures Good(Step(t, Cancel(g)))
    ensures IsCancelled(Step(t, Cancel(g)), d) <==> IsCancelled(t, d) || (Above(t, g, d) && Listened(t, g))
    ensures Above(t, g, d) && d != g && t[d].Owned() ==> IsCancelled(Step(t, Cancel(g)), d)
    ensures !Listened(t, g) ==> Step(t, Cancel(g)) == t
  {
    var t' := Step(t, Cancel(g));
    StepGood(t, Cancel(g));
    CancelledByAncestor(t, d);
    CancelledByAncestor(t', d);
    forall a: nat ensures Above(t', a, d) <==> Above(t, a, d) {
      AboveSame(t, t', a, d);
    }
    if Above(t, g, d) && d != g && t[d].Owned() {
      assert OwnedBelow(t, g, d);
      ListenedIff(t, g);
    }
    if Listened(t, g) {
      FlaggedReads(t, t', g, d);
    }
  }

  lemma FlaggedReads(t: Tree, t': Tree, g: nat, d: nat)
    requires WellFormed(t) && WellFormed(t') && d < |t| && g < |t|
    requires t' == t[g := t[g].(cancelled := true)]
    requires forall a: nat :: Above(t', a, d) <==> Above(t, a, d)
    ensures IsCancelled(t', d) <==> IsCancelled(t, d) || Above(t, g, d)
  {
    CancelledByAncestor(t, d);
    CancelledByAncestor(t', d);
    if Above(t, g, d) {
      assert t'[g].cancelled && Above(t', g, d);
    }
    if IsCancelled(t, d) {
      var a: nat :| a < |t| && Above(t, a, d) && t[a].cancelled;
      assert t'[a].cancelled && Above(t', a, d);
    }
    if IsCancelled(t', d) {
      var a: nat :| a < |t'| && Above(t', a, d) && t'[a].cancelled;
      assert Above(t, a, d) && (a == g || t[a].cancelled);
    }
  }

  /** Exactly when a request on `a` reaches a task registered in `g` at or below it:
      always from a proper ancestor; on its own group when the task has subscribed or
      when somebody else listens. A task caught between registration and subscription
      with no other listener is missed. */
  lemma RequestReachesTask(t: Tree, a: nat, g: nat, x: nat)
    requires Good(t) && HasHandle(t, a) && g < |t| && Above(t, a, g)
    requires x in t[g].spawning + t[g].running
    ensures Good(Step(t, Cancel(a)))
    ensures IsCancelled(Step(t, Cancel(a)), g) <==>
            IsCancelled(t, g) || a != g || x in t[g].running || Listened(t, g)
  {
    CancelReaches(t, a, g);
  }

  // --------------------------------------------------------------- whole runs

  /** `trees` are the states before, between and after the events. */
  ghost predicate Trace(events: seq<Event>, trees: seq<Tree>) {
    && |trees| == |events| + 1
    && trees[0] == ROOT_ONLY
    && forall i :: 0 <= i < |events| ==> Enabled(trees[i], events[i]) && trees[i + 1] == Step(trees[i], events[i])
  }

  lemma {:induction false} TraceGood(events: seq<Event>, trees: seq<Tree>, i: nat)
    requires Trace(events, trees) && i <= |events|
    ensures Good(trees[i])
    ensures forall k :: 0 <= k <= i ==> |trees[k]| <= |trees[i]|
  {
    if i > 0 {
      TraceGood(events, trees, i - 1);
      assert Enabled(trees[i - 1], events[i - 1]) && trees[i] == Step(trees[i - 1], events[i - 1]);
      StepGood(trees[i - 1], events[i - 1]);
    }
  }

  /** The `k`-th event is a request on `a` that somebody was there to hear. */
  ghost predicate Heard(events: seq<Event>, trees: seq<Tree>, k: nat, a: nat) {
    k < |events| && k < |trees| && a < |trees[k]| && events[k] == Cancel(a) && Listened(trees[k], a)
  }

  /** The event takes away the last owner of the sender of `a`. */
  predicate DropsSender(t: Tree, e: Event, a: nat)
    requires a < |t|
  {
    match e
    case DropHandle(g) => g == a && t[a].running == {}
    case Exit(g, x) => g == a && !t[a].handle && t[a].running == {x}
    case _ => false
  }

  predicate DroppedAt(events: seq<Event>, trees: seq<Tree>, k: nat, a: nat) {
    k < |events| && k < |trees| && a < |trees[k]| && DropsSender(trees[k], events[k], a)
  }

  lemma NodeStep(t: Tree, e: Event, g: nat)
    requires Good(t) && Enabled(t, e) && g < |Step(t, e)|
    ensures g < |t| ==> (Step(t, e)[g].cancelled <==> t[g].cancelled || (e == Cancel(g) && Listened(t, g)))
    ensures g < |t| ==> (Step(t, e)[g].SenderAlive() <==> t[g].SenderAlive() && !DropsSender(t, e, g))
    ensures g >= |t| ==> !Step(t, e)[g].cancelled && Step(t, e)[g].SenderAlive()
  {
  }

  /** A group's own flag and sender, as a matter of history. */
  lemma {:induction false} NodeHistory(events: seq<Event>, trees: seq<Tree>, i: nat, g: nat)
    requires Trace(events, trees) && i <= |events| && g < |trees[i]|
    ensures trees[i][g].cancelled <==> exists k: nat :: k < i && Heard(events, trees, k, g)
    ensures !trees[i][g].SenderAlive() <==> exists k: nat :: k < i && DroppedAt(events, trees, k, g)
  {
    if i > 0 {
      var t, e := trees[i - 1], events[i - 1];
      assert Enabled(t, e) && trees[i] == Step(t, e);
      TraceGood(events, trees, i - 1);
      NodeStep(t, e, g);
      if g < |t| {
        NodeHistory(events, trees, i - 1, g);
        assert trees[i][g].cancelled <==> t[g].cancelled || Heard(events, trees, i - 1, g);
        assert !trees[i][g].SenderAlive() <==> !t[g].SenderAlive() || DroppedAt(events, trees, i - 1, g);
      }
    }
  }

  /** Over every run: a group reads as cancelled exactly when, at some point, a
      request on it or on an ancestor was heard. In particular cancellation is never
      undone and extends to groups created afterwards. */
  lemma CancellationHistory(events: seq<Event>, trees: seq<Tree>, g: nat)
    requires Trace(events, trees) && g < |trees[|events|]|
    ensures Good(trees[|events|])
    ensures IsCancelled(trees[|events|], g) <==>
            exists k: nat, a: nat :: Heard(events, trees, k, a) && Above(trees[|events|], a, g)
  {
    var n := |events|;
    var t := trees[n];
    TraceGood(events, trees, n);
    CancelledByAncestor(t, g);
    if IsCancelled(t, g) {
      var a: nat :| a < |t| && Above(t, a, g) && t[a].cancelled;
      NodeHistory(events, trees, n, a);
      var k: nat :| k < n && Heard(events, trees, k, a);
    }
    if k: nat, a: nat :| Heard(events, trees, k, a) && Above(t, a, g) {
      AboveBounds(t, a, g);
      NodeHistory(events, trees, n, a);
      assert t[a].cancelled;
    }
  }

  /** Over every run: a task is woken exactly when a request on its group or an
      ancestor was heard, or an ancestor has lost its sender. Its own group cannot
      have, because the wrapper holds it. */
  lemma WakeHistory(events: seq<Event>, trees: seq<Tree>, g: nat)
    requires Trace(events, trees) && g < |trees[|events|]|
    ensures Good(trees[|events|])
    ensures TaskWoken(trees[|events|], g) <==>
            exists k: nat, a: nat :: (Heard(events, trees, k, a) || DroppedAt(events, trees, k, a)) &&
              Above(trees[|events|], a, g)
    ensures trees[|events|][g].running != {} ==> !exists k: nat :: DroppedAt(events, trees, k, g)
  {
    var n := |events|;
    var t := trees[n];
    TraceGood(events, trees, n);
    WokenByAncestor(t, g);
    NodeHistory(events, trees, n, g);
    if TaskWoken(t, g) {
      var a: nat :| a < |t| && Above(t, a, g) && t[a].Signalled();
      NodeHistory(events, trees, n, a);
      var k: nat :| k < n && (Heard(events, trees, k, a) || DroppedAt(events, trees, k, a));
    }
    if k: nat, a: nat :| (Heard(events, trees, k, a) || DroppedAt(events, trees, k, a)) && Above(t, a, g) {
      AboveBounds(t, a, g);
      NodeHistory(events, trees, n, a);
      assert t[a].Signalled();
    }
  }

  /** `supervisor.group("a").group("b")` drops `a` at once. A task of `b` is then
      woken, although nothing reads as cancelled and nobody asked. */
  lemma DroppedParentWakes()
    ensures var events := [NewGroup(0), NewGroup(1), DropHandle(1), Register(2, 1), Subscribe(2, 1)];
      exists trees: seq<Tree> :: Trace(events, trees) && |trees[5]| == 3 && Good(trees[5])
        && 1 in trees[5][2].running && TaskWoken(trees[5], 2) && !IsCancelled(trees[5], 2)
  {
    var events := [NewGroup(0), NewGroup(1), DropHandle(1), Register(2, 1), Subscribe(2, 1)];
    var root, a, b := Node(None, false, true, {}, {}, {}), Node(Some(0), false, true, {}, {}, {}),
      Node(Some(1), false, true, {}, {}, {});
    var gone := a.(handle := false);
    var last := [root, gone, b.(running := {1})];
    var trees := [ROOT_ONLY, [root, a], [root, a, b], [root, gone, b], [root, gone, b.(spawning := {1})], last];
    assert Step(trees[0], events[0]) == trees[1];
    assert Step(trees[1], events[1]) == trees[2];
    assert Step(trees[2], events[2]) == trees[3];
    var none: set<nat> := {};
    assert none + {1} == {1} && {1} - {1} == none;
    assert Step(trees[3], events[3]) == trees[4];
    assert Step(trees[4], events[4]) == trees[5];
    assert Trace(events, trees);
    TraceGood(events, trees, 5);
    assert TokenReady(last, 1);
    assert !IsCancelled(last, 0) && !IsCancelled(last, 1);
  }

  /** A request between the registration and the subscription of the only task is lost:
      the task runs, is not woken, and nothing reads as cancelled. */
  lemma RequestMissesTask()
    ensures var events := [Register(0, 1), Cancel(0), Subscribe(0, 1)];
      exists trees: seq<Tree> :: Trace(events, trees) && |trees[3]| == 1 && Good(trees[3])
        && 1 in trees[3][0].running && !TaskWoken(trees[3], 0) && !IsCancelled(trees[3], 0)
  {
    var events := [Register(0, 1), Cancel(0), Subscribe(0, 1)];
    var root := Node(None, false, true, {}, {}, {});
    var waiting, last: Tree := [root.(spawning := {1})], [root.(running := {1})];
    var trees := [ROOT_ONLY, waiting, waiting, last];
    var none: set<nat> := {};
    assert none + {1} == {1} && {1} - {1} == none;
    assert Step(trees[0], events[0]) == trees[1];
    assert !Listened(waiting, 0);
    assert Step(trees[1], events[1]) == trees[2];
    assert Step(trees[2], events[2]) == trees[3];
    assert Trace(events, trees);
    TraceGood(events, trees, 3);
  }
}
