/** Who is in the tree after a run, told by the events: handles, spawners, wrappers,
    tokens and parents. */
module CancellationTreeHistory {
  import opened Common
  import opened CancellationTree

  ghost predicate SwitchedOn(events: seq<Event>, j: nat, i: nat, on: Event, off: Event)
    requires i <= |events|
  {
    j < i && events[j] == on && forall k :: j < k < i ==> events[k] != off
  }

  /** Among the first `i` events `on` occurs, and `off` does not after it. */
  ghost predicate Since(events: seq<Event>, i: nat, on: Event, off: Event)
    requires i <= |events|
  {
    exists j: nat :: SwitchedOn(events, j, i, on, off)
  }

  lemma SinceStep(events: seq<Event>, i: nat, on: Event, off: Event)
    requires i < |events| && on != off
    ensures Since(events, i + 1, on, off) <==> events[i] == on || (Since(events, i, on, off) && events[i] != off)
  {
    if events[i] == on {
      assert SwitchedOn(events, i, i + 1, on, off);
    } else if Since(events, i, on, off) && events[i] != off {
      var j: nat :| SwitchedOn(events, j, i, on, off);
      assert SwitchedOn(events, j, i + 1, on, off);
    } else if Since(events, i + 1, on, off) {
      var j: nat :| SwitchedOn(events, j, i + 1, on, off);
      assert SwitchedOn(events, j, i, on, off);
    }
  }

  /** One event, as it concerns one group and one name. */
  lemma MembersStep(t: Tree, e: Event, g: nat, x: nat)
    requires Enabled(t, e) && g < |t|
    ensures x in Step(t, e)[g].spawning <==>
            e == Register(g, x) || (x in t[g].spawning && e != Subscribe(g, x))
    ensures x in Step(t, e)[g].running <==>
            e == Subscribe(g, x) || (x in t[g].running && e != Exit(g, x))
    ensures x in Step(t, e)[g].tokens <==>
            e == NewToken(g, x) || (x in t[g].tokens && e != DropToken(g, x))
    ensures Step(t, e)[g].handle <==> t[g].handle && e != DropHandle(g)
    ensures Step(t, e)[g].parent == t[g].parent
  {
  }

  lemma NewcomerStep(t: Tree, e: Event, g: nat)
    requires Enabled(t, e) && |t| <= g < |Step(t, e)|
    ensures e.NewGroup? && g == |t|
    ensures Step(t, e)[g] == Node(Some(e.parent), false, true, {}, {}, {})
  {
  }

  lemma TraceAt(events: seq<Event>, trees: seq<Tree>, k: nat)
    requires Trace(events, trees) && k < |events|
    ensures Enabled(trees[k], events[k]) && trees[k + 1] == Step(trees[k], events[k])
    ensures |trees[k]| <= |trees[k + 1]|
  {
  }

  /** No event mentions a group before there is one. */
  lemma {:induction false} NothingBefore(events: seq<Event>, trees: seq<Tree>, i: nat, g: nat, on: Event, off: Event)
    requires Trace(events, trees) && i <= |events| && g >= |trees[i]|
    requires on.Register? || on.Subscribe? || on.NewToken?
    requires on.group == g && on != off
    ensures !Since(events, i, on, off)
  {
    if i > 0 {
      TraceAt(events, trees, i - 1);
      NothingBefore(events, trees, i - 1, g, on, off);
      SinceStep(events, i - 1, on, off);
    }
  }

  /** What a node holds is what the events put there and have not taken away. */
  ghost predicate HoldsSince(events: seq<Event>, node: Node, i: nat, g: nat, x: nat)
    requires i <= |events|
  {
    && (x in node.spawning <==> Since(events, i, Register(g, x), Subscribe(g, x)))
    && (x in node.running <==> Since(events, i, Subscribe(g, x), Exit(g, x)))
    && (x in node.tokens <==> Since(events, i, NewToken(g, x), DropToken(g, x)))
  }

  lemma HoldsStep(events: seq<Event>, t: Tree, i: nat, g: nat, x: nat)
    requires i < |events| && Enabled(t, events[i]) && g < |t| && HoldsSince(events, t[g], i, g, x)
    ensures HoldsSince(events, Step(t, events[i])[g], i + 1, g, x)
  {
    MembersStep(t, events[i], g, x);
    SinceStep(events, i, Register(g, x), Subscribe(g, x));
    SinceStep(events, i, Subscribe(g, x), Exit(g, x));
    SinceStep(events, i, NewToken(g, x), DropToken(g, x));
  }

  /** A task spawns from its registration to its subscription and runs from there to
      its exit; a token is held from its creation until it is dropped. */
  lemma {:induction false} MembersHistory(events: seq<Event>, trees: seq<Tree>, i: nat, g: nat, x: nat)
    requires Trace(events, trees) && i <= |events| && g < |trees[i]|
    ensures HoldsSince(events, trees[i][g], i, g, x)
  {
    if i > 0 {
      TraceAt(events, trees, i - 1);
      if g < |trees[i - 1]| {
        MembersHistory(events, trees, i - 1, g, x);
        HoldsStep(events, trees[i - 1], i - 1, g, x);
      } else {
        NewcomerStep(trees[i - 1], events[i - 1], g);
        Unheard(events, trees, i, g, x);
      }
    }
  }

  /** A group's creation is none of these events. */
  lemma Unheard(events: seq<Event>, trees: seq<Tree>, i: nat, g: nat, x: nat)
    requires Trace(events, trees) && 0 < i <= |events| && g >= |trees[i - 1]| && events[i - 1].NewGroup?
    ensures HoldsSince(events, Node(None, false, true, {}, {}, {}), i, g, x)
  {
    NothingBefore(events, trees, i - 1, g, Register(g, x), Subscribe(g, x));
    NothingBefore(events, trees, i - 1, g, Subscribe(g, x), Exit(g, x));
    NothingBefore(events, trees, i - 1, g, NewToken(g, x), DropToken(g, x));
    SinceStep(events, i - 1, Register(g, x), Subscribe(g, x));
    SinceStep(events, i - 1, Subscribe(g, x), Exit(g, x));
    SinceStep(events, i - 1, NewToken(g, x), DropToken(g, x));
  }

  ghost predicate Created(events: seq<Event>, trees: seq<Tree>, i: nat, g: nat, p: nat)
    requires i <= |events| < |trees|
  {
    exists k: nat :: k < i && events[k] == NewGroup(p) && |trees[k]| == g
  }

  lemma CreatedKept(events: seq<Event>, trees: seq<Tree>, i: nat, g: nat, p: nat)
    requires i < |events| < |trees| && Created(events, trees, i, g, p)
    ensures Created(events, trees, i + 1, g, p)
  {
  }

  lemma CreatedNow(events: seq<Event>, trees: seq<Tree>, i: nat, g: nat, p: nat)
    requires i < |events| < |trees| && events[i] == NewGroup(p) && |trees[i]| == g
    ensures Created(events, trees, i + 1, g, p)
  {
  }

  /** A handle lasts until it is dropped, and a group's parent is the one it was created
      under; only the root has none. */
  lemma {:induction false} GroupHistory(events: seq<Event>, trees: seq<Tree>, i: nat, g: nat)
    requires Trace(events, trees) && i <= |events| && g < |trees[i]|
    ensures trees[i][g].handle <==> DropHandle(g) !in events[..i]
    ensures trees[i][g].parent.None? <==> g == 0
    ensures trees[i][g].parent.Some? ==> Created(events, trees, i, g, trees[i][g].parent.value)
  {
    if i > 0 {
      TraceAt(events, trees, i - 1);
      assert events[..i] == events[..i - 1] + [events[i - 1]];
      if g < |trees[i - 1]| {
        GroupHistory(events, trees, i - 1, g);
        MembersStep(trees[i - 1], events[i - 1], g, 0);
        if trees[i][g].parent.Some? {
          CreatedKept(events, trees, i - 1, g, trees[i][g].parent.value);
        }
      } else {
        NewcomerStep(trees[i - 1], events[i - 1], g);
        NotDropped(events, trees, i - 1, g);
        CreatedNow(events, trees, i - 1, g, events[i - 1].parent);
        RootFirst(events, trees, i - 1);
      }
    }
  }

  lemma {:induction false} RootFirst(events: seq<Event>, trees: seq<Tree>, i: nat)
    requires Trace(events, trees) && i <= |events|
    ensures |trees[i]| > 0
  {
    if i > 0 {
      RootFirst(events, trees, i - 1);
      TraceAt(events, trees, i - 1);
    }
  }

  lemma {:induction false} NotDropped(events: seq<Event>, trees: seq<Tree>, i: nat, g: nat)
    requires Trace(events, trees) && i <= |events| && g >= |trees[i]|
    ensures DropHandle(g) !in events[..i]
  {
    if i > 0 {
      TraceAt(events, trees, i - 1);
      NotDropped(events, trees, i - 1, g);
      assert events[..i] == events[..i - 1] + [events[i - 1]];
    }
  }
}
