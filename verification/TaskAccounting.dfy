/** Bookkeeping of one task group under every interleaving of spawning threads,
    task wrappers and force-aborts. Each event is one critical section on the
    group's task table (or the atomic id counter). */
module TaskAccounting {
  import opened Common

  datatype Meta = Meta(name: string, attached: bool)
  type Tasks = map<nat, Meta>

  datatype Report = Report(ids: seq<nat>, names: seq<string>)

  /** Active ids below `n` in ascending order, the order of the source's map. */
  function Listed(tasks: Tasks, n: nat): seq<nat> {
    if n == 0 then [] else Listed(tasks, n - 1) + if n - 1 in tasks then [n - 1] else []
  }

  function NamesOf(tasks: Tasks, ids: seq<nat>): seq<string>
    requires forall id <- ids :: id in tasks
  {
    seq(|ids|, i requires 0 <= i < |ids| => tasks[ids[i]].name)
  }

  lemma {:induction false} ListedExact(tasks: Tasks, n: nat)
    ensures forall id :: id in Listed(tasks, n) <==> id in tasks && id < n
    ensures forall i, j :: 0 <= i < j < |Listed(tasks, n)| ==> Listed(tasks, n)[i] < Listed(tasks, n)[j]
  {
    if n > 0 {
      ListedExact(tasks, n - 1);
      var below := Listed(tasks, n - 1);
      assert forall k :: 0 <= k < |below| ==> below[k] in below;
    }
  }

  function ReportOf(tasks: Tasks, n: nat): Report
  {
    ListedExact(tasks, n);
    Report(Listed(tasks, n), NamesOf(tasks, Listed(tasks, n)))
  }

  function WithHandle(tasks: Tasks): set<nat> { set id | id in tasks && tasks[id].attached }

  function Attach(tasks: Tasks, id: nat): Tasks {
    if id in tasks then tasks[id := tasks[id].(attached := true)] else tasks
  }

  datatype Event =
    | Allocate
    | Register(id: nat, name: string)
    | Start(id: nat)
    | AttachHandle(id: nat)
    | Exit(id: nat)
    | ForceAbort

  /** What a group shares between threads. */
  datatype Table = Table(nextId: nat, tasks: Tasks)

  function OnTable(t: Table, e: Event): Table {
    match e
    case Allocate => t.(nextId := t.nextId + 1)
    case Register(id, name) => t.(tasks := t.tasks[id := Meta(name, false)])
    case Start(_) => t
    case AttachHandle(id) => t.(tasks := Attach(t.tasks, id))
    case Exit(id) => t.(tasks := t.tasks - {id})
    case ForceAbort => t.(tasks := map[])
  }

  // ------------------------------------------------------- the group's methods

  class TaskGroup {
    var nextTaskId: nat
    var tasks: Tasks

    ghost function Shared(): Table reads this { Table(nextTaskId, tasks) }

    /** Ids come from the counter. */
    ghost predicate Valid() reads this { forall id <- tasks :: id < nextTaskId }

    constructor ()
      ensures Valid() && Shared() == Table(1, map[])
    {
      nextTaskId, tasks := 1, map[];
    }

    method AllocateId() returns (id: nat)
      requires Valid()
      modifies this
      ensures Valid() && Shared() == OnTable(old(Shared()), Allocate) && id == old(nextTaskId)
    {
      id := nextTaskId;
      nextTaskId := nextTaskId + 1;
    }

    method RegisterTask(id: nat, name: string)
      requires Valid() && id < nextTaskId
      modifies this
      ensures Valid() && Shared() == OnTable(old(Shared()), Register(id, name))
    {
      tasks := tasks[id := Meta(name, false)];
    }

    method AttachNativeHandle(id: nat)
      requires Valid()
      modifies this
      ensures Valid() && Shared() == OnTable(old(Shared()), AttachHandle(id))
    {
      if id in tasks {
        tasks := tasks[id := tasks[id].(attached := true)];
      }
    }

    method CompleteTask(id: nat) returns (removed: bool)
      requires Valid()
      modifies this
      ensures Valid() && Shared() == OnTable(old(Shared()), Exit(id))
      ensures removed <==> id in old(tasks)
    {
      removed := id in tasks;
      tasks := tasks - {id};
    }

    /** Returns no report when there was nothing to abort. `signalled` are the
        tasks whose join handle was told to abort. */
    method ForceAbortRemaining() returns (report: Option<Report>, signalled: set<nat>)
      requires Valid()
      modifies this
      ensures Valid() && Shared() == OnTable(old(Shared()), ForceAbort)
      ensures report == if old(tasks) == map[] then None else Some(ReportOf(old(tasks), nextTaskId))
      ensures signalled == WithHandle(old(tasks))
    {
      signalled := {};
      if |tasks| == 0 {
        return None, signalled;
      }
      var ids: seq<nat>, names: seq<string> := [], [];
      for id := 0 to nextTaskId
        invariant tasks == old(tasks) && nextTaskId == old(nextTaskId)
        invariant ids == Listed(tasks, id) && |names| == |ids|
        invariant forall i :: 0 <= i < |ids| ==> ids[i] in tasks && names[i] == tasks[ids[i]].name
        invariant signalled == set k | k in tasks && k < id && tasks[k].attached
      {
        if id in tasks {
          if tasks[id].attached {
            signalled := signalled + {id};
          }
          ids, names := ids + [id], names + [tasks[id].name];
        }
      }
      assert names == NamesOf(tasks, ids);
      report := Some(Report(ids, names));
      tasks := map[];
    }
  }

  // --------------------------------------------------- the interleaved system

  /** How far the spawning thread of an id has come. */
  datatype Stage = Allocated | Registered | Started | Attached

  datatype System = System(
    table: Table,
    stage: map<nat, Stage>,     // spawners' program counters
    exited: set<nat>,           // wrappers that have called `complete_task`
    removed: set<nat>,          // ids whose completion took them off the table
    signalled: set<nat>,        // ids whose handle was aborted
    reports: seq<Report>)

  const INITIAL := System(Table(1, map[]), map[], {}, {}, {}, [])

  predicate StageIs(s: System, id: nat, stages: set<Stage>) { id in s.stage && s.stage[id] in stages }

  predicate Enabled(s: System, e: Event) {
    match e
    case Allocate => true
    case Register(id, _) => StageIs(s, id, {Allocated})
    case Start(id) => StageIs(s, id, {Registered})
    case AttachHandle(id) => StageIs(s, id, {Started})
    case Exit(id) => StageIs(s, id, {Started, Attached}) && id !in s.exited
    case ForceAbort => true
  }

  function Step(s: System, e: Event): System {
    var s' := s.(table := OnTable(s.table, e));
    match e
    case Allocate => s'.(stage := s.stage[s.table.nextId := Allocated])
    case Register(id, _) => s'.(stage := s.stage[id := Registered])
    case Start(id) => s'.(stage := s.stage[id := Started])
    case AttachHandle(id) => s'.(stage := s.stage[id := Attached])
    case Exit(id) =>
      s'.(exited := s.exited + {id}, removed := if id in s.table.tasks then s.removed + {id} else s.removed)
    case ForceAbort =>
      if s.table.tasks == map[] then s'
      else s'.(reports := s.reports + [ReportOf(s.table.tasks, s.table.nextId)],
               signalled := s.signalled + WithHandle(s.table.tasks))
  }

  function Mentions(reports: seq<Report>, id: nat): nat {
    if reports == [] then 0
    else Mentions(reports[..|reports| - 1], id) + multiset(reports[|reports| - 1].ids)[id]
  }

  /** In how many places an id is accounted for. */
  function Places(s: System, id: nat): nat {
    (if id in s.table.tasks then 1 else 0) + (if id in s.removed then 1 else 0) + Mentions(s.reports, id)
  }

  predicate Spawned(s: System, id: nat) { id in s.stage && s.stage[id] != Allocated }

  predicate GoodId(s: System, id: nat) {
    && Places(s, id) == (if Spawned(s, id) then 1 else 0)
    && (id in s.stage <==> 1 <= id < s.table.nextId)
    && s.table.nextId >= 1
    && (id in s.table.tasks ==> id !in s.exited && (s.table.tasks[id].attached <==> s.stage[id] == Attached))
    && (id in s.removed ==> id in s.exited)
    && (id in s.exited ==> StageIs(s, id, {Started, Attached}))
    && (id in s.signalled ==> Mentions(s.reports, id) == 1)
  }

  ghost predicate Invariant(s: System) { forall id :: GoodId(s, id) }

  lemma MentionsSnoc(reports: seq<Report>, tasks: Tasks, n: nat, id: nat)
    requires id in tasks ==> id < n
    ensures Mentions(reports + [ReportOf(tasks, n)], id) == Mentions(reports, id) + if id in tasks then 1 else 0
  {
    var ids := Listed(tasks, n);
    ListedExact(tasks, n);
    var longer := reports + [ReportOf(tasks, n)];
    assert longer[..|longer| - 1] == reports;
    if id in ids {
      OnceIn(ids, id);
    } else {
      assert id !in multiset(ids);
    }
  }

  lemma OnceIn(ids: seq<nat>, id: nat)
    requires id in ids && NoDup(ids)
    ensures multiset(ids)[id] == 1
  {
    var i :| 0 <= i < |ids| && ids[i] == id;
    assert ids == ids[..i] + [id] + ids[i + 1..];
    assert id !in ids[..i] && id !in ids[i + 1..];
    assert multiset(ids) == multiset(ids[..i]) + multiset{id} + multiset(ids[i + 1..]);
  }

  lemma AbortStep(s: System, id: nat)
    requires GoodId(s, id)
    ensures GoodId(Step(s, ForceAbort), id)
  {
    if s.table.tasks != map[] {
      assert id in s.table.tasks ==> Spawned(s, id);
      MentionsSnoc(s.reports, s.table.tasks, s.table.nextId, id);
    }
  }

  lemma InvariantStep(s: System, e: Event)
    requires Invariant(s) && Enabled(s, e)
    ensures Invariant(Step(s, e))
  {
    forall id ensures GoodId(Step(s, e), id) {
      assert GoodId(s, id);
      if e.ForceAbort? {
        AbortStep(s, id);
      } else if e.Allocate? {
        assert GoodId(s, s.table.nextId);
      }
    }
  }

  // --------------------------------------------------------------- whole runs

  ghost predicate Runs(from: System, events: seq<Event>, to: System)
    decreases events
  {
    if events == [] then from == to
    else Enabled(from, events[0]) && Runs(Step(from, events[0]), events[1..], to)
  }

  lemma {:induction false} InvariantRuns(from: System, events: seq<Event>, to: System)
    requires Invariant(from) && Runs(from, events, to)
    ensures Invariant(to)
    decreases events
  {
    if events != [] {
      InvariantStep(from, events[0]);
      InvariantRuns(Step(from, events[0]), events[1..], to);
    }
  }

  lemma InitialGood()
    ensures Invariant(INITIAL)
  {
  }

  /** On every interleaving each spawned id is in exactly one place: still active,
      removed by its own completion, or listed once in one force-abort report.
      Ids not yet registered are nowhere. */
  lemma AccountedOnce(events: seq<Event>, s: System, id: nat)
    requires Runs(INITIAL, events, s)
    ensures Spawned(s, id) ==>
      || (id in s.table.tasks && id !in s.removed && Mentions(s.reports, id) == 0)
      || (id !in s.table.tasks && id in s.removed && Mentions(s.reports, id) == 0)
      || (id !in s.table.tasks && id !in s.removed && Mentions(s.reports, id) == 1)
    ensures !Spawned(s, id) ==> id !in s.table.tasks && id !in s.removed && Mentions(s.reports, id) == 0
  {
    InitialGood();
    InvariantRuns(INITIAL, events, s);
    assert GoodId(s, id);
  }

  /** No stale entry survives: a task on the table has a wrapper that has not
      exited, so once every wrapper has exited the group is idle. */
  lemma NoStaleEntries(events: seq<Event>, s: System)
    requires Runs(INITIAL, events, s)
    ensures forall id <- s.table.tasks :: id !in s.exited
    ensures (forall id :: Spawned(s, id) ==> id in s.exited) ==> s.table.tasks == map[]
  {
    InitialGood();
    InvariantRuns(INITIAL, events, s);
    forall id <- s.table.tasks ensures id !in s.exited && Spawned(s, id) {
      assert GoodId(s, id);
    }
    if forall id :: Spawned(s, id) ==> id in s.exited {
      assert s.table.tasks.Keys == {};
    }
  }

  /** An id that has left the table: later completions, attaches and aborts never
      bring it back, and its fate is settled. */
  lemma {:induction false} GoneForGood(s: System, events: seq<Event>, t: System, id: nat)
    requires Invariant(s) && Runs(s, events, t)
    requires Spawned(s, id) && id !in s.table.tasks
    ensures Spawned(t, id) && id !in t.table.tasks
    ensures (id in t.removed <==> id in s.removed) && Mentions(t.reports, id) == Mentions(s.reports, id)
    ensures id in t.signalled <==> id in s.signalled
    decreases events
  {
    if events != [] {
      var n := Step(s, events[0]);
      InvariantStep(s, events[0]);
      assert GoodId(s, id) && GoodId(n, id);
      if events[0].Allocate? {
        assert GoodId(s, s.table.nextId);
      }
      if events[0].ForceAbort? && s.table.tasks != map[] {
        assert id < s.table.nextId;
        MentionsSnoc(s.reports, s.table.tasks, s.table.nextId, id);
      }
      GoneForGood(n, events[1..], t, id);
    }
  }

  /** A force-abort reports every active task, but reaches only those whose
      handle was attached. A task caught between registration and attach is
      reported as aborted and is never signalled, however the run continues. */
  lemma AbortReachesAttachedOnly(before: seq<Event>, s: System, after: seq<Event>, t: System, id: nat)
    requires Runs(INITIAL, before, s) && id in s.table.tasks
    requires Runs(Step(s, ForceAbort), after, t)
    ensures Mentions(t.reports, id) == 1 && id !in t.table.tasks
    ensures id in t.signalled <==> StageIs(s, id, {Attached})
  {
    InitialGood();
    InvariantRuns(INITIAL, before, s);
    InvariantStep(s, ForceAbort);
    var n := Step(s, ForceAbort);
    assert GoodId(s, id) && GoodId(n, id);
    assert id !in s.signalled;
    GoneForGood(n, after, t, id);
  }

  /** A force-abort between registration and start: the task is reported as aborted,
      then starts, attaches and runs on, and nothing was ever signalled. */
  lemma AbortReachesNobody()
    ensures exists s ::
      && Runs(INITIAL, [Allocate, Register(1, "t"), ForceAbort, Start(1), AttachHandle(1)], s)
      && Mentions(s.reports, 1) == 1 && s.signalled == {} && StageIs(s, 1, {Attached}) && 1 !in s.exited
  {
    var a := Step(INITIAL, Allocate);
    var b := Step(a, Register(1, "t"));
    assert b == System(Table(2, map[1 := Meta("t", false)]), map[1 := Registered], {}, {}, {}, []);
    CaughtUnattached(b, 1, Meta("t", false));
    var e := GoesOn(Step(b, ForceAbort), 1);
    RunsBy(b, ForceAbort, [Start(1), AttachHandle(1)], e);
    RunsBy(a, Register(1, "t"), [ForceAbort, Start(1), AttachHandle(1)], e);
    RunsBy(INITIAL, Allocate, [Register(1, "t"), ForceAbort, Start(1), AttachHandle(1)], e);
  }

  lemma CaughtUnattached(s: System, id: nat, m: Meta)
    requires s.table.tasks == map[id := m] && !m.attached && id < s.table.nextId && s.reports == []
    ensures var t := Step(s, ForceAbort);
      Mentions(t.reports, id) == 1 && t.signalled == s.signalled && t.exited == s.exited && t.stage == s.stage
  {
    assert id in s.table.tasks && WithHandle(s.table.tasks) == {};
    MentionsSnoc([], s.table.tasks, s.table.nextId, id);
  }

  lemma GoesOn(s: System, id: nat) returns (t: System)
    requires StageIs(s, id, {Registered})
    ensures Runs(s, [Start(id), AttachHandle(id)], t) && StageIs(t, id, {Attached})
    ensures t.reports == s.reports && t.signalled == s.signalled && t.exited == s.exited
  {
    var started := Step(s, Start(id));
    t := Step(started, AttachHandle(id));
    RunsBy(started, AttachHandle(id), [], t);
    RunsBy(s, Start(id), [AttachHandle(id)], t);
  }

  lemma RunsBy(from: System, first: Event, rest: seq<Event>, to: System)
    requires Enabled(from, first) && Runs(Step(from, first), rest, to)
    ensures Runs(from, [first] + rest, to)
  {
    assert ([first] + rest)[1..] == rest;
  }

  // ------------------------------------------------------------- what is reported

  /** The names under which the id was registered. */
  function Registrations(events: seq<Event>, id: nat): seq<string> {
    if events == [] then []
    else
      var e := events[|events| - 1];
      Registrations(events[..|events| - 1], id) + if e.Register? && e.id == id then [e.name] else []
  }

  /** A report pairs ids in ascending order with names. */
  predicate Tidy(r: Report) {
    |r.names| == |r.ids| && forall i, j :: 0 <= i < j < |r.ids| ==> r.ids[i] < r.ids[j]
  }

  /** Everywhere the id appears, it has the name it was registered under. */
  predicate Named(s: System, names: seq<string>, id: nat) {
    && |names| == (if Spawned(s, id) then 1 else 0)
    && (id in s.table.tasks ==> names == [s.table.tasks[id].name])
    && forall r <- s.reports :: Tidy(r) && forall i :: 0 <= i < |r.ids| && r.ids[i] == id ==> names == [r.names[i]]
  }

  lemma ReportNames(tasks: Tasks, n: nat, id: nat, names: seq<string>)
    requires id in tasks ==> names == [tasks[id].name]
    ensures Tidy(ReportOf(tasks, n))
    ensures var r := ReportOf(tasks, n); forall i :: 0 <= i < |r.ids| && r.ids[i] == id ==> names == [r.names[i]]
  {
    ListedExact(tasks, n);
    var r := ReportOf(tasks, n);
    forall i | 0 <= i < |r.ids| && r.ids[i] == id ensures names == [r.names[i]] {
      assert r.ids[i] in Listed(tasks, n);
    }
  }

  lemma NamedStep(s: System, e: Event, names: seq<string>, id: nat)
    requires Enabled(s, e) && GoodId(s, id) && Named(s, names, id)
    ensures Named(Step(s, e), names + (if e.Register? && e.id == id then [e.name] else []), id)
  {
    assert names + [] == names;
    if e.ForceAbort? {
      ReportNames(s.table.tasks, s.table.nextId, id, names);
    } else if e.Register? && e.id == id {
      assert names == [];
    }
  }

  /** The system after a run, from the front or from the back. */
  lemma {:induction false} RunsSnoc(from: System, events: seq<Event>, e: Event, to: System) returns (s: System)
    requires Runs(from, events + [e], to)
    ensures Runs(from, events, s) && Enabled(s, e) && to == Step(s, e)
    decreases events
  {
    var all := events + [e];
    if events == [] {
      s := from;
      assert all[1..] == [];
    } else {
      assert all[0] == events[0] && all[1..] == events[1..] + [e];
      s := RunsSnoc(Step(from, events[0]), events[1..], e, to);
    }
  }

  /** On every interleaving an id is registered at most once, and a report that lists it
      gives the name it was registered under, the ids of a report in ascending order. */
  lemma {:induction false} ReportsNameTasks(events: seq<Event>, s: System, id: nat)
    requires Runs(INITIAL, events, s)
    ensures Named(s, Registrations(events, id), id)
    decreases |events|
  {
    if events != [] {
      var past, e := events[..|events| - 1], events[|events| - 1];
      assert events == past + [e];
      var b := RunsSnoc(INITIAL, past, e, s);
      ReportsNameTasks(past, b, id);
      InitialGood();
      InvariantRuns(INITIAL, past, b);
      NamedStep(b, e, Registrations(past, id), id);
    }
  }
}
