/** The broadcaster's bounded operation cache: a map from CID to operation with a
    first-in first-out eviction order. */
module OpCache {
  import opened Common

  type Cid = nat

  /** A CID is an operation's parent commitment; `body` is the rest. */
  datatype Op = Op(cid: Cid, body: nat)

  datatype Cache = Cache(oplog: map<Cid, Op>, order: seq<Cid>)

  datatype Event = Add(op: Op) | MergeOne(op: Op)

  function Trimmed(c: Cache, cap: nat): Cache
    decreases |c.order|
  {
    if |c.order| <= cap then c else Trimmed(Cache(c.oplog - {c.order[0]}, c.order[1..]), cap)
  }

  /** `insert_op_bounded` overwrites a stored operation, `merge_op_bounded` keeps it. */
  function Grown(c: Cache, e: Event): Cache {
    var id := e.op.cid;
    Cache(if e.MergeOne? && id in c.oplog then c.oplog else c.oplog[id := e.op],
          if id in c.oplog then c.order else c.order + [id])
  }

  function Apply(c: Cache, e: Event, cap: nat): Cache { Trimmed(Grown(c, e), cap) }

  class BroadcasterState {
    var oplog: map<Cid, Op>
    var order: seq<Cid>

    ghost function State(): Cache reads this { Cache(oplog, order) }

    constructor ()
      ensures State() == Cache(map[], [])
    {
      oplog, order := map[], [];
    }

    method InsertBounded(op: Op, cap: nat)
      modifies this
      ensures State() == Apply(old(State()), Add(op), cap)
    {
      if op.cid !in oplog {
        order := order + [op.cid];
      }
      oplog := oplog[op.cid := op];
      Trim(cap);
    }

    method MergeBounded(op: Op, cap: nat)
      modifies this
      ensures State() == Apply(old(State()), MergeOne(op), cap)
    {
      if op.cid !in oplog {
        order := order + [op.cid];
        oplog := oplog[op.cid := op];
      }
      Trim(cap);
    }

    method Trim(cap: nat)
      modifies this
      ensures State() == Trimmed(old(State()), cap)
    {
      while |order| > cap
        invariant Trimmed(State(), cap) == Trimmed(old(State()), cap)
        decreases |order|
      {
        oplog, order := oplog - {order[0]}, order[1..];
      }
    }

    /** `merge_remote_ops`. */
    method MergeRemoteOps(ops: seq<Op>, cap: nat)
      modifies this
      ensures State() == After(old(State()), Merges(ops), cap)
    {
      ghost var start := State();
      for i := 0 to |ops|
        invariant State() == After(start, Merges(ops[..i]), cap)
      {
        ghost var merged := Merges(ops[..i]);
        assert Merges(ops[..i + 1]) == merged + [MergeOne(ops[i])];
        AfterSnoc(start, merged, MergeOne(ops[i]), cap);
        MergeBounded(ops[i], cap);
      }
      assert ops[..|ops|] == ops;
    }
  }

  function Merges(ops: seq<Op>): seq<Event> { seq(|ops|, i requires 0 <= i < |ops| => MergeOne(ops[i])) }

  function After(c: Cache, events: seq<Event>, cap: nat): Cache {
    if events == [] then c else Apply(After(c, events[..|events| - 1], cap), events[|events| - 1], cap)
  }

  lemma AfterSnoc(c: Cache, events: seq<Event>, e: Event, cap: nat)
    ensures After(c, events + [e], cap) == Apply(After(c, events, cap), e, cap)
  {
    assert (events + [e])[..|events|] == events;
  }

  // ---------------------------------------------------- the reference definition

  /** The log of admissions: an operation is admitted when its CID is not among
      the last `cap` admitted. No cache, no eviction. */
  function Admissions(events: seq<Event>, cap: nat): seq<Cid> {
    if events == [] then []
    else
      var past, id := Admissions(events[..|events| - 1], cap), events[|events| - 1].op.cid;
      if id in Latest(past, cap) then past else past + [id]
  }

  /** What is stored under a CID among the last `cap` admitted: the operation that
      was admitted, or the latest one added since. */
  function Stored(events: seq<Event>, cap: nat, id: Cid): Option<Op> {
    if events == [] then None
    else
      var past, e := events[..|events| - 1], events[|events| - 1];
      var admitted := e.op.cid == id && id !in Latest(Admissions(past, cap), cap);
      if admitted || (e.Add? && e.op.cid == id) then Some(e.op) else Stored(past, cap, id)
  }

  predicate Tidy(c: Cache) { NoDup(c.order) && c.oplog.Keys == Elems(c.order) }

  /** Trimming keeps the newest `cap` entries and what they store. */
  lemma {:induction false} TrimmedExact(c: Cache, cap: nat)
    requires Tidy(c)
    ensures var t := Trimmed(c, cap);
      && Tidy(t) && t.order == Latest(c.order, cap)
      && forall id <- t.oplog :: id in c.oplog && t.oplog[id] == c.oplog[id]
    decreases |c.order|
  {
    if |c.order| > cap {
      var d := Cache(c.oplog - {c.order[0]}, c.order[1..]);
      assert Tidy(d) by {
        forall id ensures id in d.oplog.Keys <==> id in Elems(d.order) {
          assert id in Elems(c.order) <==> id == c.order[0] || id in c.order[1..] by {
            assert c.order == [c.order[0]] + c.order[1..];
          }
        }
      }
      TrimmedExact(d, cap);
    }
  }

  lemma GrownTidy(c: Cache, e: Event)
    requires Tidy(c)
    ensures Tidy(Grown(c, e))
    ensures e.op.cid in c.oplog <==> e.op.cid in c.order
  {
    var id := e.op.cid;
    assert id in Elems(c.order) <==> id in c.order;
    if id !in c.oplog {
      ElemsSnoc(c.order, id);
    }
  }

  /** First-in first-out, exactly: after any additions and merges the order is the
      last `cap` admissions, without repeats, and the map holds exactly those. So
      an operation is present exactly when fewer than `cap` others have been
      admitted since it last was. */
  lemma {:induction false} CacheIsLastAdmitted(events: seq<Event>, cap: nat)
    ensures var c := After(Cache(map[], []), events, cap);
      Tidy(c) && c.order == Latest(Admissions(events, cap), cap) && |c.order| <= cap
  {
    if events == [] {
      assert Elems<Cid>([]) == {};
    } else {
      var past, e := events[..|events| - 1], events[|events| - 1];
      CacheIsLastAdmitted(past, cap);
      var b := After(Cache(map[], []), past, cap);
      GrownTidy(b, e);
      TrimmedExact(Grown(b, e), cap);
      LatestSnoc(Admissions(past, cap), e.op.cid, cap);
    }
  }

  lemma LatestMember(s: seq<Cid>, n: nat, id: Cid)
    ensures id in Latest(s, n) <==> exists i :: 0 <= i < |s| && s[i] == id && |s| - 1 - i < n
  {
    var tail := Latest(s, n);
    var skipped := |s| - |tail|;
    if id in tail {
      var j :| 0 <= j < |tail| && tail[j] == id;
      assert s[skipped + j] == id;
    }
    if i :| 0 <= i < |s| && s[i] == id && |s| - 1 - i < n {
      assert tail[i - skipped] == id;
    }
  }

  lemma PresentIff(events: seq<Event>, cap: nat, id: Cid)
    ensures var log := Admissions(events, cap);
      id in After(Cache(map[], []), events, cap).oplog <==>
      exists i :: 0 <= i < |log| && log[i] == id && |log| - 1 - i < cap
  {
    var c := After(Cache(map[], []), events, cap);
    CacheIsLastAdmitted(events, cap);
    assert id in c.oplog <==> id in Elems(c.order);
    LatestMember(Admissions(events, cap), cap, id);
  }

  lemma LatestSnoc(s: seq<Cid>, id: Cid, cap: nat)
    ensures Latest(Latest(s, cap) + [id], cap) == Latest(s + [id], cap)
    ensures Latest(Latest(s, cap), cap) == Latest(s, cap)
  {
    if |s| > cap {
      assert Latest(s, cap) + [id] == (s + [id])[|s| - cap..];
    }
  }

  /** One operation: an addition or an admission stores it, and nothing else changes
      what is stored under a CID that stays. */
  lemma AppliedContents(c: Cache, e: Event, cap: nat, id: Cid)
    requires Tidy(c) && id in Apply(c, e, cap).oplog
    ensures e.op.cid != id ==> id in c.oplog
    ensures Apply(c, e, cap).oplog[id] == if e.op.cid == id && (e.Add? || id !in c.oplog) then e.op else c.oplog[id]
  {
    GrownTidy(c, e);
    TrimmedExact(Grown(c, e), cap);
  }

  /** And the stored contents are those of the reference: a merge never replaces a
      stored operation, an addition always does. */
  lemma {:induction false} CacheContents(events: seq<Event>, cap: nat, id: Cid)
    requires id in After(Cache(map[], []), events, cap).oplog
    ensures Stored(events, cap, id) == Some(After(Cache(map[], []), events, cap).oplog[id])
  {
    var past, e := events[..|events| - 1], events[|events| - 1];
    var b := After(Cache(map[], []), past, cap);
    CacheIsLastAdmitted(past, cap);
    GrownTidy(b, e);
    AppliedContents(b, e, cap, id);
    if e.op.cid != id || (e.MergeOne? && id in b.oplog) {
      CacheContents(past, cap, id);
    }
  }
}
