/** Eager pushes under interleaving: the back-pressure check, the per-peer rate
    limit and the insertion of a pending announcement are separate critical
    sections, and any number of pushes run at once. */
module Backpressure {
  import opened Common

  type Cid = nat
  type Peer = nat
  type Rates = map<Peer, nat>

  function RateOf(rates: Rates, p: Peer): nat { if p in rates then rates[p] else 0 }

  // ---------------------------------------------------------- rate limiting

  /** `eligible_peers`: the peers below the limit, each counted as it is taken. */
  function Eligible(rates: Rates, peers: seq<Peer>, limit: nat): (seq<Peer>, Rates) {
    if peers == [] then ([], rates)
    else
      var (chosen, r) := Eligible(rates, peers[..|peers| - 1], limit);
      var p := peers[|peers| - 1];
      if RateOf(r, p) < limit then (chosen + [p], r[p := RateOf(r, p) + 1])
      else (chosen, r[p := RateOf(r, p)])
  }

  method EligiblePeers(rates: Rates, peers: seq<Peer>, limit: nat) returns (chosen: seq<Peer>, after: Rates)
    ensures (chosen, after) == Eligible(rates, peers, limit)
  {
    chosen, after := [], rates;
    for i := 0 to |peers|
      invariant (chosen, after) == Eligible(rates, peers[..i], limit)
    {
      var p := peers[i];
      assert peers[..i + 1][..i] == peers[..i];
      var count := RateOf(after, p);
      if count < limit {
        chosen := chosen + [p];
        count := count + 1;
      }
      after := after[p := count];
    }
    assert peers[..|peers|] == peers;
  }

  function Times(s: seq<Peer>, p: Peer): nat { multiset(s)[p] }

  lemma TimesSnoc(s: seq<Peer>, q: Peer, p: Peer)
    ensures Times(s + [q], p) == Times(s, p) + if p == q then 1 else 0
  {
    assert multiset(s + [q]) == multiset(s) + multiset{q};
  }

  function Min(a: int, b: int): int { if a < b then a else b }

  /** Every peer is taken as often as asked for and allowed, and its counter moves
      by exactly that much. */
  lemma {:induction false} EligibleExact(rates: Rates, peers: seq<Peer>, limit: nat, p: Peer)
    requires RateOf(rates, p) <= limit
    ensures var (chosen, after) := Eligible(rates, peers, limit);
      && Times(chosen, p) == Min(Times(peers, p), limit - RateOf(rates, p))
      && RateOf(after, p) == RateOf(rates, p) + Times(chosen, p)
  {
    if peers != [] {
      var init, q := peers[..|peers| - 1], peers[|peers| - 1];
      EligibleExact(rates, init, limit, p);
      assert peers == init + [q];
      TimesSnoc(init, q, p);
      TimesSnoc(Eligible(rates, init, limit).0, q, p);
    }
  }

  // ------------------------------------------------------------- the system

  datatype Config = Config(maxPending: nat, maxPerPeer: nat)

  /** Where one eager push stands after passing the back-pressure check. */
  datatype Push = Checked(cid: Cid) | Listed(cid: Cid, peers: seq<Peer>) | Selected(cid: Cid, peers: seq<Peer>)

  datatype System = System(
    pending: set<Cid>, rates: Rates, peers: seq<Peer>,
    inFlight: map<nat, Push>,
    picks: seq<Peer>)            // peers selected since the last reset

  const INITIAL := System({}, map[], [], map[], [])

  datatype Event =
    | Check(push: nat, cid: Cid)
    | ListPeers(push: nat)
    | Select(push: nat)
    | Finish(push: nat, sent: bool)
    | DirectPush(cid: Cid)
    | AddPeer(peer: Peer)
    | ResetRates

  predicate Enabled(s: System, e: Event) {
    match e
    case Check(t, _) => t !in s.inFlight
    case ListPeers(t) => t in s.inFlight && s.inFlight[t].Checked?
    case Select(t) => t in s.inFlight && s.inFlight[t].Listed?
    case Finish(t, _) => t in s.inFlight && s.inFlight[t].Selected?
    case _ => true
  }

  /** `Finish` with nobody selected queues the announcement; otherwise the push
      clears it, unless serialization failed before anything was sent. */
  function Step(cfg: Config, s: System, e: Event): System
    requires Enabled(s, e)
  {
    match e
    case Check(t, cid) =>
      if |s.pending| >= cfg.maxPending then s else s.(inFlight := s.inFlight[t := Checked(cid)])
    case ListPeers(t) => s.(inFlight := s.inFlight[t := Listed(s.inFlight[t].cid, s.peers)])
    case Select(t) =>
      var (chosen, rates) := Eligible(s.rates, s.inFlight[t].peers, cfg.maxPerPeer);
      s.(rates := rates, inFlight := s.inFlight[t := Selected(s.inFlight[t].cid, chosen)], picks := s.picks + chosen)
    case Finish(t, sent) =>
      var p := s.inFlight[t];
      var pending :=
        if p.peers == [] then s.pending + {p.cid} else if sent then s.pending - {p.cid} else s.pending;
      s.(pending := pending, inFlight := s.inFlight - {t})
    case DirectPush(cid) => s.(pending := s.pending - {cid})
    case AddPeer(p) => if p in s.peers then s else s.(peers := s.peers + [p])
    case ResetRates => s.(rates := map[], picks := [])
  }

  /** A run with at most `n` pushes past the check at any time; `states` are the
      states before, between and after the events. */
  predicate Trace(cfg: Config, n: nat, events: seq<Event>, states: seq<System>) {
    && |states| == |events| + 1
    && states[0] == INITIAL
    && (forall i :: 0 <= i < |events| ==>
      Enabled(states[i], events[i]) && states[i + 1] == Step(cfg, states[i], events[i]))
    && (forall i :: 0 <= i < |states| ==> |states[i].inFlight| <= n)
  }

  // ------------------------------------------------------------- the bound

  lemma InFlightCount(m: map<nat, Push>, t: nat, p: Push)
    ensures |m[t := p]| == if t in m then |m| else |m| + 1
    ensures t in m ==> |m - {t}| == |m| - 1
  {
    assert m[t := p].Keys == m.Keys + {t};
    assert (m - {t}).Keys == m.Keys - {t};
  }

  lemma PendingCount(s: set<Cid>, c: Cid)
    ensures |s + {c}| <= |s| + 1 && |s - {c}| <= |s|
  {
    SubsetCount(s - {c}, s);
  }

  /** Announcements queued plus pushes that may still queue one. */
  predicate Bounded(cfg: Config, n: nat, s: System) {
    if cfg.maxPending == 0 then s.pending == {} && s.inFlight == map[]
    else |s.pending| + |s.inFlight| <= cfg.maxPending - 1 + n
  }

  lemma BoundedStep(cfg: Config, n: nat, s: System, e: Event)
    requires Bounded(cfg, n, s) && Enabled(s, e) && |Step(cfg, s, e).inFlight| <= n
    ensures Bounded(cfg, n, Step(cfg, s, e))
  {
    match e
    case Check(t, cid) => InFlightCount(s.inFlight, t, Checked(cid));
    case ListPeers(t) => InFlightCount(s.inFlight, t, Listed(s.inFlight[t].cid, s.peers));
    case Select(t) => InFlightCount(s.inFlight, t, Step(cfg, s, e).inFlight[t]);
    case Finish(t, _) =>
      InFlightCount(s.inFlight, t, s.inFlight[t]);
      PendingCount(s.pending, s.inFlight[t].cid);
    case DirectPush(cid) => PendingCount(s.pending, cid);
    case _ =>
  }

  /** With a cap of M and at most N pushes at once, pending announcements never
      exceed M - 1 + N: M when pushes run one at a time, none at all when M is 0. */
  lemma {:induction false} PendingBound(cfg: Config, n: nat, events: seq<Event>, states: seq<System>, i: nat)
    requires Trace(cfg, n, events, states) && i <= |events|
    ensures Bounded(cfg, n, states[i])
    ensures cfg.maxPending > 0 ==> |states[i].pending| <= cfg.maxPending - 1 + n
    ensures cfg.maxPending == 0 ==> states[i].pending == {}
  {
    if i > 0 {
      PendingBound(cfg, n, events, states, i - 1);
      assert |states[i].inFlight| <= n && states[i] == Step(cfg, states[i - 1], events[i - 1]);
      BoundedStep(cfg, n, states[i - 1], events[i - 1]);
    }
  }

  // -------------------------------------------------------- the bound is exact

  ghost predicate Reachable(cfg: Config, n: nat, s: System) {
    exists events, states :: Trace(cfg, n, events, states) && states[|events|] == s
  }

  lemma ReachStep(cfg: Config, n: nat, s: System, e: Event)
    requires Reachable(cfg, n, s) && Enabled(s, e) && |Step(cfg, s, e).inFlight| <= n
    ensures Reachable(cfg, n, Step(cfg, s, e))
  {
    var events, states :| Trace(cfg, n, events, states) && states[|events|] == s;
    var next := Step(cfg, s, e);
    var longer, visited := events + [e], states + [next];
    forall i | 0 <= i < |longer|
      ensures Enabled(visited[i], longer[i]) && visited[i + 1] == Step(cfg, visited[i], longer[i])
    {
      if i < |events| {
        assert visited[i] == states[i] && visited[i + 1] == states[i + 1] && longer[i] == events[i];
      } else {
        assert visited[i] == s && visited[i + 1] == next && longer[i] == e;
      }
    }
    forall i | 0 <= i < |visited| ensures |visited[i].inFlight| <= n {
      assert i < |states| ==> visited[i] == states[i];
    }
    assert Trace(cfg, n, longer, visited);
  }

  /** A system without peers, so every push ends by queueing its announcement. */
  function Quiet(pending: set<Cid>, inFlight: map<nat, Push>): System { System(pending, map[], [], inFlight, []) }

  lemma Queues(cfg: Config, n: nat, pending: set<Cid>, inFlight: map<nat, Push>, t: nat, cid: Cid)
    requires t in inFlight && inFlight[t] == Checked(cid) && |inFlight| <= n
    requires Reachable(cfg, n, Quiet(pending, inFlight))
    ensures Reachable(cfg, n, Quiet(pending + {cid}, inFlight - {t}))
  {
    var a := inFlight[t := Listed(cid, [])];
    var b := inFlight[t := Selected(cid, [])];
    InFlightCount(inFlight, t, Listed(cid, []));
    InFlightCount(inFlight, t, Selected(cid, []));
    assert Step(cfg, Quiet(pending, inFlight), ListPeers(t)) == Quiet(pending, a);
    ReachStep(cfg, n, Quiet(pending, inFlight), ListPeers(t));
    assert a[t := Selected(cid, [])] == b;
    assert Step(cfg, Quiet(pending, a), Select(t)) == Quiet(pending, b);
    ReachStep(cfg, n, Quiet(pending, a), Select(t));
    assert b - {t} == inFlight - {t};
    assert Step(cfg, Quiet(pending, b), Finish(t, true)) == Quiet(pending + {cid}, inFlight - {t});
    ReachStep(cfg, n, Quiet(pending, b), Finish(t, true));
  }

  lemma Passes(cfg: Config, n: nat, pending: set<Cid>, inFlight: map<nat, Push>, t: nat, cid: Cid)
    requires t !in inFlight && |inFlight| < n && |pending| < cfg.maxPending
    requires Reachable(cfg, n, Quiet(pending, inFlight))
    ensures Reachable(cfg, n, Quiet(pending, inFlight[t := Checked(cid)]))
  {
    InFlightCount(inFlight, t, Checked(cid));
    ReachStep(cfg, n, Quiet(pending, inFlight), Check(t, cid));
  }

  lemma StartsQuiet(cfg: Config, n: nat)
    ensures Reachable(cfg, n, Quiet({}, map[]))
  {
    var events: seq<Event>, states := [], [INITIAL];
    assert Trace(cfg, n, events, states) && states[|events|] == Quiet({}, map[]);
  }

  /** One push at a time fills the queue up to the cap. */
  lemma {:induction false} FillQueue(cfg: Config, n: nat, k: nat) returns (pending: set<Cid>)
    requires n >= 1 && k <= cfg.maxPending
    ensures Reachable(cfg, n, Quiet(pending, map[])) && |pending| == k && forall c <- pending :: c < k
  {
    if k == 0 {
      pending := {};
      StartsQuiet(cfg, n);
    } else {
      var before := FillQueue(cfg, n, k - 1);
      pending := before + {k - 1};
      var one: map<nat, Push> := map[0 := Checked(k - 1)];
      assert map[][0 := Checked(k - 1)] == one && one - {0} == map[];
      assert one.Keys == {0};
      Passes(cfg, n, before, map[], 0, k - 1);
      Queues(cfg, n, before, one, 0, k - 1);
    }
  }

  /** Pushes past the check for CIDs of their own, none of them queued. */
  predicate Apart(pending: set<Cid>, inFlight: map<nat, Push>) {
    && (forall t <- inFlight :: inFlight[t].Checked? && inFlight[t].cid !in pending)
    && (forall t, u :: t in inFlight && u in inFlight && t != u ==> inFlight[t].cid != inFlight[u].cid)
  }

  /** Pushes 0..k-1, each past the check for a CID counted from `base`. */
  predicate Lined(inFlight: map<nat, Push>, base: nat, k: nat) {
    forall t <- inFlight :: t < k && inFlight[t] == Checked(base + t)
  }

  lemma OneMore(cfg: Config, n: nat, pending: set<Cid>, fewer: map<nat, Push>, base: nat, k: nat)
      returns (inFlight: map<nat, Push>)
    requires Reachable(cfg, n, Quiet(pending, fewer)) && |pending| < cfg.maxPending && k < n
    requires |fewer| == k && Lined(fewer, base, k)
    ensures Reachable(cfg, n, Quiet(pending, inFlight)) && |inFlight| == k + 1 && Lined(inFlight, base, k + 1)
  {
    inFlight := fewer[k := Checked(base + k)];
    InFlightCount(fewer, k, Checked(base + k));
    Passes(cfg, n, pending, fewer, k, base + k);
  }

  /** Just below the cap, `k` pushes can all pass the check before any queues. */
  lemma {:induction false} Assemble(cfg: Config, n: nat, pending: set<Cid>, base: nat, k: nat)
      returns (inFlight: map<nat, Push>)
    requires Reachable(cfg, n, Quiet(pending, map[])) && |pending| < cfg.maxPending && k <= n
    ensures Reachable(cfg, n, Quiet(pending, inFlight)) && |inFlight| == k && Lined(inFlight, base, k)
    decreases k
  {
    if k == 0 {
      inFlight := map[];
    } else {
      var fewer := Assemble(cfg, n, pending, base, k - 1);
      inFlight := OneMore(cfg, n, pending, fewer, base, k - 1);
    }
  }

  /** Then each queues its own, in any order. */
  lemma {:induction false} Disperse(cfg: Config, n: nat, pending: set<Cid>, inFlight: map<nat, Push>)
      returns (queued: set<Cid>)
    requires Reachable(cfg, n, Quiet(pending, inFlight)) && |inFlight| <= n && Apart(pending, inFlight)
    ensures Reachable(cfg, n, Quiet(queued, map[])) && |queued| == |pending| + |inFlight|
    decreases |inFlight|
  {
    if inFlight == map[] {
      queued := pending;
    } else {
      var t :| t in inFlight;
      var cid := inFlight[t].cid;
      Queues(cfg, n, pending, inFlight, t, cid);
      InFlightCount(inFlight, t, inFlight[t]);
      queued := Disperse(cfg, n, pending + {cid}, inFlight - {t});
    }
  }

  /** For every cap M >= 1 and every N >= 1 some run with at most N concurrent
      pushes does queue M - 1 + N announcements. */
  lemma PendingBoundTight(cfg: Config, n: nat)
    requires cfg.maxPending >= 1 && n >= 1
    ensures exists s :: Reachable(cfg, n, s) && |s.pending| == cfg.maxPending - 1 + n
  {
    var pending := FillQueue(cfg, n, cfg.maxPending - 1);
    var inFlight := Assemble(cfg, n, pending, cfg.maxPending - 1, n);
    var queued := Disperse(cfg, n, pending, inFlight);
    assert |Quiet(queued, map[]).pending| == cfg.maxPending - 1 + n;
  }

  // ------------------------------------------------------------- rate limits

  predicate RatesKept(cfg: Config, s: System, p: Peer) {
    RateOf(s.rates, p) == Times(s.picks, p) && RateOf(s.rates, p) <= cfg.maxPerPeer
  }

  /** Between two resets no peer is selected more often than the limit, over all
      concurrent pushes together. */
  lemma {:induction false} SelectionsLimited(cfg: Config, n: nat, events: seq<Event>, states: seq<System>, i: nat,
      p: Peer)
    requires Trace(cfg, n, events, states) && i <= |events|
    ensures Times(states[i].picks, p) <= cfg.maxPerPeer && RatesKept(cfg, states[i], p)
  {
    if i > 0 {
      var b, e := states[i - 1], events[i - 1];
      SelectionsLimited(cfg, n, events, states, i - 1, p);
      if e.Select? {
        EligibleExact(b.rates, b.inFlight[e.push].peers, cfg.maxPerPeer, p);
      }
    }
  }
}
