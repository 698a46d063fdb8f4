/** What becomes of the pushes of a run: when an announcement is pending, whom a push
    selects, and which pushes end by queueing. */
module BackpressureHistory {
  import opened Common
  import opened Backpressure

  // ------------------------------------------------------ pending announcements

  /** The event puts the announcement in the queue: its push found nobody to send to. */
  predicate Enqueues(s: System, e: Event, cid: Cid) {
    e.Finish? && e.push in s.inFlight && s.inFlight[e.push] == Selected(cid, [])
  }

  /** The event takes it out: it went to some peer, or straight to one. */
  predicate Clears(s: System, e: Event, cid: Cid) {
    || e == DirectPush(cid)
    || (e.Finish? && e.sent && e.push in s.inFlight && s.inFlight[e.push].Selected?
        && s.inFlight[e.push].cid == cid && s.inFlight[e.push].peers != [])
  }

  ghost predicate QueuedSince(events: seq<Event>, states: seq<System>, j: nat, i: nat, cid: Cid)
    requires i <= |events| < |states|
  {
    && j < i && Enqueues(states[j], events[j], cid)
    && forall k :: j < k < i ==> !Clears(states[k], events[k], cid)
  }

  ghost predicate Waiting(events: seq<Event>, states: seq<System>, i: nat, cid: Cid)
    requires i <= |events| < |states|
  {
    exists j: nat :: QueuedSince(events, states, j, i, cid)
  }

  lemma TraceAt(cfg: Config, n: nat, events: seq<Event>, states: seq<System>, k: nat)
    requires Trace(cfg, n, events, states) && k < |events|
    ensures Enabled(states[k], events[k]) && states[k + 1] == Step(cfg, states[k], events[k])
  {
  }

  lemma PendingStep(cfg: Config, s: System, e: Event, cid: Cid)
    requires Enabled(s, e)
    ensures cid in Step(cfg, s, e).pending <==> Enqueues(s, e, cid) || (cid in s.pending && !Clears(s, e, cid))
  {
  }

  lemma WaitingStep(events: seq<Event>, states: seq<System>, i: nat, cid: Cid)
    requires i < |events| < |states|
    ensures Waiting(events, states, i + 1, cid) <==>
            || Enqueues(states[i], events[i], cid)
            || (Waiting(events, states, i, cid) && !Clears(states[i], events[i], cid))
  {
    if Enqueues(states[i], events[i], cid) {
      assert QueuedSince(events, states, i, i + 1, cid);
    } else if Waiting(events, states, i, cid) && !Clears(states[i], events[i], cid) {
      var j: nat :| QueuedSince(events, states, j, i, cid);
      assert QueuedSince(events, states, j, i + 1, cid);
    } else if Waiting(events, states, i + 1, cid) {
      var j: nat :| QueuedSince(events, states, j, i + 1, cid);
      assert QueuedSince(events, states, j, i, cid);
    }
  }

  lemma PendingGoesOn(cfg: Config, events: seq<Event>, states: seq<System>, i: nat, cid: Cid)
    requires i < |events| < |states| && Enabled(states[i], events[i])
    requires states[i + 1] == Step(cfg, states[i], events[i])
    requires cid in states[i].pending <==> Waiting(events, states, i, cid)
    ensures cid in states[i + 1].pending <==> Waiting(events, states, i + 1, cid)
  {
    PendingStep(cfg, states[i], events[i], cid);
    WaitingStep(events, states, i, cid);
  }

  /** An announcement is pending exactly when a push queued it and nothing has cleared
      it since. */
  lemma {:induction false} PendingHistory(cfg: Config, n: nat, events: seq<Event>, states: seq<System>, i: nat,
      cid: Cid)
    requires Trace(cfg, n, events, states) && i <= |events|
    ensures cid in states[i].pending <==> Waiting(events, states, i, cid)
  {
    if i > 0 {
      PendingHistory(cfg, n, events, states, i - 1, cid);
      TraceAt(cfg, n, events, states, i - 1);
      PendingGoesOn(cfg, events, states, i - 1, cid);
    }
  }

  // ------------------------------------------------------ whom a push selects

  lemma PeersStep(cfg: Config, s: System, e: Event, p: Peer)
    requires Enabled(s, e) && Times(s.peers, p) <= 1
    ensures Times(Step(cfg, s, e).peers, p) == if e == AddPeer(p) then 1 else Times(s.peers, p)
  {
    if e.AddPeer? {
      TimesSnoc(s.peers, e.peer, p);
      assert p in s.peers <==> Times(s.peers, p) > 0;
    }
  }

  /** The peers added so far, each once. */
  lemma {:induction false} PeersKnown(cfg: Config, n: nat, events: seq<Event>, states: seq<System>, i: nat, p: Peer)
    requires Trace(cfg, n, events, states) && i <= |events|
    ensures Times(states[i].peers, p) == if AddPeer(p) in events[..i] then 1 else 0
  {
    if i > 0 {
      PeersKnown(cfg, n, events, states, i - 1, p);
      assert events[..i] == events[..i - 1] + [events[i - 1]];
      TraceAt(cfg, n, events, states, i - 1);
      PeersStep(cfg, states[i - 1], events[i - 1], p);
    }
  }

  /** How often a peer was taken since the counters were last reset. */
  function Taken(events: seq<Event>, states: seq<System>, i: nat, p: Peer): nat
    requires i <= |events| < |states|
  {
    if i == 0 || events[i - 1].ResetRates? then 0
    else
      var e := events[i - 1];
      Taken(events, states, i - 1, p)
      + if e.Select? && e.push in states[i].inFlight && states[i].inFlight[e.push].Selected?
        then Times(states[i].inFlight[e.push].peers, p) else 0
  }

  /** The counters count what the pushes took. */
  lemma {:induction false} RatesCount(cfg: Config, n: nat, events: seq<Event>, states: seq<System>, i: nat, p: Peer)
    requires Trace(cfg, n, events, states) && i <= |events|
    ensures RateOf(states[i].rates, p) == Taken(events, states, i, p) <= cfg.maxPerPeer
  {
    SelectionsLimited(cfg, n, events, states, i, p);
    if i > 0 {
      var b, e := states[i - 1], events[i - 1];
      RatesCount(cfg, n, events, states, i - 1, p);
      TraceAt(cfg, n, events, states, i - 1);
      if e.Select? {
        EligibleExact(b.rates, b.inFlight[e.push].peers, cfg.maxPerPeer, p);
      }
    }
  }

  /** A push selects each peer known when it listed them and below the limit when it
      selected, and selects it once. */
  ghost predicate Fair(cfg: Config, events: seq<Event>, states: seq<System>, listed: nat, selected: nat,
      chosen: seq<Peer>)
    requires listed <= selected <= |events| < |states|
  {
    forall p :: Times(chosen, p) ==
      if AddPeer(p) in events[..listed] && Taken(events, states, selected, p) < cfg.maxPerPeer then 1 else 0
  }

  /** How a push got where it is: events `a`, `b` and `c` were its check, its listing of
      the peers and its selection. */
  ghost predicate Life(cfg: Config, events: seq<Event>, states: seq<System>, i: nat, t: nat, a: nat, b: nat, c: nat)
    requires i <= |events| < |states| && t in states[i].inFlight
  {
    var push := states[i].inFlight[t];
    && a < i && events[a] == Check(t, push.cid) && |states[a].pending| < cfg.maxPending
    && (!push.Checked? ==> a < b < i && events[b] == ListPeers(t))
    && (push.Listed? ==> push.peers == states[b].peers)
    && (push.Selected? ==> b < c < i && events[c] == Select(t) && Fair(cfg, events, states, b, c, push.peers))
  }

  lemma SelectsFairly(cfg: Config, n: nat, events: seq<Event>, states: seq<System>, b: nat, c: nat, chosen: seq<Peer>)
    requires Trace(cfg, n, events, states) && b <= c <= |events|
    requires chosen == Eligible(states[c].rates, states[b].peers, cfg.maxPerPeer).0
    ensures Fair(cfg, events, states, b, c, chosen)
  {
    forall p
      ensures Times(chosen, p) ==
        if AddPeer(p) in events[..b] && Taken(events, states, c, p) < cfg.maxPerPeer then 1 else 0
    {
      PeersKnown(cfg, n, events, states, b, p);
      RatesCount(cfg, n, events, states, c, p);
      EligibleExact(states[c].rates, states[b].peers, cfg.maxPerPeer, p);
    }
  }

  /** What an event does to a push it is not about: nothing. */
  lemma OtherPush(cfg: Config, s: System, e: Event, t: nat)
    requires Enabled(s, e) && t in Step(cfg, s, e).inFlight
    requires (e.Check? || e.ListPeers? || e.Select?) ==> e.push != t
    ensures t in s.inFlight && Step(cfg, s, e).inFlight[t] == s.inFlight[t]
  {
  }

  /** What its own events do to it. */
  lemma OwnPush(cfg: Config, s: System, e: Event, t: nat)
    requires Enabled(s, e) && t in Step(cfg, s, e).inFlight
    ensures e.Check? && e.push == t ==>
      |s.pending| < cfg.maxPending && Step(cfg, s, e).inFlight[t] == Checked(e.cid)
    ensures e.ListPeers? && e.push == t ==>
      && t in s.inFlight && s.inFlight[t].Checked?
      && Step(cfg, s, e).inFlight[t] == Listed(s.inFlight[t].cid, s.peers)
    ensures e.Select? && e.push == t ==>
      && t in s.inFlight && s.inFlight[t].Listed?
      && Step(cfg, s, e).inFlight[t]
         == Selected(s.inFlight[t].cid, Eligible(s.rates, s.inFlight[t].peers, cfg.maxPerPeer).0)
  {
  }

  lemma StillInFlight(cfg: Config, s: System, e: Event, t: nat)
    requires Enabled(s, e) && t in Step(cfg, s, e).inFlight && !(e.Check? && e.push == t)
    ensures t in s.inFlight
  {
  }

  /** One more event in a push's life; `b` and `c` are already those after it. */
  lemma LifeGoesOn(cfg: Config, events: seq<Event>, states: seq<System>, i: nat, t: nat, a: nat, b: nat, c: nat)
    requires i < |events| < |states| && Enabled(states[i], events[i])
    requires states[i + 1] == Step(cfg, states[i], events[i])
    requires t in states[i].inFlight && t in states[i + 1].inFlight
    requires var e := events[i];
      if e.ListPeers? && e.push == t then b == i && exists b', c' :: Life(cfg, events, states, i, t, a, b', c')
      else if e.Select? && e.push == t then
        && c == i && (exists c' :: Life(cfg, events, states, i, t, a, b, c'))
        && states[i + 1].inFlight[t].Selected?
        && b <= i && Fair(cfg, events, states, b, i, states[i + 1].inFlight[t].peers)
      else Life(cfg, events, states, i, t, a, b, c)
    ensures Life(cfg, events, states, i + 1, t, a, b, c)
  {
    var e := events[i];
    if (e.ListPeers? || e.Select?) && e.push == t {
      OwnPush(cfg, states[i], e, t);
    } else {
      OtherPush(cfg, states[i], e, t);
    }
  }

  lemma {:induction false} PushHistory(cfg: Config, n: nat, events: seq<Event>, states: seq<System>, i: nat, t: nat)
      returns (a: nat, b: nat, c: nat)
    requires Trace(cfg, n, events, states) && i <= |events| && t in states[i].inFlight
    ensures Life(cfg, events, states, i, t, a, b, c)
  {
    assert i > 0;
    var s, e := states[i - 1], events[i - 1];
    TraceAt(cfg, n, events, states, i - 1);
    if e.Check? && e.push == t {
      OwnPush(cfg, s, e, t);
      a, b, c := i - 1, 0, 0;
    } else {
      StillInFlight(cfg, s, e, t);
      a, b, c := PushHistory(cfg, n, events, states, i - 1, t);
      if e.ListPeers? && e.push == t {
        b := i - 1;
      } else if e.Select? && e.push == t {
        c := i - 1;
        OwnPush(cfg, s, e, t);
        SelectsFairly(cfg, n, events, states, b, c, states[i].inFlight[t].peers);
      }
      LifeGoesOn(cfg, events, states, i - 1, t, a, b, c);
    }
  }

  /** A push that ends queues its announcement exactly when every peer it had listed was
      at its limit as it selected; every other push that got sent clears it. */
  lemma PushOutcome(cfg: Config, n: nat, events: seq<Event>, states: seq<System>, i: nat)
      returns (cid: Cid, a: nat, b: nat, c: nat)
    requires Trace(cfg, n, events, states) && i < |events| && events[i].Finish?
    ensures a < b < c < i && |states[a].pending| < cfg.maxPending && events[a] == Check(events[i].push, cid)
    ensures events[b] == ListPeers(events[i].push) && events[c] == Select(events[i].push)
    ensures var stuck := forall p :: AddPeer(p) in events[..b] ==> Taken(events, states, c, p) == cfg.maxPerPeer;
      states[i + 1].pending ==
        if stuck then states[i].pending + {cid} else if events[i].sent then states[i].pending - {cid}
        else states[i].pending
  {
    var t := events[i].push;
    TraceAt(cfg, n, events, states, i);
    a, b, c := PushHistory(cfg, n, events, states, i, t);
    var push := states[i].inFlight[t];
    cid := push.cid;
    if push.peers == [] {
      forall p | AddPeer(p) in events[..b] ensures Taken(events, states, c, p) == cfg.maxPerPeer {
        RatesCount(cfg, n, events, states, c, p);
        assert Times(push.peers, p) == 0;
      }
    } else {
      var p := push.peers[0];
      assert p in push.peers && Times(push.peers, p) > 0;
      assert AddPeer(p) in events[..b] && Taken(events, states, c, p) < cfg.maxPerPeer;
    }
  }
}
