/** The persistent sync handler: a cache of operations backed by a store that
    keeps each operation under its hash and an index of hashes in order. */
module PersistentSync {
  import opened Common

  type AttestedOp = nat
  type Hash = nat

  /** The content hash; `None` where an operation does not serialize. */
  type Hasher = AttestedOp -> Option<Hash>

  datatype Store = Store(ops: map<Hash, AttestedOp>, index: Option<seq<Hash>>)

  datatype Handler = Handler(store: Store, cache: seq<AttestedOp>, loaded: bool)

  /** How far the two writes of one persist get, if it comes to them. */
  datatype Writes = Both | OpOnly | Neither

  datatype Attempt = Attempt(op: AttestedOp, writes: Writes)

  datatype SyncError = VerificationFailed | NetworkError(operation: string)

  const FRESH := Handler(Store(map[], None), [], false)

  function IndexOf(store: Store): seq<Hash> { if store.index.Some? then store.index.value else [] }

  /** The operations behind the hashes, or the first hash that has none. */
  function LoadAll(ops: map<Hash, AttestedOp>, hashes: seq<Hash>): Result<seq<AttestedOp>, Hash> {
    if hashes == [] then Ok([])
    else
      var h := hashes[|hashes| - 1];
      match LoadAll(ops, hashes[..|hashes| - 1])
      case Err(missing) => Err(missing)
      case Ok(loaded) => if h in ops then Ok(loaded + [ops[h]]) else Err(h)
  }

  function Load(store: Store): Result<seq<AttestedOp>, Hash> { LoadAll(store.ops, IndexOf(store)) }

  function HashesOf(hash: Hasher, cache: seq<AttestedOp>): Option<seq<Hash>>
    decreases cache
  {
    if cache == [] then Some([])
    else
      var last := hash(cache[|cache| - 1]);
      match HashesOf(hash, cache[..|cache| - 1])
      case None => None
      case Some(hashes) => if last.Some? then Some(hashes + [last.value]) else None
  }

  predicate Holds(hash: Hasher, cache: seq<AttestedOp>, h: Hash) {
    exists i :: 0 <= i < |cache| && hash(cache[i]) == Some(h)
  }

  function Ensured(s: Handler): (Handler, Option<SyncError>) {
    if s.loaded then (s, None)
    else
      match Load(s.store)
      case Ok(ops) => (s.(cache := ops, loaded := true), None)
      case Err(_) => (s, Some(NetworkError("merge_remote_ops")))
  }

  /** The two writes of a persist; the operation is already in the cache. */
  function Persisted(hash: Hasher, s: Handler, h: Hash, a: Attempt): (Handler, Option<SyncError>) {
    if a.writes.Neither? then (s, Some(NetworkError("persist_op")))
    else
      var t := s.(store := s.store.(ops := s.store.ops[h := a.op]));
      match HashesOf(hash, s.cache)
      case None => (t, Some(NetworkError("persist_op")))
      case Some(hashes) =>
        if a.writes.OpOnly? then (t, Some(NetworkError("persist_op")))
        else (t.(store := t.store.(index := Some(hashes))), None)
  }

  function MergedOne(hash: Hasher, s: Handler, a: Attempt): (Handler, Option<SyncError>) {
    match hash(a.op)
    case None => (s, Some(VerificationFailed))
    case Some(h) =>
      if Holds(hash, s.cache, h) then (s, None)
      else Persisted(hash, s.(cache := s.cache + [a.op]), h, a)
  }

  function MergedAll(hash: Hasher, s: Handler, attempts: seq<Attempt>): (Handler, Option<SyncError>)
    decreases attempts
  {
    if attempts == [] then (s, None)
    else
      var (t, error) := MergedOne(hash, s, attempts[0]);
      if error.Some? then (t, error) else MergedAll(hash, t, attempts[1..])
  }

  function Merged(hash: Hasher, s: Handler, attempts: seq<Attempt>): (Handler, Option<SyncError>) {
    var (t, error) := Ensured(s);
    if error.Some? then (t, error) else MergedAll(hash, t, attempts)
  }

  /** A new process over the same store. */
  function Restarted(s: Handler): Handler { Handler(s.store, [], false) }

  class PersistentSyncHandler {
    const hash: Hasher
    var ops: map<Hash, AttestedOp>
    var index: Option<seq<Hash>>
    var cache: seq<AttestedOp>
    var loaded: bool

    ghost function State(): Handler reads this { Handler(Store(ops, index), cache, loaded) }

    constructor (hash: Hasher, ops: map<Hash, AttestedOp>, index: Option<seq<Hash>>)
      ensures this.hash == hash && State() == Restarted(Handler(Store(ops, index), [], false))
    {
      this.hash, this.ops, this.index, cache, loaded := hash, ops, index, [], false;
    }

    method LoadOps() returns (r: Result<seq<AttestedOp>, Hash>)
      ensures r == Load(State().store)
    {
      var hashes := if index.Some? then index.value else [];
      var found: seq<AttestedOp> := [];
      for i := 0 to |hashes|
        invariant LoadAll(ops, hashes[..i]) == Ok(found)
      {
        assert hashes[..i + 1][..i] == hashes[..i];
        if hashes[i] !in ops {
          MissingStays(ops, hashes, i + 1);
          return Err(hashes[i]);
        }
        found := found + [ops[hashes[i]]];
      }
      assert hashes[..|hashes|] == hashes;
      return Ok(found);
    }

    method EnsureInitialized() returns (error: Option<SyncError>)
      modifies this
      ensures (State(), error) == Ensured(old(State()))
    {
      if loaded {
        return None;
      }
      var r := LoadOps();
      if r.Err? {
        return Some(NetworkError("merge_remote_ops"));
      }
      cache, loaded := r.value, true;
      return None;
    }

    method CacheHashes() returns (r: Option<seq<Hash>>)
      ensures r == HashesOf(hash, cache)
    {
      var hashes: seq<Hash> := [];
      for i := 0 to |cache|
        invariant HashesOf(hash, cache[..i]) == Some(hashes)
      {
        assert cache[..i + 1][..i] == cache[..i];
        var h := hash(cache[i]);
        if h.None? {
          UnhashableStays(hash, cache, i + 1);
          return None;
        }
        hashes := hashes + [h.value];
      }
      assert cache[..|cache|] == cache;
      return Some(hashes);
    }

    method PersistOp(h: Hash, a: Attempt) returns (error: Option<SyncError>)
      modifies this
      ensures (State(), error) == Persisted(hash, old(State()), h, a)
    {
      if a.writes.Neither? {
        return Some(NetworkError("persist_op"));
      }
      ops := ops[h := a.op];
      var hashes := CacheHashes();
      if hashes.None? || a.writes.OpOnly? {
        return Some(NetworkError("persist_op"));
      }
      index := hashes;
      return None;
    }

    method AlreadyCached(h: Hash) returns (already: bool)
      ensures already <==> Holds(hash, cache, h)
    {
      for i := 0 to |cache|
        invariant forall j :: 0 <= j < i ==> hash(cache[j]) != Some(h)
      {
        if hash(cache[i]) == Some(h) {
          return true;
        }
      }
      return false;
    }

    method MergeOne(a: Attempt) returns (error: Option<SyncError>)
      modifies this
      ensures (State(), error) == MergedOne(hash, old(State()), a)
    {
      var h := hash(a.op);
      if h.None? {
        return Some(VerificationFailed);
      }
      var already := AlreadyCached(h.value);
      if already {
        return None;
      }
      cache := cache + [a.op];
      error := PersistOp(h.value, a);
    }

    method MergeRemoteOps(attempts: seq<Attempt>) returns (error: Option<SyncError>)
      modifies this
      ensures (State(), error) == Merged(hash, old(State()), attempts)
    {
      error := EnsureInitialized();
      if error.Some? {
        return;
      }
      ghost var first := State();
      for i := 0 to |attempts|
        invariant MergedAll(hash, first, attempts) == MergedAll(hash, State(), attempts[i..])
      {
        assert attempts[i..][1..] == attempts[i + 1..];
        error := MergeOne(attempts[i]);
        if error.Some? {
          return;
        }
      }
      error := None;
    }

    method InvalidateCache()
      modifies this`loaded
      ensures State() == old(State()).(loaded := false)
    {
      loaded := false;
    }
  }

  lemma {:induction false} MissingStays(ops: map<Hash, AttestedOp>, hashes: seq<Hash>, i: nat)
    requires i <= |hashes| && LoadAll(ops, hashes[..i]).Err?
    ensures LoadAll(ops, hashes) == LoadAll(ops, hashes[..i])
  {
    if i == |hashes| {
      assert hashes[..i] == hashes;
    } else {
      assert hashes[..|hashes| - 1][..i] == hashes[..i];
      MissingStays(ops, hashes[..|hashes| - 1], i);
    }
  }

  lemma {:induction false} UnhashableStays(hash: Hasher, cache: seq<AttestedOp>, i: nat)
    requires i <= |cache| && HashesOf(hash, cache[..i]).None?
    ensures HashesOf(hash, cache).None?
    decreases |cache|
  {
    if i == |cache| {
      assert cache[..i] == cache;
    } else {
      assert cache[..|cache| - 1][..i] == cache[..i];
      UnhashableStays(hash, cache[..|cache| - 1], i);
    }
  }

  // ------------------------------------------------- histories, from events alone

  /** `StopDuring` is a batch after which the process starts again over what the
      store then holds. Writes may fail anywhere, in either kind of batch. */
  datatype Event = Merge(attempts: seq<Attempt>) | StopDuring(attempts: seq<Attempt>) | Invalidate | Read

  function Step(hash: Hasher, s: Handler, e: Event): Handler {
    match e
    case Merge(attempts) => Merged(hash, s, attempts).0
    case StopDuring(attempts) => Restarted(Merged(hash, s, attempts).0)
    case Invalidate => s.(loaded := false)
    case Read => Ensured(s).0
  }

  function After(hash: Hasher, s: Handler, events: seq<Event>): Handler
    decreases events
  {
    if events == [] then s
    else Step(hash, After(hash, s, events[..|events| - 1]), events[|events| - 1])
  }

  /** What the events alone say, without a store, an index or a load: the hashes in
      the cache in use, the operation last stored under each hash, the hashes at the
      last complete write, and whether some complete write was made while the cache
      in use held a hash that had never been stored. */
  datatype Ledger = Ledger(held: Option<seq<Hash>>, stored: map<Hash, AttestedOp>, log: seq<Hash>, dangling: bool)

  const BLANK := Ledger(None, map[], [], false)

  predicate NeverStored(stored: map<Hash, AttestedOp>, hashes: seq<Hash>) { exists h <- hashes :: h !in stored }

  function Opened(l: Ledger): Ledger {
    if l.held.Some? || l.dangling then l else l.(held := Some(l.log))
  }

  function Tried(hash: Hasher, l: Ledger, held: seq<Hash>, a: Attempt): (Ledger, bool) {
    match hash(a.op)
    case None => (l, false)
    case Some(h) =>
      if h in held then (l, true)
      else
        var longer, stored := held + [h], l.stored[h := a.op];
        match a.writes
        case Neither => (l.(held := Some(longer)), false)
        case OpOnly => (l.(held := Some(longer), stored := stored), false)
        case Both => (Ledger(Some(longer), stored, longer, l.dangling || NeverStored(stored, longer)), true)
  }

  /** A batch goes on while attempts succeed, and while there is a cache in use. */
  function TriedAll(hash: Hasher, l: Ledger, attempts: seq<Attempt>): Ledger
    decreases attempts
  {
    if attempts == [] || l.held.None? then l
    else
      var (m, ok) := Tried(hash, l, l.held.value, attempts[0]);
      if ok then TriedAll(hash, m, attempts[1..]) else m
  }

  function Posted(hash: Hasher, l: Ledger, e: Event): Ledger {
    match e
    case Merge(attempts) => TriedAll(hash, Opened(l), attempts)
    case StopDuring(attempts) => TriedAll(hash, Opened(l), attempts).(held := None)
    case Invalidate => l.(held := None)
    case Read => Opened(l)
  }

  function LedgerAfter(hash: Hasher, events: seq<Event>): Ledger
    decreases events
  {
    if events == [] then BLANK
    else Posted(hash, LedgerAfter(hash, events[..|events| - 1]), events[|events| - 1])
  }

  // --------------------------------------------------------- loading and hashing

  /** What fails first in a shorter list fails first in a longer one. */
  lemma FirstMissing(ops: map<Hash, AttestedOp>, hashes: seq<Hash>)
    requires hashes != []
    ensures forall i :: 0 <= i < |hashes| - 1 ==> hashes[..|hashes| - 1][..i] == hashes[..i]
  {
  }

  lemma {:induction false} LoadAllExact(ops: map<Hash, AttestedOp>, hashes: seq<Hash>)
    ensures LoadAll(ops, hashes).Ok? <==> forall h <- hashes :: h in ops
    ensures LoadAll(ops, hashes).Ok? ==>
      var found := LoadAll(ops, hashes).value;
      |found| == |hashes| && forall i :: 0 <= i < |hashes| ==> hashes[i] in ops && found[i] == ops[hashes[i]]
    ensures LoadAll(ops, hashes).Err? ==>
      exists i :: 0 <= i < |hashes| && hashes[i] == LoadAll(ops, hashes).error && hashes[i] !in ops
                  && forall h <- hashes[..i] :: h in ops
  {
    if hashes != [] {
      var init := hashes[..|hashes| - 1];
      LoadAllExact(ops, init);
      assert forall h :: h in hashes <==> h in init || h == hashes[|hashes| - 1];
      FirstMissing(ops, hashes);
    }
  }

  lemma {:induction false} HashesExact(hash: Hasher, cache: seq<AttestedOp>)
    ensures HashesOf(hash, cache).Some? <==> forall op <- cache :: hash(op).Some?
    ensures HashesOf(hash, cache).Some? ==>
      var hashes := HashesOf(hash, cache).value;
      |hashes| == |cache| && forall i :: 0 <= i < |cache| ==> hash(cache[i]) == Some(hashes[i])
    decreases |cache|
  {
    if cache != [] {
      var init := cache[..|cache| - 1];
      HashesExact(hash, init);
      assert forall op :: op in cache <==> op in init || op == cache[|cache| - 1];
    }
  }

  lemma HoldsByHashes(hash: Hasher, cache: seq<AttestedOp>, hashes: seq<Hash>, h: Hash)
    requires HashesOf(hash, cache) == Some(hashes)
    ensures Holds(hash, cache, h) <==> h in hashes
  {
    HashesExact(hash, cache);
    if h in hashes {
      var i :| 0 <= i < |hashes| && hashes[i] == h;
      assert hash(cache[i]) == Some(h);
    }
  }

  lemma LoadedHashes(hash: Hasher, ops: map<Hash, AttestedOp>, hashes: seq<Hash>)
    requires forall h <- ops :: hash(ops[h]) == Some(h)
    requires LoadAll(ops, hashes).Ok?
    ensures HashesOf(hash, LoadAll(ops, hashes).value) == Some(hashes)
  {
    var found := LoadAll(ops, hashes).value;
    LoadAllExact(ops, hashes);
    HashesExact(hash, found);
    forall op <- found ensures hash(op).Some? {
      var i :| 0 <= i < |found| && found[i] == op;
      assert hashes[i] in ops;
    }
    var again := HashesOf(hash, found).value;
    assert forall i :: 0 <= i < |hashes| ==> hashes[i] in ops && Some(again[i]) == hash(found[i]);
    assert again == hashes;
  }

  // ------------------------------------------------------------ the main theorem

  /** The ledger describes the handler. */
  predicate Tallies(hash: Hasher, s: Handler, l: Ledger) {
    && s.store.ops == l.stored && IndexOf(s.store) == l.log
    && (forall h <- l.stored :: hash(l.stored[h]) == Some(h))
    && NoDup(l.log) && (l.dangling <==> NeverStored(l.stored, l.log))
    && (s.loaded <==> l.held.Some?)
    && (s.loaded ==> HashesOf(hash, s.cache) == l.held && NoDup(l.held.value) && l.log <= l.held.value)
  }

  lemma EnsuredTallies(hash: Hasher, s: Handler, l: Ledger)
    requires Tallies(hash, s, l)
    ensures Tallies(hash, Ensured(s).0, Opened(l)) && (Ensured(s).1.None? <==> Opened(l).held.Some?)
  {
    LoadAllExact(s.store.ops, l.log);
    if !s.loaded && !l.dangling {
      LoadedHashes(hash, s.store.ops, l.log);
    }
  }

  lemma NoDupSnoc(held: seq<Hash>, h: Hash)
    requires NoDup(held) && h !in held
    ensures NoDup(held + [h])
  {
  }

  /** A write that stores the operation: what had never been stored stays so, because
      a hash in the cache in use is never written again. */
  lemma StoringTallies(stored: map<Hash, AttestedOp>, log: seq<Hash>, held: seq<Hash>, h: Hash, op: AttestedOp)
    requires log <= held && h !in held
    ensures NeverStored(stored[h := op], log) <==> NeverStored(stored, log)
    ensures NeverStored(stored, log) ==> NeverStored(stored[h := op], held + [h])
  {
    if NeverStored(stored, log) {
      var k :| k in log && k !in stored;
      assert k in held && k in held + [h] && k !in stored[h := op];
    }
  }

  /** The cache with one more operation, however far its writes got. */
  lemma NewOpTallies(hash: Hasher, s: Handler, l: Ledger, held: seq<Hash>, h: Hash, a: Attempt)
    requires Tallies(hash, s, l) && s.loaded && l.held == Some(held) && hash(a.op) == Some(h) && h !in held
    ensures var (t, error) := Persisted(hash, s.(cache := s.cache + [a.op]), h, a);
      && Tallies(hash, t, Tried(hash, l, held, a).0) && t.loaded
      && (error.None? <==> Tried(hash, l, held, a).1)
  {
    assert HashesOf(hash, s.cache + [a.op]) == Some(held + [h]) by {
      assert (s.cache + [a.op])[..|s.cache|] == s.cache;
    }
    assert NoDup(held + [h]) by { NoDupSnoc(held, h); }
    assert l.log <= held + [h];
    StoringTallies(l.stored, l.log, held, h, a.op);
  }

  lemma TriedTallies(hash: Hasher, s: Handler, l: Ledger, a: Attempt)
    requires Tallies(hash, s, l) && s.loaded
    ensures Tallies(hash, MergedOne(hash, s, a).0, Tried(hash, l, l.held.value, a).0)
    ensures MergedOne(hash, s, a).1.None? <==> Tried(hash, l, l.held.value, a).1
    ensures MergedOne(hash, s, a).0.loaded
  {
    var held := l.held.value;
    if hash(a.op).Some? {
      var h := hash(a.op).value;
      assert Holds(hash, s.cache, h) <==> h in held by { HoldsByHashes(hash, s.cache, held, h); }
      if h !in held {
        NewOpTallies(hash, s, l, held, h, a);
      }
    }
  }

  lemma {:induction false} TriedAllTallies(hash: Hasher, s: Handler, l: Ledger, attempts: seq<Attempt>)
    requires Tallies(hash, s, l) && s.loaded
    ensures Tallies(hash, MergedAll(hash, s, attempts).0, TriedAll(hash, l, attempts))
    decreases |attempts|
  {
    if attempts != [] {
      TriedTallies(hash, s, l, attempts[0]);
      var (m, ok) := Tried(hash, l, l.held.value, attempts[0]);
      if ok {
        TriedAllTallies(hash, MergedOne(hash, s, attempts[0]).0, m, attempts[1..]);
      }
    }
  }

  lemma PostedTallies(hash: Hasher, s: Handler, l: Ledger, e: Event)
    requires Tallies(hash, s, l)
    ensures Tallies(hash, Step(hash, s, e), Posted(hash, l, e))
  {
    EnsuredTallies(hash, s, l);
    if (e.Merge? || e.StopDuring?) && Opened(l).held.Some? {
      TriedAllTallies(hash, Ensured(s).0, Opened(l), e.attempts);
    }
  }

  lemma {:induction false} AlwaysTallies(hash: Hasher, events: seq<Event>)
    ensures Tallies(hash, After(hash, FRESH, events), LedgerAfter(hash, events))
    decreases |events|
  {
    if events != [] {
      var past := events[..|events| - 1];
      AlwaysTallies(hash, past);
      PostedTallies(hash, After(hash, FRESH, past), LedgerAfter(hash, past), events[|events| - 1]);
    }
  }

  /** For a sole writer, after any history whatever, with writes that fail and
      processes that stop or go on: the store loads exactly when no complete write was
      made while the cache in use held a hash never stored. Loading then gives, for
      each hash of the last complete write in order, the operation last stored under
      it; no hash repeats; and the cache in use has the hashes the events say. */
  lemma StoreLoadsIff(hash: Hasher, events: seq<Event>)
    ensures var s, l := After(hash, FRESH, events), LedgerAfter(hash, events);
      && (Load(s.store).Ok? <==> !l.dangling)
      && NoDup(l.log)
      && (Load(s.store).Ok? ==>
            var found := Load(s.store).value;
            && |found| == |l.log|
            && forall i :: 0 <= i < |l.log| ==>
                 l.log[i] in l.stored && found[i] == l.stored[l.log[i]] && hash(found[i]) == Some(l.log[i]))
      && (s.loaded <==> l.held.Some?) && (s.loaded ==> HashesOf(hash, s.cache) == l.held)
  {
    AlwaysTallies(hash, events);
    var s, l := After(hash, FRESH, events), LedgerAfter(hash, events);
    LoadAllExact(s.store.ops, l.log);
  }

  // ------------------------------------------------------------ what merges return

  predicate Offered(hash: Hasher, attempts: seq<Attempt>, h: Hash) {
    exists a <- attempts :: hash(a.op) == Some(h)
  }

  /** The attempt does not serialize, or it is new to the cache and its writes are not
      complete. */
  predicate Fails(hash: Hasher, held: set<Hash>, attempts: seq<Attempt>, i: nat)
    requires i < |attempts|
  {
    var h := hash(attempts[i].op);
    h.None? || (h.value !in held && !Offered(hash, attempts[..i], h.value) && !attempts[i].writes.Both?)
  }

  lemma FailsLater(hash: Hasher, held: set<Hash>, attempts: seq<Attempt>, i: nat)
    requires 0 < i < |attempts| && hash(attempts[0].op).Some?
    ensures Fails(hash, held, attempts, i) <==>
            Fails(hash, held + {hash(attempts[0].op).value}, attempts[1..], i - 1)
  {
    assert attempts[..i] == [attempts[0]] + attempts[1..][..i - 1];
    forall h: Hash
      ensures Offered(hash, attempts[..i], h) <==>
              hash(attempts[0].op) == Some(h) || Offered(hash, attempts[1..][..i - 1], h)
    {
      assert attempts[0] in attempts[..i];
      assert forall a :: a in attempts[..i] <==> a == attempts[0] || a in attempts[1..][..i - 1];
    }
  }

  function FailureOf(hash: Hasher, a: Attempt): SyncError {
    if hash(a.op).None? then VerificationFailed else NetworkError("persist_op")
  }

  /** The batch ends at its first failure and returns it, or has none. */
  ghost predicate EndsWith(hash: Hasher, held: set<Hash>, attempts: seq<Attempt>, error: Option<SyncError>) {
    && (error.None? ==> forall i :: 0 <= i < |attempts| ==> !Fails(hash, held, attempts, i))
    && (error.Some? ==> exists i: nat :: i < |attempts| && Fails(hash, held, attempts, i)
                                         && error.value == FailureOf(hash, attempts[i])
                                         && forall j :: 0 <= j < i ==> !Fails(hash, held, attempts, j))
  }

  lemma EndsLater(hash: Hasher, held: set<Hash>, attempts: seq<Attempt>, error: Option<SyncError>)
    requires attempts != [] && hash(attempts[0].op).Some? && !Fails(hash, held, attempts, 0)
    requires EndsWith(hash, held + {hash(attempts[0].op).value}, attempts[1..], error)
    ensures EndsWith(hash, held, attempts, error)
  {
    var more, rest := held + {hash(attempts[0].op).value}, attempts[1..];
    forall i | 0 < i < |attempts|
      ensures Fails(hash, held, attempts, i) <==> Fails(hash, more, rest, i - 1)
    {
      FailsLater(hash, held, attempts, i);
    }
    if error.Some? {
      var i: nat :| i < |rest| && Fails(hash, more, rest, i) && error.value == FailureOf(hash, rest[i])
                    && forall j :: 0 <= j < i ==> !Fails(hash, more, rest, j);
      assert Fails(hash, held, attempts, i + 1);
    }
  }

  lemma {:induction false} BatchEnds(hash: Hasher, s: Handler, l: Ledger, attempts: seq<Attempt>)
    requires Tallies(hash, s, l) && s.loaded
    ensures EndsWith(hash, Elems(l.held.value), attempts, MergedAll(hash, s, attempts).1)
    decreases |attempts|
  {
    if attempts != [] {
      var a, held := attempts[0], l.held.value;
      TriedTallies(hash, s, l, a);
      var (m, ok) := Tried(hash, l, held, a);
      assert !Offered(hash, attempts[..0], 0);
      assert ok <==> !Fails(hash, Elems(held), attempts, 0);
      if ok {
        var h := hash(a.op).value;
        BatchEnds(hash, MergedOne(hash, s, a).0, m, attempts[1..]);
        ElemsSnoc(held, h);
        assert Elems(m.held.value) == Elems(held) + {h};
        EndsLater(hash, Elems(held), attempts, MergedAll(hash, s, attempts).1);
      } else {
        AttemptFails(hash, s, l, a);
      }
    }
  }

  lemma AttemptFails(hash: Hasher, s: Handler, l: Ledger, a: Attempt)
    requires Tallies(hash, s, l) && s.loaded && !Tried(hash, l, l.held.value, a).1
    ensures MergedOne(hash, s, a).1 == Some(FailureOf(hash, a))
  {
    TriedTallies(hash, s, l, a);
  }

  /** After any history, a merge fails to start exactly when the store must be read and
      does not load; otherwise it ends at the first attempt that does not serialize or
      is new and not written in full, and says which of the two it was. */
  lemma MergeReturns(hash: Hasher, events: seq<Event>, attempts: seq<Attempt>)
    ensures var s, l := After(hash, FRESH, events), LedgerAfter(hash, events);
      var error, unreadable := Merged(hash, s, attempts).1, l.held.None? && l.dangling;
      && (error == Some(NetworkError("merge_remote_ops")) <==> unreadable)
      && (!unreadable ==> Opened(l).held.Some? && EndsWith(hash, Elems(Opened(l).held.value), attempts, error))
  {
    var s, l := After(hash, FRESH, events), LedgerAfter(hash, events);
    AlwaysTallies(hash, events);
    EnsuredTallies(hash, s, l);
    if Opened(l).held.Some? {
      BatchEnds(hash, Ensured(s).0, Opened(l), attempts);
    }
  }

  lemma {:induction false} DanglingGoesOn(hash: Hasher, before: seq<Event>, after: seq<Event>)
    requires LedgerAfter(hash, before).dangling
    ensures LedgerAfter(hash, before + after).dangling
    decreases |after|
  {
    if after == [] {
      assert before + after == before;
    } else {
      var init := after[..|after| - 1];
      DanglingGoesOn(hash, before, init);
      assert (before + after)[..|before + after| - 1] == before + init;
      DanglingStays(hash, LedgerAfter(hash, before + init), after[|after| - 1]);
    }
  }

  /** A store that does not load never loads again, whatever follows. */
  lemma DanglingIsPermanent(hash: Hasher, before: seq<Event>, after: seq<Event>)
    requires Load(After(hash, FRESH, before).store).Err?
    ensures Load(After(hash, FRESH, before + after).store).Err?
  {
    assert LedgerAfter(hash, before).dangling by { StoreLoadsIff(hash, before); }
    DanglingGoesOn(hash, before, after);
    StoreLoadsIff(hash, before + after);
  }

  lemma DanglingStays(hash: Hasher, l: Ledger, e: Event)
    requires l.dangling
    ensures Posted(hash, l, e).dangling
  {
    if e.Merge? || e.StopDuring? {
      BatchDangling(hash, Opened(l), e.attempts);
    }
  }

  lemma {:induction false} BatchDangling(hash: Hasher, l: Ledger, attempts: seq<Attempt>)
    requires l.dangling
    ensures TriedAll(hash, l, attempts).dangling
    decreases |attempts|
  {
    if attempts != [] && l.held.Some? {
      BatchDangling(hash, Tried(hash, l, l.held.value, attempts[0]).0, attempts[1..]);
    }
  }

  // --------------------------------------------------------- histories that are fine

  /** Nothing in the cache in use is lost. */
  predicate Secure(l: Ledger) {
    && !l.dangling && !NeverStored(l.stored, l.log)
    && (l.held.Some? ==> !NeverStored(l.stored, l.held.value))
  }

  /** A process may go on after an incomplete write as long as the operation itself
      was written; a lost operation write must end the process. */
  predicate Careful(e: Event) { e.Merge? ==> forall a <- e.attempts :: !a.writes.Neither? }

  lemma {:induction false} BatchSecure(hash: Hasher, l: Ledger, attempts: seq<Attempt>)
    requires Secure(l)
    ensures Secure(TriedAll(hash, l, attempts).(held := None))
    ensures (forall a <- attempts :: !a.writes.Neither?) ==> Secure(TriedAll(hash, l, attempts))
    decreases |attempts|
  {
    if attempts != [] && l.held.Some? {
      var a, rest := attempts[0], attempts[1..];
      assert a in attempts;
      var (m, ok) := Tried(hash, l, l.held.value, a);
      if ok || !a.writes.Neither? {
        TriedSecure(hash, l, a);
      }
      if ok {
        BatchSecure(hash, m, rest);
      }
    }
  }

  lemma TriedSecure(hash: Hasher, l: Ledger, a: Attempt)
    requires Secure(l) && l.held.Some? && (a.writes.Neither? ==> Tried(hash, l, l.held.value, a).1)
    ensures Secure(Tried(hash, l, l.held.value, a).0)
  {
    var held := l.held.value;
    if hash(a.op).Some? && hash(a.op).value !in held {
      var h := hash(a.op).value;
      forall k <- held + [h] ensures k in l.stored[h := a.op] {
        assert k in held ==> k in l.stored;
      }
    }
  }

  /** In particular the store always loads when every process that loses an operation
      write stops; incomplete index writes and stops anywhere do no harm. */
  lemma {:induction false} CarefulHistoriesLoad(hash: Hasher, events: seq<Event>)
    requires forall e <- events :: Careful(e)
    ensures Secure(LedgerAfter(hash, events))
    ensures Load(After(hash, FRESH, events).store).Ok?
    decreases |events|
  {
    if events != [] {
      var past, e := events[..|events| - 1], events[|events| - 1];
      CarefulHistoriesLoad(hash, past);
      assert Careful(e);
      var l := LedgerAfter(hash, past);
      assert Secure(Opened(l));
      if e.Merge? || e.StopDuring? {
        BatchSecure(hash, Opened(l), e.attempts);
      }
    }
    StoreLoadsIff(hash, events);
  }

  // ------------------------------------------------- the cache and the store agree

  /** The operation last stored under the hash of each cached operation is that one. */
  predicate KeptAsCached(hash: Hasher, stored: map<Hash, AttestedOp>, cache: seq<AttestedOp>) {
    forall op <- cache :: hash(op).Some? && hash(op).value in stored && stored[hash(op).value] == op
  }

  /** After any history, for any hasher: loading returns exactly the cache in use
      exactly when the store loads, the last complete write covered the whole cache,
      and no cached operation's hash holds a different operation. */
  lemma CacheAgreesIff(hash: Hasher, events: seq<Event>)
    ensures var s, l := After(hash, FRESH, events), LedgerAfter(hash, events);
      s.loaded ==>
        (Load(s.store) == Ok(s.cache) <==>
         !l.dangling && l.held == Some(l.log) && KeptAsCached(hash, l.stored, s.cache))
  {
    var s, l := After(hash, FRESH, events), LedgerAfter(hash, events);
    StoreLoadsIff(hash, events);
    if s.loaded {
      HashesExact(hash, s.cache);
      if Load(s.store) == Ok(s.cache) {
        LoadedCovers(hash, s.cache, l);
      }
      if !l.dangling && l.held == Some(l.log) && KeptAsCached(hash, l.stored, s.cache) {
        var found := Load(s.store).value;
        forall i | 0 <= i < |found| ensures found[i] == s.cache[i] {
          assert s.cache[i] in s.cache && hash(s.cache[i]) == Some(l.log[i]);
        }
        assert found == s.cache;
      }
    }
  }

  lemma LoadedCovers(hash: Hasher, cache: seq<AttestedOp>, l: Ledger)
    requires HashesOf(hash, cache) == l.held && l.held.Some? && |cache| == |l.log|
    requires forall i :: 0 <= i < |l.log| ==>
      l.log[i] in l.stored && cache[i] == l.stored[l.log[i]] && hash(cache[i]) == Some(l.log[i])
    ensures l.held == Some(l.log) && KeptAsCached(hash, l.stored, cache)
  {
    HashesExact(hash, cache);
    var held := l.held.value;
    forall i | 0 <= i < |held| ensures held[i] == l.log[i] {
      assert hash(cache[i]) == Some(held[i]);
    }
    assert held == l.log;
    forall op <- cache ensures hash(op).Some? && hash(op).value in l.stored && l.stored[hash(op).value] == op {
      var i :| 0 <= i < |cache| && cache[i] == op;
      assert hash(cache[i]) == Some(l.log[i]);
    }
  }

  /** Where no two operations share a hash, only the first two conditions remain. */
  lemma CacheAgreesIffCollisionFree(hash: Hasher, events: seq<Event>)
    requires forall x, y :: hash(x).Some? && hash(x) == hash(y) ==> x == y
    ensures var s, l := After(hash, FRESH, events), LedgerAfter(hash, events);
      s.loaded ==> (Load(s.store) == Ok(s.cache) <==> !l.dangling && l.held == Some(l.log))
  {
    var s, l := After(hash, FRESH, events), LedgerAfter(hash, events);
    CacheAgreesIff(hash, events);
    StoreLoadsIff(hash, events);
    if s.loaded && !l.dangling && l.held == Some(l.log) {
      HashesExact(hash, s.cache);
      forall op <- s.cache ensures hash(op).Some? && hash(op).value in l.stored && l.stored[hash(op).value] == op {
        var i :| 0 <= i < |s.cache| && s.cache[i] == op;
        var found := Load(s.store).value;
        assert hash(s.cache[i]) == Some(l.log[i]) == hash(found[i]);
      }
    }
  }

  /** A process that goes on has written everything; one that stops may have failed
      anywhere. */
  predicate Reliable(e: Event) { e.Merge? ==> forall a <- e.attempts :: a.writes.Both? }

  predicate Agreed(hash: Hasher, s: Handler, l: Ledger) {
    && Tallies(hash, s, l) && !l.dangling
    && (s.loaded ==> l.held == Some(l.log) && Load(s.store) == Ok(s.cache))
  }

  lemma AppendLoads(ops: map<Hash, AttestedOp>, hashes: seq<Hash>, h: Hash, op: AttestedOp)
    requires h !in hashes && LoadAll(ops, hashes).Ok?
    ensures LoadAll(ops[h := op], hashes + [h]) == Ok(LoadAll(ops, hashes).value + [op])
  {
    LoadAllExact(ops, hashes);
    LoadAllExact(ops[h := op], hashes);
    assert LoadAll(ops[h := op], hashes).value == LoadAll(ops, hashes).value;
    assert (hashes + [h])[..|hashes|] == hashes;
  }

  lemma TriedAgrees(hash: Hasher, s: Handler, l: Ledger, a: Attempt)
    requires Agreed(hash, s, l) && s.loaded && a.writes.Both?
    ensures Agreed(hash, MergedOne(hash, s, a).0, Tried(hash, l, l.held.value, a).0)
    ensures MergedOne(hash, s, a).0.loaded
  {
    TriedTallies(hash, s, l, a);
    if hash(a.op).Some? && hash(a.op).value !in l.log {
      var h := hash(a.op).value;
      LoadAllExact(l.stored, l.log);
      AppendLoads(l.stored, l.log, h, a.op);
      HoldsByHashes(hash, s.cache, l.log, h);
      assert !NeverStored(l.stored[h := a.op], l.log + [h]);
    } else if hash(a.op).Some? {
      HoldsByHashes(hash, s.cache, l.log, hash(a.op).value);
    }
  }

  lemma {:induction false} BatchAgrees(hash: Hasher, s: Handler, l: Ledger, attempts: seq<Attempt>)
    requires Agreed(hash, s, l) && s.loaded && forall a <- attempts :: a.writes.Both?
    ensures Agreed(hash, MergedAll(hash, s, attempts).0, TriedAll(hash, l, attempts))
    decreases |attempts|
  {
    if attempts != [] {
      var a := attempts[0];
      assert a in attempts;
      TriedTallies(hash, s, l, a);
      TriedAgrees(hash, s, l, a);
      var (m, ok) := Tried(hash, l, l.held.value, a);
      if ok {
        BatchAgrees(hash, MergedOne(hash, s, a).0, m, attempts[1..]);
      }
    }
  }

  lemma EnsuredAgrees(hash: Hasher, s: Handler, l: Ledger)
    requires Agreed(hash, s, l)
    ensures Agreed(hash, Ensured(s).0, Opened(l)) && Ensured(s).0.loaded && Ensured(s).1.None?
  {
    EnsuredTallies(hash, s, l);
    LoadAllExact(s.store.ops, l.log);
  }

  lemma StepAgrees(hash: Hasher, s: Handler, l: Ledger, e: Event)
    requires Agreed(hash, s, l) && Reliable(e)
    ensures Agreed(hash, Step(hash, s, e), Posted(hash, l, e))
  {
    PostedTallies(hash, s, l, e);
    EnsuredAgrees(hash, s, l);
    if e.Merge? {
      BatchAgrees(hash, Ensured(s).0, Opened(l), e.attempts);
    } else if e.StopDuring? {
      assert Secure(Opened(l));
      BatchSecure(hash, Opened(l), e.attempts);
    }
  }

  /** For every hasher, after any history of merges written in full, invalidations,
      reads, and stops anywhere in a batch: the store loads, and loading returns
      exactly the cached sequence whenever a cache is in use. */
  lemma {:induction false} CacheAgreesWithStore(hash: Hasher, events: seq<Event>)
    requires forall e <- events :: Reliable(e)
    ensures var s := After(hash, FRESH, events);
      && Load(s.store).Ok? && (s.loaded ==> Load(s.store) == Ok(s.cache))
      && Agreed(hash, s, LedgerAfter(hash, events))
    decreases |events|
  {
    if events != [] {
      var past, e := events[..|events| - 1], events[|events| - 1];
      CacheAgreesWithStore(hash, past);
      assert Reliable(e);
      StepAgrees(hash, After(hash, FRESH, past), LedgerAfter(hash, past), e);
    }
    StoreLoadsIff(hash, events);
  }

  /** A batch of serializable operations written in full: the log then has what the
      cache had, in order, followed by the offered hashes it lacked, and nothing else. */
  lemma {:induction false} CompleteBatchAdds(hash: Hasher, l: Ledger, attempts: seq<Attempt>, h: Hash)
    requires l.held.Some? && forall a <- attempts :: a.writes.Both? && hash(a.op).Some?
    ensures var m := TriedAll(hash, l, attempts);
      && m.held.Some? && l.held.value <= m.held.value
      && (h in m.held.value <==> h in l.held.value || Offered(hash, attempts, h))
      && (m == l || m.log == m.held.value)
    decreases |attempts|
  {
    if attempts != [] {
      var a, rest := attempts[0], attempts[1..];
      assert a in attempts;
      assert forall b :: b in attempts <==> b == a || b in rest;
      assert Offered(hash, attempts, h) <==> hash(a.op) == Some(h) || Offered(hash, rest, h);
      CompleteBatchAdds(hash, Tried(hash, l, l.held.value, a).0, rest, h);
    }
  }

  // ------------------------------------------------------------------ some inputs

  function Same(op: AttestedOp): Option<Hash> { Some(op) }

  lemma TwoEvents(hash: Hasher, first: Event, second: Event)
    ensures LedgerAfter(hash, [first, second]) == Posted(hash, Posted(hash, BLANK, first), second)
  {
    var two, one := [first, second], [first];
    assert two[..1] == one && one[..0] == [];
    assert LedgerAfter(hash, one) == Posted(hash, LedgerAfter(hash, []), first);
  }

  lemma OneAttempt(hash: Hasher, l: Ledger, a: Attempt)
    requires Opened(l).held.Some?
    ensures Posted(hash, l, Merge([a])) == Tried(hash, Opened(l), Opened(l).held.value, a).0
    ensures Posted(hash, l, StopDuring([a])) == Tried(hash, Opened(l), Opened(l).held.value, a).0.(held := None)
  {
    var o := Opened(l);
    var (m, _) := Tried(hash, o, o.held.value, a);
    assert [a][1..] == [] && TriedAll(hash, m, []) == m;
    assert TriedAll(hash, o, [a]) == m;
  }

  /** One lost operation write, then one complete write by the same process. */
  lemma LostWriteDangles()
    ensures Load(After(Same, FRESH, [Merge([Attempt(1, Neither)]), Merge([Attempt(2, Both)])]).store).Err?
  {
    TwoEvents(Same, Merge([Attempt(1, Neither)]), Merge([Attempt(2, Both)]));
    OneAttempt(Same, BLANK, Attempt(1, Neither));
    var l, none: seq<Hash> := Ledger(Some([1]), map[], [], false), [];
    assert none + [1] == [1] && [1] + [2] == [1, 2];
    assert Posted(Same, BLANK, Merge([Attempt(1, Neither)])) == l;
    OneAttempt(Same, l, Attempt(2, Both));
    assert 1 in [1, 2] && 1 !in l.stored[2 := 2];
    StoreLoadsIff(Same, [Merge([Attempt(1, Neither)]), Merge([Attempt(2, Both)])]);
  }

  lemma LoadByLedger(hash: Hasher, events: seq<Event>, l: Ledger, ops: seq<AttestedOp>)
    requires LedgerAfter(hash, events) == l && !l.dangling && |ops| == |l.log|
    requires forall i :: 0 <= i < |ops| ==> l.log[i] in l.stored && l.stored[l.log[i]] == ops[i]
    ensures Load(After(hash, FRESH, events).store) == Ok(ops)
  {
    StoreLoadsIff(hash, events);
    assert Load(After(hash, FRESH, events).store).value == ops;
  }

  /** After an index write that failed, the next complete write mends it. */
  lemma UnindexedWriteMends()
    ensures Load(After(Same, FRESH, [Merge([Attempt(1, OpOnly)]), Merge([Attempt(2, Both)])]).store) == Ok([1, 2])
  {
    var l, m := Ledger(Some([1]), map[1 := 1], [], false), Ledger(Some([1, 2]), map[1 := 1, 2 := 2], [1, 2], false);
    assert Posted(Same, BLANK, Merge([Attempt(1, OpOnly)])) == l by {
      OneAttempt(Same, BLANK, Attempt(1, OpOnly));
      var none: seq<Hash> := [];
      assert none + [1] == [1];
    }
    assert Posted(Same, l, Merge([Attempt(2, Both)])) == m by {
      OneAttempt(Same, l, Attempt(2, Both));
      assert [1] + [2] == [1, 2];
    }
    TwoEvents(Same, Merge([Attempt(1, OpOnly)]), Merge([Attempt(2, Both)]));
    LoadByLedger(Same, [Merge([Attempt(1, OpOnly)]), Merge([Attempt(2, Both)])], m, [1, 2]);
  }

  /** A lost write followed by a restart does no harm; the operation is just absent. */
  lemma RestartForgets()
    ensures Load(After(Same, FRESH, [StopDuring([Attempt(1, Neither)]), Merge([Attempt(2, Both)])]).store) == Ok([2])
  {
    var m := Ledger(Some([2]), map[2 := 2], [2], false);
    assert Posted(Same, BLANK, StopDuring([Attempt(1, Neither)])) == BLANK by {
      OneAttempt(Same, BLANK, Attempt(1, Neither));
    }
    assert Posted(Same, BLANK, Merge([Attempt(2, Both)])) == m by {
      OneAttempt(Same, BLANK, Attempt(2, Both));
      var none: seq<Hash> := [];
      assert none + [2] == [2];
    }
    TwoEvents(Same, StopDuring([Attempt(1, Neither)]), Merge([Attempt(2, Both)]));
    LoadByLedger(Same, [StopDuring([Attempt(1, Neither)]), Merge([Attempt(2, Both)])], m, [2]);
  }

  /** Pairs of operations share a hash. */
  function Halved(op: AttestedOp): Option<Hash> { Some(op / 2) }

  lemma OneMerged(hash: Hasher, s: Handler, a: Attempt)
    requires Ensured(s).1.None?
    ensures Merged(hash, s, [a]).0 == MergedOne(hash, Ensured(s).0, a).0
  {
    var t := Ensured(s).0;
    var (u, error) := MergedOne(hash, t, a);
    assert [a][1..] == [] && MergedAll(hash, u, []) == (u, None);
    assert MergedAll(hash, t, [a]).0 == u;
  }

  lemma ThreeEvents(hash: Hasher, x: Event, y: Event, z: Event)
    ensures After(hash, FRESH, [x, y, z]) == Step(hash, Step(hash, Step(hash, FRESH, x), y), z)
  {
    var three, two, one := [x, y, z], [x, y], [x];
    assert three[..2] == two && two[..1] == one && one[..0] == [];
    assert After(hash, FRESH, one) == Step(hash, After(hash, FRESH, []), x);
    assert After(hash, FRESH, two) == Step(hash, After(hash, FRESH, one), y);
  }

  const STOPPED := Handler(Store(map[1 := 2], None), [], false)
  const LOST := Handler(Store(map[1 := 2], None), [3], true)
  const DIFFERING := Handler(Store(map[1 := 2, 2 := 4], Some([1, 2])), [3, 4], true)

  lemma StoredThenStopped()
    ensures Step(Halved, FRESH, StopDuring([Attempt(2, OpOnly)])) == STOPPED
  {
    OneMerged(Halved, FRESH, Attempt(2, OpOnly));
    var none: seq<AttestedOp> := [];
    assert none + [2] == [2];
    HashesAre(Halved, [2], [1]);
  }

  lemma CollidingLost()
    ensures Step(Halved, STOPPED, Merge([Attempt(3, Neither)])) == LOST
  {
    OneMerged(Halved, STOPPED, Attempt(3, Neither));
    var none: seq<AttestedOp> := [];
    assert none + [3] == [3];
  }

  lemma BothIndexed()
    ensures Step(Halved, LOST, Merge([Attempt(4, Both)])) == DIFFERING
  {
    OneMerged(Halved, LOST, Attempt(4, Both));
    assert [3] + [4] == [3, 4];
    HashesAre(Halved, [3, 4], [1, 2]);
  }

  /** With colliding hashes the store can load and still differ: 2 is stored by a
      process that stops, 3 has its hash and is lost, and a complete write of 4 then
      indexes both hashes. The cache holds 3 where loading gives 2. */
  lemma CollisionDiffers()
    ensures var events :=
        [StopDuring([Attempt(2, OpOnly)]), Merge([Attempt(3, Neither)]), Merge([Attempt(4, Both)])];
      var s := After(Halved, FRESH, events);
      s.loaded && s.cache == [3, 4] && Load(s.store) == Ok([2, 4])
  {
    StoredThenStopped();
    CollidingLost();
    BothIndexed();
    ThreeEvents(Halved, StopDuring([Attempt(2, OpOnly)]), Merge([Attempt(3, Neither)]), Merge([Attempt(4, Both)]));
    assert Load(DIFFERING.store) == Ok([2, 4]) by {
      LoadAllExact(DIFFERING.store.ops, [1, 2]);
      assert LoadAll(DIFFERING.store.ops, [1, 2]).value == [2, 4];
    }
  }

  lemma HashesAre(hash: Hasher, cache: seq<AttestedOp>, hashes: seq<Hash>)
    requires |cache| == |hashes| && forall i :: 0 <= i < |cache| ==> hash(cache[i]) == Some(hashes[i])
    ensures HashesOf(hash, cache) == Some(hashes)
  {
    HashesExact(hash, cache);
    forall op <- cache ensures hash(op).Some? {
      var i :| 0 <= i < |cache| && cache[i] == op;
    }
    var again := HashesOf(hash, cache).value;
    assert forall i :: 0 <= i < |cache| ==> Some(again[i]) == hash(cache[i]);
    assert again == hashes;
  }
}
