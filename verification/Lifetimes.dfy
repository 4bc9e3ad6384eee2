/** How long a session lives: what a delivery renews, on either store, and what that comes to over whole runs. */
module Lifetimes {
  import opened Bytes
  import opened Wire
  import opened Envelopes
  import opened Sessions
  import opened Router
  import opened Reaping
  import R = RedisStore
  import C = Clusters

  // ----- one step on the broker -----

  /** A record lives as long as its session, whole seconds apart. */
  lemma RecordLives(kv: R.Broker, s: SessionState, ttlFloor: int, now: real, later: real)
    requires !s.closed && s.lastUsedAt == now
    ensures var cold := R.State(map[], R.Put(R.State(map[], kv), s, ttlFloor, now).kv);
            && (R.Hydrate(cold, s.id, later).0.Some? ==> InTime(s, now, later))
            && (InTime(s, now, later + 1.0) ==> R.Hydrate(cold, s.id, later).0.Some?)
            && (R.Fetch(cold.kv, s.id, later).Some? ==> InTime(s, now, later) || later - now <= (if ttlFloor < 0 then 0 else ttlFloor) as real)
  {
  }

  /** A lookup leaves no expired entry behind; a hydration leaves what it found in the cache and no expired record. */
  lemma LookupsTidy(st: R.State, id: SessionId, now: real)
    requires C.Keyed(st)
    ensures var (found, n) := R.Lookup(st, id, now); (found.Some? <==> id in n.cache) && n.kv == st.kv
    ensures var (found, n) := R.Hydrate(st, id, now);
            && (found.Some? ==> R.Lookup(n, id, now).0 == found && n.kv == st.kv)
            && (found.None? ==> n.cache == st.cache && R.Fetch(n.kv, id, now).None?)
  {
  }

  lemma FoundIsKeyed(st: R.State, id: SessionId, clock: Clock)
    requires C.Keyed(st)
    ensures var (found, st1) := R.Resolve(st, id, clock);
            C.Keyed(st1) && (found.Some? ==> found.value.id == id && !Expired(found.value, clock.check))
  {
  }

  /**
   * A delivery on the broker store renews its session on the instance and in the record: the instance finds it exactly
   * while this use and its creation are recent, and a cold instance does too, up to the last second.
   */
  lemma ServeRenews(st: R.State, log: SealLog, req: Request, schema: bytes -> bool, clock: Clock, ttlFloor: int, now: real)
    requires C.Keyed(st) && R.Serve(st, log, req, schema, clock, ttlFloor).0.Delivered?
    ensures var (outcome, n) := R.Serve(st, log, req, schema, clock, ttlFloor);
            var found := R.Resolve(st, outcome.id, clock).0;
            && found.Some?
            && (R.Lookup(n, outcome.id, now).0.Some? <==> InTime(found.value, clock.touch, now))
            && (R.Hydrate(R.State(map[], n.kv), outcome.id, now).0.Some? ==> InTime(found.value, clock.touch, now))
            && (InTime(found.value, clock.touch, now + 1.0) ==> R.Hydrate(R.State(map[], n.kv), outcome.id, now).0.Some?)
            && (R.Fetch(n.kv, outcome.id, now).Some? ==>
                  InTime(found.value, clock.touch, now) || now - clock.touch <= (if ttlFloor < 0 then 0 else ttlFloor) as real)
  {
    var env := Unpack(req.raw).value;
    var id: SessionId := Identifier(env.sessionId);
    FoundIsKeyed(st, id, clock);
    var (found, st1) := R.Resolve(st, id, clock);
    var s := Admit(found.value, log, env.counter, req, schema, clock.touch).1;
    RecordLives(st1.kv, s, ttlFloor, clock.touch, now);
  }

  /** A refusal renews nothing: the instance finds the session as long as the one it had found, and no record changes. */
  lemma RefusalKeeps(st: R.State, log: SealLog, req: Request, schema: bytes -> bool, clock: Clock, ttlFloor: int,
                     id: SessionId, now: real)
    requires C.Keyed(st) && C.Names(req, id) && R.Resolve(st, id, clock).0.Some?
    requires !R.Serve(st, log, req, schema, clock, ttlFloor).0.Delivered?
    ensures var n, s := R.Serve(st, log, req, schema, clock, ttlFloor).1, R.Resolve(st, id, clock).0.value;
            (R.Lookup(n, id, now).0.Some? <==> InTime(s, s.lastUsedAt, now)) && n.kv == st.kv
  {
    FoundIsKeyed(st, id, clock);
    assert Identifier(Unpack(req.raw).value.sessionId) == id;
  }

  // ----- whole runs -----

  /** The session is stored and open, as it was but for its last use, its window and its counter. */
  predicate Alive(t: Table, s: SessionState, used: real) {
    && s.id in t && !t[s.id].closed && t[s.id].lastUsedAt == used
    && t[s.id].createdAt == s.createdAt && t[s.id].ttl == s.ttl && t[s.id].maxLifetime == s.maxLifetime
    && t[s.id].c2s == s.c2s && t[s.id].s2c == s.s2c
  }

  lemma AliveFound(t: Table, s: SessionState, used: real, now: real)
    requires Alive(t, s, used)
    ensures Find(t, s.id, now).Some? <==> InTime(s, used, now)
  {
  }

  /** The last use after an operation: a delivery to the session moves it, nothing else does. */
  function UsedAfter(answers: seq<Answer>, op: Op, id: SessionId, used: real): real {
    if op.Receive? && answers != [] && answers[0].Served? && answers[0].outcome.Delivered? && answers[0].outcome.id == id
    then op.clock.touch else used
  }

  /** The operation neither replaces nor closes the session, and finds it in time if it looks at it. */
  predicate Spares(op: Op, s: SessionState, used: real) {
    match op
    case Create(other, _) => other.id != s.id
    case Close(id, _) => id != s.id
    case Receive(_, req, _, clock) => C.Names(req, s.id) ==> InTime(s, used, clock.check)
    case ReapAt(now) => InTime(s, used, now)
    case Respond(_, _) => true
  }

  function MemTable(t: Table, ops: seq<Op>): Table
    decreases |ops|
  {
    if ops == [] then t else MemTable(MemStep(t, ops[0]).1, ops[1..])
  }

  function MemUsed(t: Table, ops: seq<Op>, id: SessionId, used: real): real
    decreases |ops|
  {
    if ops == [] then used
    else MemUsed(MemStep(t, ops[0]).1, ops[1..], id, UsedAfter(MemStep(t, ops[0]).0, ops[0], id, used))
  }

  /** No operation closes the session, and each one that looks at it comes within its ttl and its lifetime. */
  predicate MemPunctual(t: Table, ops: seq<Op>, s: SessionState, used: real)
    decreases |ops|
  {
    ops == [] ||
    (Spares(ops[0], s, used)
     && MemPunctual(MemStep(t, ops[0]).1, ops[1..], s, UsedAfter(MemStep(t, ops[0]).0, ops[0], s.id, used)))
  }

  predicate ClocksRun(op: Op) {
    (op.Receive? ==> ClockRuns(op.clock)) && (op.Close? ==> ClockRuns(op.clock))
  }

  lemma ReceiveAlive(t: Table, op: Op, s: SessionState, used: real)
    requires WellKeyed(t) && Alive(t, s, used) && op.Receive? && Spares(op, s, used) && ClocksRun(op)
    ensures var (answers, n) := MemStep(t, op); WellKeyed(n) && Alive(n, s, UsedAfter(answers, op, s.id, used))
  {
    if |op.req.raw| >= MIN_ENVELOPE && Unpack(op.req.raw).Ok? {
      var id: SessionId := Identifier(Unpack(op.req.raw).value.sessionId);
      var (found, t1) := TableLookup(t, id, op.clock);
      assert id == s.id ==> found == Some(t[s.id]) && t1 == t;
      assert id != s.id ==> s.id in t1 && t1[s.id] == t[s.id] && (found.Some? ==> found.value.id == id);
    }
  }

  lemma MemAlive(t: Table, op: Op, s: SessionState, used: real)
    requires WellKeyed(t) && Alive(t, s, used) && Spares(op, s, used) && ClocksRun(op)
    ensures var (answers, n) := MemStep(t, op); WellKeyed(n) && Alive(n, s, UsedAfter(answers, op, s.id, used))
  {
    match op
    case Receive(_, _, _, _) => ReceiveAlive(t, op, s, used);
    case Create(_, _) =>
    case Respond(_, _) =>
    case Close(_, _) =>
    case ReapAt(_) =>
  }

  /**
   * A session whose deliveries are at most its ttl apart stays until its maximum lifetime, whatever else the store does:
   * after any run without a late arrival it is found exactly while its last delivery and its creation are recent, with
   * the keys it had.
   */
  lemma {:induction false} KeptAlive(t: Table, ops: seq<Op>, s: SessionState, used: real)
    requires WellKeyed(t) && Alive(t, s, used) && MemPunctual(t, ops, s, used)
    requires forall i :: 0 <= i < |ops| ==> ClocksRun(ops[i])
    ensures var n, last := MemTable(t, ops), MemUsed(t, ops, s.id, used);
            Alive(n, s, last) && forall now :: Find(n, s.id, now).Some? <==> InTime(s, last, now)
    decreases |ops|
  {
    if ops == [] {
      forall now
        ensures Find(t, s.id, now).Some? <==> InTime(s, used, now)
      {
        AliveFound(t, s, used, now);
      }
    } else {
      MemAlive(t, ops[0], s, used);
      KeptAlive(MemStep(t, ops[0]).1, ops[1..], s, UsedAfter(MemStep(t, ops[0]).0, ops[0], s.id, used));
    }
  }

  /** And a request for it is answered as one for an unknown session exactly when it comes too late. */
  lemma LateIsUnknown(t: Table, s: SessionState, used: real, log: SealLog, req: Request, schema: bytes -> bool, clock: Clock)
    requires WellKeyed(t) && Alive(t, s, used) && C.Names(req, s.id) && ClockRuns(clock)
    ensures Router.Receive(t, log, req, schema, clock).0.UnknownSession? <==> !InTime(s, used, clock.check)
  {
    assert Identifier(Unpack(req.raw).value.sessionId) == s.id;
  }

  // ----- the same on one instance over the broker -----

  function CacheAfter(st: R.State, ops: seq<Op>, ttlFloor: int): R.State
    decreases |ops|
  {
    if ops == [] then st else CacheAfter(RedisStep(st, ops[0], ttlFloor).1, ops[1..], ttlFloor)
  }

  function CacheUsed(st: R.State, ops: seq<Op>, ttlFloor: int, id: SessionId, used: real): real
    decreases |ops|
  {
    if ops == [] then used
    else
      var (answers, n) := RedisStep(st, ops[0], ttlFloor);
      CacheUsed(n, ops[1..], ttlFloor, id, UsedAfter(answers, ops[0], id, used))
  }

  predicate CachePunctual(st: R.State, ops: seq<Op>, ttlFloor: int, s: SessionState, used: real)
    decreases |ops|
  {
    ops == [] ||
    (var (answers, n) := RedisStep(st, ops[0], ttlFloor);
     Spares(ops[0], s, used) && CachePunctual(n, ops[1..], ttlFloor, s, UsedAfter(answers, ops[0], s.id, used)))
  }

  lemma CloseOther(st: R.State, id: SessionId, clock: Clock, other: SessionId)
    requires C.Keyed(st) && id != other
    ensures C.LeavesAlone(st, R.Terminate(st, id, clock).1, other)
  {
    C.LookupOther(st, id, clock.lookup, other);
    C.HydrateOther(R.Lookup(st, id, clock.lookup).1, id, clock.hydrate, other);
  }

  lemma ServeAlive(st: R.State, op: Op, s: SessionState, used: real, ttlFloor: int)
    requires C.Keyed(st) && Alive(st.cache, s, used) && op.Receive? && Spares(op, s, used) && ClocksRun(op)
    ensures var (answers, n) := RedisStep(st, op, ttlFloor);
            C.Keyed(n) && Alive(n.cache, s, UsedAfter(answers, op, s.id, used))
  {
    if C.Names(op.req, s.id) {
      assert Identifier(Unpack(op.req.raw).value.sessionId) == s.id;
      var (found, st1) := R.Resolve(st, s.id, op.clock);
      assert found == Some(st.cache[s.id]) && st1 == st;
    } else {
      C.OtherUntouched(st, op.log, op.req, op.schema, op.clock, ttlFloor, s.id);
    }
  }

  lemma CacheAlive(st: R.State, op: Op, s: SessionState, used: real, ttlFloor: int)
    requires C.Keyed(st) && Alive(st.cache, s, used) && Spares(op, s, used) && ClocksRun(op)
    ensures var (answers, n) := RedisStep(st, op, ttlFloor);
            C.Keyed(n) && Alive(n.cache, s, UsedAfter(answers, op, s.id, used))
  {
    match op
    case Receive(_, _, _, _) => ServeAlive(st, op, s, used, ttlFloor);
    case Close(id, clock) => CloseOther(st, id, clock, s.id);
    case Create(_, _) =>
    case Respond(_, _) =>
    case ReapAt(_) =>
  }

  /** On the broker store too, for an instance that holds the session. */
  lemma {:induction false} KeptCached(st: R.State, ops: seq<Op>, ttlFloor: int, s: SessionState, used: real)
    requires C.Keyed(st) && Alive(st.cache, s, used) && CachePunctual(st, ops, ttlFloor, s, used)
    requires forall i :: 0 <= i < |ops| ==> ClocksRun(ops[i])
    ensures var n, last := CacheAfter(st, ops, ttlFloor), CacheUsed(st, ops, ttlFloor, s.id, used);
            && Alive(n.cache, s, last)
            && forall now :: R.Lookup(n, s.id, now).0.Some? <==> InTime(s, last, now)
    decreases |ops|
  {
    if ops == [] {
      forall now
        ensures R.Lookup(st, s.id, now).0.Some? <==> InTime(s, used, now)
      {
        AliveFound(st.cache, s, used, now);
      }
    } else {
      var (answers, n) := RedisStep(st, ops[0], ttlFloor);
      CacheAlive(st, ops[0], s, used, ttlFloor);
      KeptCached(n, ops[1..], ttlFloor, s, UsedAfter(answers, ops[0], s.id, used));
    }
  }

  // ----- terminated -----

  /** A session that is found but has expired by the second look is gone from cache and broker. */
  lemma ExpiredIsDeleted(t: Table, st: R.State, id: SessionId, clock: Clock)
    requires WellKeyed(t) && C.Keyed(st)
    ensures var (found, n) := TableLookup(t, id, clock);
            found.None? && (Find(t, id, clock.lookup).Some? || Find(t, id, clock.hydrate).Some?) ==> id !in n
    ensures var (found, n) := R.Resolve(st, id, clock);
            found.None? && Reached(st, id, clock) ==> id !in n.cache && id !in n.kv
  {
  }

  /** In memory: a session that is found is gone afterwards for every request, and no other is touched. */
  lemma TerminateRemoves(t: Table, id: SessionId, clock: Clock, later: Clock)
    requires WellKeyed(t)
    ensures var (removed, n) := TableTerminate(t, id, clock);
            && (removed <==> Find(t, id, clock.lookup).Some? || Find(t, id, clock.hydrate).Some?)
            && (removed ==> TableLookup(n, id, later).0.None?)
            && forall other :: other != id || !removed ==> (other in n <==> other in t) && (other in t ==> n[other] == t[other])
  {
  }

  /** The instance or the broker has the session, unexpired. */
  predicate Reached(st: R.State, id: SessionId, clock: Clock) {
    var (local, st1) := R.Lookup(st, id, clock.lookup);
    local.Some? || R.Hydrate(st1, id, clock.hydrate).0.Some?
  }

  /**
   * Terminating a session that the store reaches takes it out of the cache and of the broker, so that neither this
   * instance nor a cold one finds it again, and touches no other; the answer says whether there was a record.
   */
  lemma TerminateForgets(st: R.State, id: SessionId, clock: Clock, later: Clock, other: SessionId)
    requires C.Keyed(st) && other != id
    ensures var (removed, n) := R.Terminate(st, id, clock);
            && (removed <==> Reached(st, id, clock) && id in st.kv && clock.check <= st.kv[id].expires)
            && (Reached(st, id, clock) ==>
                  && id !in n.cache && id !in n.kv && R.Resolve(n, id, later).0.None?
                  && R.Resolve(R.State(map[], n.kv), id, later).0.None?)
            && C.LeavesAlone(st, n, other)
  {
    CloseOther(st, id, clock, other);
  }

  /**
   * Another instance that has it cached goes on serving it while it is live, and with its next delivery the record is
   * back: any instance finds the session again.
   */
  lemma TerminatedElsewhere(st: R.State, id: SessionId, clock: Clock, warm: Table, log: SealLog, req: Request,
                            schema: bytes -> bool, later: Clock, ttlFloor: int, again: real)
    requires C.Keyed(st) && Reached(st, id, clock) && WellKeyed(warm) && C.Names(req, id)
    requires id in warm && !Expired(warm[id], later.lookup) && !Expired(warm[id], later.check)
    ensures var elsewhere := R.State(warm, R.Terminate(st, id, clock).1.kv);
            var (outcome, n) := R.Serve(elsewhere, log, req, schema, later, ttlFloor);
            && R.Resolve(elsewhere, id, later).0 == Some(warm[id]) && !outcome.UnknownSession?
            && (outcome.Delivered? && InTime(warm[id], later.touch, again + 1.0) ==>
                  R.Hydrate(R.State(map[], n.kv), id, again).0.Some?)
  {
    var elsewhere := R.State(warm, R.Terminate(st, id, clock).1.kv);
    assert Identifier(Unpack(req.raw).value.sessionId) == id;
    TerminateKeyed(st, id, clock);
    if R.Serve(elsewhere, log, req, schema, later, ttlFloor).0.Delivered? {
      ServeRenews(elsewhere, log, req, schema, later, ttlFloor, again);
    }
  }

  lemma TerminateKeyed(st: R.State, id: SessionId, clock: Clock)
    requires C.Keyed(st)
    ensures C.Keyed(R.Terminate(st, id, clock).1)
  {
  }
}
