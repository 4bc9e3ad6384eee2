/** Reaping expired sessions is unobservable on either store. */
module Reaping {
  import opened Bytes
  import opened Envelopes
  import opened Sessions
  import opened Router
  import R = RedisStore
  import Wire

  datatype Op =
    | Create(session: SessionState, now: real)
    | Receive(log: SealLog, req: Request, schema: bytes -> bool, clock: Clock)
    | Respond(id: SessionId, now: real)
    | Close(id: SessionId, clock: Clock)
    | ReapAt(now: real)

  datatype Answer = Created | Served(outcome: Outcome) | Responded(counter: Option<nat>) | Closed(removed: bool)

  function Start(op: Op): real {
    match op
    case Create(_, now) => now
    case Receive(_, _, _, clock) => clock.lookup
    case Respond(_, now) => now
    case Close(_, clock) => clock.lookup
    case ReapAt(now) => now
  }

  function End(op: Op): real {
    match op
    case Create(_, now) => now
    case Receive(_, _, _, clock) => clock.touch
    case Respond(_, now) => now
    case Close(_, clock) => clock.touch
    case ReapAt(now) => now
  }

  predicate ClockRuns(c: Clock) {
    c.lookup <= c.hydrate <= c.check <= c.touch
  }

  /** The clock never goes back, within an operation or between two. */
  predicate Ordered(now: real, ops: seq<Op>)
    decreases |ops|
  {
    ops == [] ||
    (&& now <= Start(ops[0])
     && (ops[0].Receive? ==> ClockRuns(ops[0].clock)) && (ops[0].Close? ==> ClockRuns(ops[0].clock))
     && Ordered(End(ops[0]), ops[1..]))
  }

  function WithoutReaps(ops: seq<Op>): seq<Op> {
    if ops == [] then [] else (if ops[0].ReapAt? then [] else [ops[0]]) + WithoutReaps(ops[1..])
  }

  /** The counter a reply of a live session goes out under. */
  function ReplyCounter(t: Table, id: SessionId, now: real): Option<nat> {
    if Find(t, id, now).Some? then Some(t[id].s2cCounter + 1) else None
  }

  /** Two tables that differ at most in entries already expired. */
  ghost predicate Agree(t: Table, u: Table, now: real) {
    && WellKeyed(t) && WellKeyed(u)
    && forall id :: Find(t, id, now) == Find(u, id, now)
  }

  lemma AgreeLater(t: Table, u: Table, now: real, later: real)
    requires Agree(t, u, now) && now <= later
    ensures Agree(t, u, later)
  {
    forall id
      ensures Find(t, id, later) == Find(u, id, later)
    {
      assert Find(t, id, now) == Find(u, id, now);
    }
  }

  lemma ReapAgrees(t: Table, u: Table, now: real)
    requires Agree(t, u, now)
    ensures Agree(Reap(t, now), u, now)
  {
    forall id
      ensures Find(Reap(t, now), id, now) == Find(u, id, now)
    {
      assert Find(t, id, now) == Find(u, id, now);
    }
  }

  lemma PutAgrees(t: Table, u: Table, s: SessionState, now: real)
    requires Agree(t, u, now)
    ensures Agree(t[s.id := s], u[s.id := s], now)
  {
    var t', u' := t[s.id := s], u[s.id := s];
    forall id
      ensures Find(t', id, now) == Find(u', id, now)
    {
      assert Find(t, id, now) == Find(u, id, now);
    }
  }

  lemma DropAgrees(t: Table, u: Table, dropT: set<SessionId>, dropU: set<SessionId>, now: real)
    requires Agree(t, u, now)
    requires forall id :: Find(t, id, now).Some? ==> (id in dropT <==> id in dropU)
    ensures Agree(t - dropT, u - dropU, now)
  {
    var t', u' := t - dropT, u - dropU;
    forall id
      ensures Find(t', id, now) == Find(u', id, now)
    {
      assert Find(t, id, now) == Find(u, id, now);
    }
  }

  lemma BumpAgrees(t: Table, u: Table, id: SessionId, now: real)
    requires Agree(t, u, now)
    ensures Agree(Bump(t, id), Bump(u, id), now)
  {
    forall k
      ensures Find(Bump(t, id), k, now) == Find(Bump(u, id), k, now)
    {
      assert Find(t, k, now) == Find(u, k, now);
    }
  }

  // ----- the in-memory store -----

  function MemStep(t: Table, op: Op): (seq<Answer>, Table) {
    match op
    case Create(s, _) => ([Created], t[s.id := s])
    case Receive(log, req, schema, clock) =>
      ([Served(Router.Receive(t, log, req, schema, clock).0)], Router.Receive(t, log, req, schema, clock).1)
    case Respond(id, now) => ([Responded(ReplyCounter(t, id, now))], Bump(t, id))
    case Close(id, clock) => ([Closed(TableTerminate(t, id, clock).0)], TableTerminate(t, id, clock).1)
    case ReapAt(now) => ([], Reap(t, now))
  }

  function MemAnswers(t: Table, ops: seq<Op>): seq<Answer>
    decreases |ops|
  {
    if ops == [] then [] else MemStep(t, ops[0]).0 + MemAnswers(MemStep(t, ops[0]).1, ops[1..])
  }

  lemma LookupAgrees(t: Table, u: Table, id: SessionId, clock: Clock)
    requires Agree(t, u, clock.lookup) && ClockRuns(clock)
    ensures TableLookup(t, id, clock).0 == TableLookup(u, id, clock).0
    ensures Agree(TableLookup(t, id, clock).1, TableLookup(u, id, clock).1, clock.touch)
    ensures TableLookup(t, id, clock).0.Some? ==> !Expired(TableLookup(t, id, clock).0.value, clock.check)
  {
    AgreeLater(t, u, clock.lookup, clock.hydrate);
    AgreeLater(t, u, clock.lookup, clock.touch);
    DropAgrees(t, u, {id}, {id}, clock.touch);
  }

  lemma MemStepAgrees(t: Table, u: Table, op: Op)
    requires Agree(t, u, Start(op)) && !op.ReapAt? && Ordered(Start(op), [op])
    ensures MemStep(t, op).0 == MemStep(u, op).0
    ensures Agree(MemStep(t, op).1, MemStep(u, op).1, End(op))
  {
    match op
    case Create(s, now) => PutAgrees(t, u, s, now);
    case Respond(id, now) =>
      assert Find(t, id, now) == Find(u, id, now);
      BumpAgrees(t, u, id, now);
    case Close(id, clock) =>
      AgreeLater(t, u, clock.lookup, clock.hydrate);
      AgreeLater(t, u, clock.lookup, clock.touch);
      DropAgrees(t, u, {id}, {id}, clock.touch);
    case Receive(log, req, schema, clock) =>
      AgreeLater(t, u, clock.lookup, clock.touch);
      MemReceiveAgrees(t, u, log, req, schema, clock);
    case ReapAt(_) =>
  }

  lemma MemReceiveAgrees(t: Table, u: Table, log: SealLog, req: Request, schema: bytes -> bool, clock: Clock)
    requires Agree(t, u, clock.lookup) && Agree(t, u, clock.touch) && ClockRuns(clock)
    ensures Router.Receive(t, log, req, schema, clock).0 == Router.Receive(u, log, req, schema, clock).0
    ensures Agree(Router.Receive(t, log, req, schema, clock).1, Router.Receive(u, log, req, schema, clock).1, clock.touch)
  {
    var env := Wire.Unpack(req.raw);
    if |req.raw| >= MIN_ENVELOPE && env.Ok? {
      var id: SessionId := Identifier(env.value.sessionId);
      LookupAgrees(t, u, id, clock);
      var (found, t1) := TableLookup(t, id, clock);
      var u1 := TableLookup(u, id, clock).1;
      if found.Some? {
        PutAgrees(t1, u1, Admit(found.value, log, env.value.counter, req, schema, clock.touch).1, clock.touch);
      }
    }
  }

  /** Reaping at any points of a run changes no answer. */
  lemma {:induction false} MemReapingUnobservable(t: Table, u: Table, now: real, ops: seq<Op>)
    requires Agree(t, u, now) && Ordered(now, ops)
    ensures MemAnswers(t, ops) == MemAnswers(u, WithoutReaps(ops))
    decreases |ops|
  {
    if ops != [] {
      var op := ops[0];
      AgreeLater(t, u, now, Start(op));
      if op.ReapAt? {
        ReapAgrees(t, u, op.now);
        MemReapingUnobservable(Reap(t, op.now), u, op.now, ops[1..]);
        assert WithoutReaps(ops) == WithoutReaps(ops[1..]);
      } else {
        MemStepAgrees(t, u, op);
        MemReapingUnobservable(MemStep(t, op).1, MemStep(u, op).1, End(op), ops[1..]);
        var rest := WithoutReaps(ops[1..]);
        assert WithoutReaps(ops) == [op] + rest && ([op] + rest)[1..] == rest;
      }
    }
  }

  // ----- the broker-backed store -----

  function RedisStep(st: R.State, op: Op, ttlFloor: int): (seq<Answer>, R.State) {
    match op
    case Create(s, now) => ([Created], R.Put(st, s, ttlFloor, now))
    case Receive(log, req, schema, clock) =>
      ([Served(R.Serve(st, log, req, schema, clock, ttlFloor).0)], R.Serve(st, log, req, schema, clock, ttlFloor).1)
    case Respond(id, now) => ([Responded(ReplyCounter(st.cache, id, now))], R.State(Bump(st.cache, id), st.kv))
    case Close(id, clock) => ([Closed(R.Terminate(st, id, clock).0)], R.Terminate(st, id, clock).1)
    case ReapAt(now) => ([], R.ReapCache(st, now))
  }

  function RedisAnswers(st: R.State, ops: seq<Op>, ttlFloor: int): seq<Answer>
    decreases |ops|
  {
    if ops == [] then []
    else RedisStep(st, ops[0], ttlFloor).0 + RedisAnswers(RedisStep(st, ops[0], ttlFloor).1, ops[1..], ttlFloor)
  }

  /** Equal brokers, every record under its own id, and caches that differ only in expired entries. */
  ghost predicate Alike(a: R.State, b: R.State, now: real) {
    && a.kv == b.kv && (forall id :: id in a.kv ==> a.kv[id].blob.id == id)
    && Agree(a.cache, b.cache, now)
  }

  /** Lookup then hydration: the same session is found, and the states stay alike. */
  function FindAnywhere(st: R.State, id: SessionId, clock: Clock): (Option<SessionState>, R.State) {
    var (local, st1) := R.Lookup(st, id, clock.lookup);
    if local.Some? then (local, st1) else R.Hydrate(st1, id, clock.hydrate)
  }

  lemma CachedAgrees(a: R.State, b: R.State, id: SessionId, now: real)
    requires Alike(a, b, now)
    ensures R.Lookup(a, id, now).0 == R.Lookup(b, id, now).0
    ensures R.Lookup(a, id, now).0.Some? ==> R.Lookup(a, id, now).0.value.id == id
    ensures Alike(R.Lookup(a, id, now).1, R.Lookup(b, id, now).1, now)
  {
    var dropA := if id in a.cache && Expired(a.cache[id], now) then {id} else {};
    var dropB := if id in b.cache && Expired(b.cache[id], now) then {id} else {};
    assert Find(a.cache, id, now) == Find(b.cache, id, now);
    DropAgrees(a.cache, b.cache, dropA, dropB, now);
    assert a.cache - {} == a.cache && b.cache - {} == b.cache;
  }

  lemma HydrateAgrees(a: R.State, b: R.State, id: SessionId, now: real)
    requires Alike(a, b, now)
    ensures R.Hydrate(a, id, now).0 == R.Hydrate(b, id, now).0
    ensures R.Hydrate(a, id, now).0.Some? ==> R.Hydrate(a, id, now).0.value.id == id
    ensures Alike(R.Hydrate(a, id, now).1, R.Hydrate(b, id, now).1, now)
  {
    assert Find(a.cache, id, now) == Find(b.cache, id, now);
    if id in a.kv {
      PutAgrees(a.cache, b.cache, R.Deserialize(a.kv[id].blob), now);
    }
  }

  lemma FindAnywhereAgrees(a: R.State, b: R.State, id: SessionId, clock: Clock)
    requires Alike(a, b, clock.lookup) && ClockRuns(clock)
    ensures FindAnywhere(a, id, clock).0 == FindAnywhere(b, id, clock).0
    ensures Alike(FindAnywhere(a, id, clock).1, FindAnywhere(b, id, clock).1, clock.hydrate)
    ensures FindAnywhere(a, id, clock).0.Some? ==> FindAnywhere(a, id, clock).0.value.id == id
  {
    var a1, b1 := R.Lookup(a, id, clock.lookup).1, R.Lookup(b, id, clock.lookup).1;
    CachedAgrees(a, b, id, clock.lookup);
    AlikeLater(a1, b1, clock.lookup, clock.hydrate);
    HydrateAgrees(a1, b1, id, clock.hydrate);
  }

  lemma DeleteAgrees(a: R.State, b: R.State, id: SessionId, now: real)
    requires Alike(a, b, now)
    ensures R.Delete(a, id, now).0 == R.Delete(b, id, now).0
    ensures Alike(R.Delete(a, id, now).1, R.Delete(b, id, now).1, now)
  {
    DropAgrees(a.cache, b.cache, {id}, {id}, now);
  }

  lemma AlikeLater(a: R.State, b: R.State, now: real, later: real)
    requires Alike(a, b, now) && now <= later
    ensures Alike(a, b, later)
  {
    AgreeLater(a.cache, b.cache, now, later);
  }

  lemma ResolveAgrees(a: R.State, b: R.State, id: SessionId, clock: Clock)
    requires Alike(a, b, clock.lookup) && ClockRuns(clock)
    ensures R.Resolve(a, id, clock).0 == R.Resolve(b, id, clock).0
    ensures Alike(R.Resolve(a, id, clock).1, R.Resolve(b, id, clock).1, clock.touch)
    ensures R.Resolve(a, id, clock).0.Some? ==>
              R.Resolve(a, id, clock).0.value.id == id && !Expired(R.Resolve(a, id, clock).0.value, clock.check)
  {
    FindAnywhereAgrees(a, b, id, clock);
    var a2, b2 := FindAnywhere(a, id, clock).1, FindAnywhere(b, id, clock).1;
    AlikeLater(a2, b2, clock.hydrate, clock.check);
    DeleteAgrees(a2, b2, id, clock.check);
    AlikeLater(a2, b2, clock.check, clock.touch);
    AlikeLater(R.Delete(a2, id, clock.check).1, R.Delete(b2, id, clock.check).1, clock.check, clock.touch);
  }

  lemma CloseAgrees(a: R.State, b: R.State, id: SessionId, clock: Clock)
    requires Alike(a, b, clock.lookup) && ClockRuns(clock)
    ensures R.Terminate(a, id, clock).0 == R.Terminate(b, id, clock).0
    ensures Alike(R.Terminate(a, id, clock).1, R.Terminate(b, id, clock).1, clock.touch)
  {
    FindAnywhereAgrees(a, b, id, clock);
    var a2, b2 := FindAnywhere(a, id, clock).1, FindAnywhere(b, id, clock).1;
    AlikeLater(a2, b2, clock.hydrate, clock.check);
    DeleteAgrees(a2, b2, id, clock.check);
    AlikeLater(a2, b2, clock.check, clock.touch);
    AlikeLater(R.Delete(a2, id, clock.check).1, R.Delete(b2, id, clock.check).1, clock.check, clock.touch);
  }

  lemma WriteAgrees(a: R.State, b: R.State, s: SessionState, ttlFloor: int, now: real)
    requires Alike(a, b, now)
    ensures Alike(R.Put(a, s, ttlFloor, now), R.Put(b, s, ttlFloor, now), now)
    ensures Alike(R.State(a.cache[s.id := s], a.kv), R.State(b.cache[s.id := s], b.kv), now)
  {
    PutAgrees(a.cache, b.cache, s, now);
  }

  lemma ServeFoundAgrees(a: R.State, b: R.State, admitted: (Outcome, SessionState), ttlFloor: int, now: real)
    requires Alike(a, b, now)
    ensures R.ServeFound(a, admitted, ttlFloor, now).0 == R.ServeFound(b, admitted, ttlFloor, now).0
    ensures Alike(R.ServeFound(a, admitted, ttlFloor, now).1, R.ServeFound(b, admitted, ttlFloor, now).1, now)
  {
    WriteAgrees(a, b, admitted.1, ttlFloor, now);
  }

  lemma ServeAgrees(a: R.State, b: R.State, log: SealLog, req: Request, schema: bytes -> bool, clock: Clock, ttlFloor: int)
    requires Alike(a, b, clock.lookup) && ClockRuns(clock)
    ensures R.Serve(a, log, req, schema, clock, ttlFloor).0 == R.Serve(b, log, req, schema, clock, ttlFloor).0
    ensures Alike(R.Serve(a, log, req, schema, clock, ttlFloor).1, R.Serve(b, log, req, schema, clock, ttlFloor).1, clock.touch)
  {
    var env := Wire.Unpack(req.raw);
    if |req.raw| < MIN_ENVELOPE || env.Err? {
      AlikeLater(a, b, clock.lookup, clock.touch);
    } else {
      var id: SessionId := Identifier(env.value.sessionId);
      ResolveAgrees(a, b, id, clock);
      var (found, a1) := R.Resolve(a, id, clock);
      var b1 := R.Resolve(b, id, clock).1;
      if found.Some? {
        ServeFoundAgrees(a1, b1, Admit(found.value, log, env.value.counter, req, schema, clock.touch), ttlFloor, clock.touch);
      }
    }
  }

  lemma RedisStepAgrees(a: R.State, b: R.State, op: Op, ttlFloor: int)
    requires Alike(a, b, Start(op)) && !op.ReapAt? && Ordered(Start(op), [op])
    ensures RedisStep(a, op, ttlFloor).0 == RedisStep(b, op, ttlFloor).0
    ensures Alike(RedisStep(a, op, ttlFloor).1, RedisStep(b, op, ttlFloor).1, End(op))
  {
    match op
    case Create(s, now) => PutAgrees(a.cache, b.cache, s, now);
    case Respond(id, now) =>
      assert Find(a.cache, id, now) == Find(b.cache, id, now);
      BumpAgrees(a.cache, b.cache, id, now);
    case Close(id, clock) => CloseAgrees(a, b, id, clock);
    case Receive(log, req, schema, clock) => ServeAgrees(a, b, log, req, schema, clock, ttlFloor);
    case ReapAt(_) =>
  }

  lemma {:induction false} RedisReapingUnobservable(a: R.State, b: R.State, now: real, ops: seq<Op>, ttlFloor: int)
    requires Alike(a, b, now) && Ordered(now, ops)
    ensures RedisAnswers(a, ops, ttlFloor) == RedisAnswers(b, WithoutReaps(ops), ttlFloor)
    decreases |ops|
  {
    if ops != [] {
      var op := ops[0];
      AlikeLater(a, b, now, Start(op));
      if op.ReapAt? {
        ReapAgrees(a.cache, b.cache, op.now);
        RedisReapingUnobservable(R.ReapCache(a, op.now), b, op.now, ops[1..], ttlFloor);
        assert WithoutReaps(ops) == WithoutReaps(ops[1..]);
      } else {
        RedisStepAgrees(a, b, op, ttlFloor);
        RedisReapingUnobservable(RedisStep(a, op, ttlFloor).1, RedisStep(b, op, ttlFloor).1, End(op), ops[1..], ttlFloor);
        var rest := WithoutReaps(ops[1..]);
        assert WithoutReaps(ops) == [op] + rest && ([op] + rest)[1..] == rest;
      }
    }
  }

  /** No answer of the lookup is an expired or closed session, on either store and for any clock readings. */
  lemma LookupNeverExpired(t: Table, st: R.State, id: SessionId, clock: Clock)
    ensures TableLookup(t, id, clock).0.Some? ==>
              !Expired(TableLookup(t, id, clock).0.value, clock.check) && !TableLookup(t, id, clock).0.value.closed
    ensures R.Resolve(st, id, clock).0.Some? ==>
              !Expired(R.Resolve(st, id, clock).0.value, clock.check) && !R.Resolve(st, id, clock).0.value.closed
  {
  }
}
