/** The shared-broker session store: a local cache in front of serialized records. */
module RedisStore {
  import opened Bytes
  import opened Wire
  import opened Envelopes
  import opened Replay
  import opened Sessions
  import opened Router

  /** The persisted fields; of the replay window only the watermark is written. */
  datatype Blob = Blob(
    id: SessionId,
    c2s: DirectionKeys,
    s2c: DirectionKeys,
    createdAt: real,
    lastUsedAt: real,
    ttl: int,
    maxLifetime: int,
    fingerprint: string,
    scopes: set<string>,
    tenant: string,
    replayHigh: int,
    s2cCounter: nat,
    closed: bool)

  datatype Record = Record(blob: Blob, expires: real)

  type Broker = map<SessionId, Record>

  function Serialize(s: SessionState): Blob {
    Blob(s.id, s.c2s, s.s2c, s.createdAt, s.lastUsedAt, s.ttl, s.maxLifetime, s.fingerprint, s.scopes, s.tenant,
         s.window.head, s.s2cCounter, s.closed)
  }

  function Deserialize(b: Blob): SessionState {
    SessionState(b.id, b.c2s, b.s2c, b.createdAt, b.lastUsedAt, b.ttl, b.maxLifetime, b.fingerprint, b.scopes, b.tenant,
                 Window(b.replayHigh, {}), b.s2cCounter, b.closed)
  }

  /** A record survives exactly, except that the window comes back empty: it then accepts any counter, seen or not,
      above the persisted watermark less the window. */
  lemma RoundTrip(s: SessionState, counter: int)
    ensures Deserialize(Serialize(s)) == s.(window := Window(s.window.head, {}))
    ensures Accepts(Deserialize(Serialize(s)).window, counter) <==>
            counter >= 0 && counter > s.window.head - 1024
  {
  }

  datatype State = State(cache: Table, kv: Broker)

  function WholeSeconds(r: real): int {
    if r < 0.0 then 0 else r.Floor
  }

  function Min(a: int, b: int): int {
    if a < b then a else b
  }

  function Max(a: int, b: int): int {
    if a < b then b else a
  }

  /** The record's time to live: what remains of the session, but never below the floor. */
  function RecordTtl(s: SessionState, ttlFloor: int, now: real): int {
    Max(ttlFloor, Min(WholeSeconds(s.lastUsedAt + s.ttl as real - now), WholeSeconds(s.createdAt + s.maxLifetime as real - now)))
  }

  function Fetch(kv: Broker, id: SessionId, now: real): Option<Blob> {
    if id in kv && now <= kv[id].expires then Some(kv[id].blob) else None
  }

  function Lookup(st: State, id: SessionId, now: real): (Option<SessionState>, State) {
    if id in st.cache && Expired(st.cache[id], now) then (None, State(st.cache - {id}, st.kv))
    else (Find(st.cache, id, now), st)
  }

  function Hydrate(st: State, id: SessionId, now: real): (Option<SessionState>, State) {
    if Find(st.cache, id, now).Some? then (Find(st.cache, id, now), st)
    else
      match Fetch(st.kv, id, now)
      case None => (None, st)
      case Some(blob) =>
        if Expired(Deserialize(blob), now) then (None, State(st.cache, st.kv - {id}))
        else (Some(Deserialize(blob)), State(st.cache[id := Deserialize(blob)], st.kv))
  }

  function Put(st: State, s: SessionState, ttlFloor: int, now: real): State {
    State(st.cache[s.id := s], st.kv[s.id := Record(Serialize(s), now + RecordTtl(s, ttlFloor, now) as real)])
  }

  function Delete(st: State, id: SessionId, now: real): (bool, State) {
    (Fetch(st.kv, id, now).Some?, State(st.cache - {id}, st.kv - {id}))
  }

  function ReapCache(st: State, now: real): State {
    State(Reap(st.cache, now), st.kv)
  }

  /** Lookup in the cache, then the broker, then the second expiry check. */
  function Resolve(st: State, id: SessionId, clock: Clock): (Option<SessionState>, State) {
    var (local, st1) := Lookup(st, id, clock.lookup);
    var (found, st2) := if local.Some? then (local, st1) else Hydrate(st1, id, clock.hydrate);
    if found.Some? && Expired(found.value, clock.check) then (None, Delete(st2, id, clock.check).1) else (found, st2)
  }

  function Terminate(st: State, id: SessionId, clock: Clock): (bool, State) {
    var (local, st1) := Lookup(st, id, clock.lookup);
    var (found, st2) := if local.Some? then (local, st1) else Hydrate(st1, id, clock.hydrate);
    if found.None? then (false, st2) else Delete(st2, id, clock.check)
  }

  /** The receive step on this store: refusals change the cached session only, a delivery is written through. */
  function Serve(st: State, log: SealLog, req: Request, schema: bytes -> bool, clock: Clock, ttlFloor: int): (Outcome, State) {
    if |req.raw| < MIN_ENVELOPE then (BadEnvelope, st)
    else
      match Unpack(req.raw)
      case Err(_) => (BadEnvelope, st)
      case Ok(env) =>
        var (found, st1) := Resolve(st, Identifier(env.sessionId), clock);
        match found
        case None => (UnknownSession, st1)
        case Some(s) => ServeFound(st1, Admit(s, log, env.counter, req, schema, clock.touch), ttlFloor, clock.touch)
  }

  function ServeFound(st: State, admitted: (Outcome, SessionState), ttlFloor: int, now: real): (Outcome, State) {
    (admitted.0,
     if admitted.0.Delivered? then Put(st, admitted.1, ttlFloor, now)
     else State(st.cache[admitted.1.id := admitted.1], st.kv))
  }

  class RedisSessionStore {
    var cache: Table
    var kv: Broker  // the broker's side, shared by every instance
    const keyTtlFloor: int

    ghost function View(): State
      reads this
    {
      State(cache, kv)
    }

    constructor (kv: Broker, keyTtlFloor: int)
      ensures View() == State(map[], kv) && this.keyTtlFloor == keyTtlFloor
    {
      cache, this.kv, this.keyTtlFloor := map[], kv, keyTtlFloor;
    }

    method LookupCached(id: SessionId, now: real) returns (s: Option<SessionState>)
      modifies this`cache
      ensures (s, View()) == Lookup(old(View()), id, now)
    {
      if id !in cache || Expired(cache[id], now) {
        assert id !in cache ==> cache - {id} == cache;
        cache := cache - {id};
        return None;
      }
      return Some(cache[id]);
    }

    method HydrateFromBroker(id: SessionId, now: real) returns (s: Option<SessionState>)
      modifies this
      ensures (s, View()) == Hydrate(old(View()), id, now)
    {
      if id in cache && !Expired(cache[id], now) {
        return Some(cache[id]);
      }
      var blob := Fetch(kv, id, now);
      if blob.None? {
        return None;
      }
      var session := Deserialize(blob.value);
      if Expired(session, now) {
        kv := kv - {id};
        return None;
      }
      cache := cache[id := session];
      return Some(session);
    }

    method PutThrough(s: SessionState, now: real)
      modifies this
      ensures View() == Put(old(View()), s, keyTtlFloor, now)
    {
      cache := cache[s.id := s];
      var remainingTtl := WholeSeconds(s.lastUsedAt + s.ttl as real - now);
      var remainingMax := WholeSeconds(s.createdAt + s.maxLifetime as real - now);
      var ttl := Max(keyTtlFloor, Min(remainingTtl, remainingMax));
      kv := kv[s.id := Record(Serialize(s), now + ttl as real)];
    }

    method DeleteRecord(id: SessionId, now: real) returns (removed: bool)
      modifies this
      ensures (removed, View()) == Delete(old(View()), id, now)
      ensures id !in cache && id !in kv && cache == old(cache) - {id} && kv == old(kv) - {id}
    {
      removed := Fetch(kv, id, now).Some?;
      cache, kv := cache - {id}, kv - {id};
    }

    /** The manager's lookup over this store. */
    method LookupAsync(id: SessionId, clock: Clock) returns (s: Option<SessionState>)
      modifies this
      ensures (s, View()) == Resolve(old(View()), id, clock)
    {
      s := LookupCached(id, clock.lookup);
      if s.None? {
        s := HydrateFromBroker(id, clock.hydrate);
      }
      if s.Some? && Expired(s.value, clock.check) {
        var _ := DeleteRecord(id, clock.check);
        s := None;
      }
    }

    /** The manager's termination over this store. */
    method TerminateSession(id: SessionId, clock: Clock) returns (removed: bool)
      modifies this
      ensures (removed, View()) == Terminate(old(View()), id, clock)
    {
      var s := LookupCached(id, clock.lookup);
      if s.None? {
        s := HydrateFromBroker(id, clock.hydrate);
      }
      if s.None? {
        return false;
      }
      removed := DeleteRecord(id, clock.check);
    }

    method ReapExpired(now: real) returns (removed: nat)
      modifies this`cache
      ensures View() == ReapCache(old(View()), now) && removed == |old(cache)| - |cache|
    {
      removed := 0;
      var keys := cache.Keys;
      ghost var start := cache;
      assert ReapAfter(start, keys, now) == start;
      while keys != {}
        invariant keys <= start.Keys && cache == ReapAfter(start, keys, now) && removed == |start| - |cache|
        decreases keys
      {
        var id :| id in keys;
        ReapAfterStep(start, keys, id, now);
        if Expired(cache[id], now) {
          assert (cache - {id}).Keys == cache.Keys - {id};
          cache := cache - {id};
          removed := removed + 1;
        }
        keys := keys - {id};
      }
      assert cache == Reap(start, now);
    }
  }
}
