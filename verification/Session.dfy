/** Session state, the in-memory store and the session manager. */
module Sessions {
  import opened Bytes
  import opened Envelopes
  import opened Replay

  datatype SessionState = SessionState(
    id: SessionId,
    c2s: DirectionKeys,
    s2c: DirectionKeys,
    createdAt: real,
    lastUsedAt: real,
    ttl: int,
    maxLifetime: int,
    fingerprint: string,
    scopes: set<string>,
    tenant: string,
    window: Window,
    s2cCounter: nat,
    closed: bool)

  type Table = map<SessionId, SessionState>

  /** What a completed handshake hands to the session manager. */
  datatype SessionMaterial = SessionMaterial(
    sessionId: SessionId,
    c2s: DirectionKeys,
    s2c: DirectionKeys,
    ttl: int,
    fingerprint: string,
    scopes: seq<string>,
    tenant: string)

  /** A new session: counters at zero, an empty window, and the default ttl when the handshake gave none. */
  function NewSession(m: SessionMaterial, now: real, defaultTtl: int, maxLifetime: int): SessionState {
    SessionState(m.sessionId, m.c2s, m.s2c, now, now, if m.ttl == 0 then defaultTtl else m.ttl, maxLifetime,
                 m.fingerprint, (set x | x in m.scopes), m.tenant, Window(0, {}), 0, false)
  }

  /** The successive clock readings of one request. */
  datatype Clock = Clock(lookup: real, hydrate: real, check: real, touch: real)

  predicate Expired(s: SessionState, now: real) {
    s.closed || now - s.lastUsedAt > s.ttl as real || now - s.createdAt > s.maxLifetime as real
  }

  function Find(t: Table, id: SessionId, now: real): Option<SessionState> {
    if id in t && !Expired(t[id], now) then Some(t[id]) else None
  }

  /** Lookup, then hydrate, then the second expiry check that closes and deletes. */
  function TableLookup(t: Table, id: SessionId, clock: Clock): (Option<SessionState>, Table) {
    match Find(t, id, clock.lookup)
    case None =>
      (match Find(t, id, clock.hydrate)
       case None => (None, t)
       case Some(s) => Recheck(t, s, clock.check))
    case Some(s) => Recheck(t, s, clock.check)
  }

  function Recheck(t: Table, s: SessionState, now: real): (Option<SessionState>, Table) {
    if Expired(s, now) then (None, t - {s.id}) else (Some(s), t)
  }

  function TableTerminate(t: Table, id: SessionId, clock: Clock): (bool, Table) {
    if Find(t, id, clock.lookup).Some? || Find(t, id, clock.hydrate).Some? then (true, t - {id}) else (false, t)
  }

  function Reap(t: Table, now: real): Table {
    map id | id in t && !Expired(t[id], now) :: t[id]
  }

  /** The table when reaping has still to visit `ids`. */
  function ReapAfter(t: Table, ids: set<SessionId>, now: real): Table {
    map id | id in t && (id in ids || !Expired(t[id], now)) :: t[id]
  }

  lemma ReapAfterStep(t: Table, ids: set<SessionId>, id: SessionId, now: real)
    requires id in t && id in ids
    ensures id in ReapAfter(t, ids, now) && ReapAfter(t, ids, now)[id] == t[id]
    ensures ReapAfter(t, ids - {id}, now)
            == if Expired(t[id], now) then ReapAfter(t, ids, now) - {id} else ReapAfter(t, ids, now)
  {
  }

  lemma ReapAfterNone(t: Table, now: real)
    ensures ReapAfter(t, {}, now) == Reap(t, now)
  {
  }

  /** Sealing a response bumps the counter of the session object wherever it is held. */
  function Bump(t: Table, id: SessionId): Table {
    if id in t then t[id := t[id].(s2cCounter := t[id].s2cCounter + 1)] else t
  }

  /** The table keys every session by its own id. */
  predicate WellKeyed(t: Table) {
    forall id :: id in t ==> t[id].id == id
  }

  class Session {
    const id: SessionId
    var c2s: DirectionKeys
    var s2c: DirectionKeys
    const createdAt: real
    var lastUsedAt: real
    const ttl: int
    const maxLifetime: int
    const fingerprint: string
    const scopes: set<string>
    const tenant: string
    const replay: ReplayWindow
    var s2cCounter: nat
    var closed: bool
    ghost var window: Window  // what `replay` stands for

    ghost predicate Valid()
      reads this, replay
    {
      replay.owner == id.raw && replay.Valid() && replay.View() == window
    }

    ghost function View(): SessionState
      reads this
    {
      SessionState(id, c2s, s2c, createdAt, lastUsedAt, ttl, maxLifetime, fingerprint, scopes, tenant,
                   window, s2cCounter, closed)
    }

    /** Build a session around a window at watermark `state.window.head` with nothing marked. */
    constructor (state: SessionState)
      ensures Valid() && fresh(this) && fresh(replay)
      ensures View() == state.(window := Window(state.window.head, {}))
    {
      id, c2s, s2c := state.id, state.c2s, state.s2c;
      createdAt, lastUsedAt, ttl, maxLifetime := state.createdAt, state.lastUsedAt, state.ttl, state.maxLifetime;
      fingerprint, scopes, tenant := state.fingerprint, state.scopes, state.tenant;
      s2cCounter, closed := state.s2cCounter, state.closed;
      replay := new ReplayWindow(state.window.head, state.id.raw);
      window := Window(state.window.head, {});
    }

    predicate IsExpired(now: real)
      reads this
      ensures IsExpired(now) <==> Expired(View(), now)
    {
      closed || now - lastUsedAt > ttl as real || now - createdAt > maxLifetime as real
    }

    method CheckReplay(counter: int) returns (ok: bool)
      requires Valid()
      modifies this`window, replay
      ensures Valid()
      ensures ok == Accepts(old(window), counter) && window == Advance(old(window), counter)
    {
      ok := replay.CheckAndAdvance(counter);
      window := replay.View();
    }

    method Touch(now: real)
      modifies this`lastUsedAt
      ensures lastUsedAt == now
    {
      lastUsedAt := now;
    }

    /** Close the session and forget both direction keys. */
    method Zeroize()
      modifies this`closed, this`c2s, this`s2c
      ensures closed && c2s == Zeroed(old(c2s)) && s2c == Zeroed(old(s2c))
    {
      closed := true;
      c2s := Zeroed(c2s);
      s2c := Zeroed(s2c);
    }
  }

  class InMemorySessionStore {
    var byId: map<SessionId, Session>
    ghost var table: Table  // the value of every stored session

    /** The heap objects the stored sessions live in. */
    ghost function Objects(): set<object>
      reads this
    {
      (set id | id in byId :: byId[id] as object) + (set id | id in byId :: byId[id].replay as object)
    }

    /** A stored session sits under its own id with its own window. */
    ghost predicate Placed(id: SessionId)
      requires id in byId
      reads this, byId[id]
    {
      byId[id].id == id && byId[id].replay.owner == id.raw
    }

    /** It is intact and has its recorded value. */
    ghost predicate Intact(id: SessionId)
      requires id in byId && id in table
      reads this, byId[id], byId[id].replay
    {
      Placed(id) && byId[id].Valid() && byId[id].View() == table[id]
    }

    /** Every stored session but possibly some is intact. */
    ghost predicate ValidExcept(except: set<SessionId>)
      reads this, Objects()
    {
      && byId.Keys == table.Keys
      && forall id :: id in byId ==> if id in except then Placed(id) else Intact(id)
    }

    ghost predicate Valid()
      reads this, Objects()
    {
      ValidExcept({})
    }

    constructor ()
      ensures Valid() && byId == map[] && table == map[]
    {
      byId, table := map[], map[];
    }

    function Lookup(id: SessionId, now: real): (s: Session?)
      requires Valid()
      reads this, Objects()
      ensures s == null <==> Find(table, id, now) == None
      ensures s != null ==> id in byId && s == byId[id] && Find(table, id, now) == Some(s.View())
    {
      if id !in byId || byId[id].IsExpired(now) then null else byId[id]
    }

    /** A stored session changed through a reference: the recorded value follows. */
    ghost method Follow(s: Session)
      requires ValidExcept({s.id}) && s.id in byId && byId[s.id] == s && s.Valid()
      modifies this`table
      ensures Valid() && table == old(table)[s.id := s.View()]
    {
      ghost var value := s.View();
      table := table[s.id := value];
      forall id | id in byId
        ensures Intact(id)
      {
      }
    }

    method Put(s: Session)
      requires ValidExcept({s.id}) && s.Valid()
      modifies this
      ensures Valid()
      ensures byId == old(byId)[s.id := s] && table == old(table)[s.id := s.View()]
    {
      ghost var before, value := byId, s.View();
      byId, table := byId[s.id := s], table[s.id := value];
      forall id | id in byId
        ensures Intact(id)
      {
        if id != s.id {
          assert before[id] == byId[id];
        }
      }
    }

    method Delete(id: SessionId) returns (removed: bool)
      requires ValidExcept({id})
      modifies this
      ensures Valid()
      ensures removed == (id in old(byId)) && byId == old(byId) - {id} && table == old(table) - {id}
    {
      removed := id in byId;
      ghost var before := byId;
      byId, table := byId - {id}, table - {id};
      forall k | k in byId
        ensures Intact(k)
      {
        assert before[k] == byId[k];
      }
    }

    method DropIfExpired(id: SessionId, now: real) returns (gone: bool)
      requires Valid() && id in byId
      modifies this
      ensures Valid()
      ensures gone == Expired(old(table)[id], now)
      ensures table == if gone then old(table) - {id} else old(table)
      ensures |table| == |old(table)| - if gone then 1 else 0
    {
      gone := byId[id].IsExpired(now);
      if gone {
        assert (table - {id}).Keys == table.Keys - {id};
        var _ := Delete(id);
      }
    }

    method ReapExpired(now: real) returns (removed: nat)
      requires Valid()
      modifies this
      ensures Valid()
      ensures table == Reap(old(table), now) && removed == |old(table)| - |table|
    {
      removed := 0;
      var keys := byId.Keys;
      ghost var start := table;
      assert ReapAfter(start, keys, now) == start;
      while keys != {}
        invariant Valid() && keys <= start.Keys
        invariant table == ReapAfter(start, keys, now) && removed == |start| - |table|
        decreases keys
      {
        var id :| id in keys;
        ReapAfterStep(start, keys, id, now);
        var gone := DropIfExpired(id, now);
        removed := removed + if gone then 1 else 0;
        keys := keys - {id};
      }
      ReapAfterNone(start, now);
    }
  }

  class SessionManager {
    const store: InMemorySessionStore
    const ttl: int
    const maxLifetime: int

    constructor (ttl: int, maxLifetime: int, store: InMemorySessionStore)
      ensures this.ttl == ttl && this.maxLifetime == maxLifetime && this.store == store
    {
      this.ttl, this.maxLifetime, this.store := ttl, maxLifetime, store;
    }

    method Create(material: SessionMaterial, now: real) returns (s: Session)
      requires store.Valid()
      modifies store
      ensures store.Valid() && fresh(s) && fresh(s.replay)
      ensures store.byId == old(store.byId)[material.sessionId := s]
      ensures store.table == old(store.table)[material.sessionId := NewSession(material, now, ttl, maxLifetime)]
      ensures s.View() == NewSession(material, now, ttl, maxLifetime)
    {
      s := new Session(NewSession(material, now, ttl, maxLifetime));
      store.Put(s);
    }

    method LookupAsync(id: SessionId, clock: Clock) returns (s: Session?)
      requires store.Valid()
      modifies store, store.Objects()
      ensures store.Valid()
      ensures forall k :: k in store.byId ==> k in old(store.byId) && store.byId[k] == old(store.byId)[k]
      ensures store.table == TableLookup(old(store.table), id, clock).1
      ensures s == null <==> TableLookup(old(store.table), id, clock).0 == None
      ensures s != null ==> id in store.byId && s == store.byId[id]
                            && TableLookup(old(store.table), id, clock).0 == Some(s.View())
      ensures s != null ==> !s.IsExpired(clock.check) && !s.closed
      ensures s == null && (Find(old(store.table), id, clock.lookup).Some? || Find(old(store.table), id, clock.hydrate).Some?) ==>
                var dropped := old(store.byId)[id];
                id !in store.byId && dropped.closed && dropped.c2s == Zeroed(old(dropped.c2s)) && dropped.s2c == Zeroed(old(dropped.s2c))
    {
      s := store.Lookup(id, clock.lookup);
      if s == null {
        s := store.Lookup(id, clock.hydrate);
      }
      if s == null || s.IsExpired(clock.check) {
        if s != null {
          var _ := CloseAndDelete(id, s);
        }
        s := null;
      }
    }

    /** Zeroize a stored session and drop it; no other session changes. */
    method CloseAndDelete(id: SessionId, s: Session) returns (removed: bool)
      requires store.Valid() && id in store.byId && store.byId[id] == s
      modifies store, s`closed, s`c2s, s`s2c
      ensures store.Valid() && store.byId == old(store.byId) - {id}
      ensures store.table == old(store.table) - {id}
      ensures removed && s.closed && s.c2s == Zeroed(old(s.c2s)) && s.s2c == Zeroed(old(s.s2c))
    {
      s.Zeroize();
      removed := store.Delete(id);
    }

    method Terminate(id: SessionId, clock: Clock) returns (removed: bool)
      requires store.Valid()
      modifies store, store.Objects()
      ensures store.Valid()
      ensures removed == TableTerminate(old(store.table), id, clock).0
      ensures store.table == TableTerminate(old(store.table), id, clock).1
      ensures removed ==> old(store.byId)[id].closed && old(store.byId)[id].c2s.key == ZERO_KEY
                          && old(store.byId)[id].s2c.key == ZERO_KEY
    {
      var s := store.Lookup(id, clock.lookup);
      if s == null {
        s := store.Lookup(id, clock.hydrate);
      }
      if s == null {
        return false;
      }
      removed := CloseAndDelete(id, s);
    }
  }
}
