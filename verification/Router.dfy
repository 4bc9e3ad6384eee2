/** The server's receive step and send step for encrypted requests. */
module Router {
  import opened Bytes
  import opened Wire
  import opened Envelopes
  import opened Replay
  import opened Sessions

  const MIN_ENVELOPE: nat := 41

  datatype Request = Request(raw: bytes, method_: bytes, path: bytes)

  datatype Outcome =
    | BadEnvelope
    | UnknownSession
    | ReplayDetected
    | DecryptFailed
    | BadRequest
    | Delivered(id: SessionId, counter: nat, plaintext: bytes)

  /** What the receive step answers and leaves in the table. */
  function Receive(t: Table, log: SealLog, req: Request, schema: bytes -> bool, clock: Clock): (Outcome, Table) {
    if |req.raw| < MIN_ENVELOPE then (BadEnvelope, t)
    else
      match Unpack(req.raw)
      case Err(_) => (BadEnvelope, t)
      case Ok(env) =>
        var (found, t1) := TableLookup(t, Identifier(env.sessionId), clock);
        match found
        case None => (UnknownSession, t1)
        case Some(s) =>
          var (outcome, s') := Admit(s, log, env.counter, req, schema, clock.touch);
          (outcome, t1[s.id := s'])
  }

  /** The window moves before the envelope is opened, and a session is touched only by a delivery. */
  function Admit(s: SessionState, log: SealLog, counter: nat, req: Request, schema: bytes -> bool,
                 now: real): (Outcome, SessionState)
  {
    if !Accepts(s.window, counter) then (ReplayDetected, s)
    else
      var moved := s.(window := Advance(s.window, counter));
      match Open(log, s.c2s, s.id, req.method_, req.path, req.raw)
      case Err(_) => (DecryptFailed, moved)
      case Ok((_, plaintext)) =>
        if !schema(plaintext) then (BadRequest, moved)
        else (Delivered(s.id, counter, plaintext), moved.(lastUsedAt := now))
  }

  /** The session is stored, open, and recent enough for every reading of the clock. */
  predicate Served(t: Table, id: SessionId, clock: Clock) {
    id in t && !t[id].closed && InTime(t[id], t[id].lastUsedAt, clock.check)
  }

  /**
   * Why a request is answered as it is: each refusal has one cause, and the causes are looked at in the order of parsing,
   * session, counter, seal, schema.
   */
  lemma AnsweredBecause(t: Table, log: SealLog, env: Envelope, req: Request, schema: bytes -> bool, clock: Clock)
    requires WellKeyed(t) && clock.lookup <= clock.hydrate <= clock.check
    ensures var o := Receive(t, log, req, schema, clock).0;
            && (o.BadEnvelope? <==> |req.raw| < 41 || Unpack(req.raw).Err?)
            && (|req.raw| >= 41 && Unpack(req.raw) == Ok(env) ==>
                  var id: SessionId := Identifier(env.sessionId);
                  var live := Served(t, id, clock);
                  && (o.UnknownSession? <==> !live)
                  && (o.ReplayDetected? <==> live && !Accepts(t[id].window, env.counter))
                  && (live && Accepts(t[id].window, env.counter) ==>
                        var unsealed := Open(log, t[id].c2s, id, req.method_, req.path, req.raw);
                        && (o.DecryptFailed? <==> unsealed.Err?)
                        && (o.BadRequest? <==> unsealed.Ok? && !schema(unsealed.value.1))
                        && (o == Delivered(id, env.counter, if unsealed.Ok? then unsealed.value.1 else []) <==>
                              unsealed.Ok? && schema(unsealed.value.1))))
  {
  }

  /** Idle no longer than its ttl since this use, and no older than its maximum lifetime. */
  predicate InTime(s: SessionState, used: real, now: real) {
    now - used <= s.ttl as real && now - s.createdAt <= s.maxLifetime as real
  }

  /** From this use on the session is found exactly while the use and the session's creation are recent. */
  ghost predicate Renewed(before: Table, after: Table, id: SessionId, used: real) {
    id in before && forall now :: Find(after, id, now).Some? <==> InTime(before[id], used, now)
  }

  /** A delivery renews its session. */
  lemma DeliveryRenews(t: Table, log: SealLog, req: Request, schema: bytes -> bool, clock: Clock)
    requires WellKeyed(t) && Receive(t, log, req, schema, clock).0.Delivered?
    ensures var (outcome, t') := Receive(t, log, req, schema, clock); Renewed(t, t', outcome.id, clock.touch)
  {
  }

  /** Nothing else does: whatever the outcome, any session it was not delivered to is found as long as before. */
  lemma RefusalRenewsNothing(t: Table, log: SealLog, req: Request, schema: bytes -> bool, clock: Clock, id: SessionId,
                             now: real)
    requires WellKeyed(t) && now >= clock.check
    requires var outcome := Receive(t, log, req, schema, clock).0; !(outcome.Delivered? && outcome.id == id)
    ensures Find(Receive(t, log, req, schema, clock).1, id, now).Some? <==> Find(t, id, now).Some?
  {
  }

  method DecryptRequest(manager: SessionManager, log: SealLog, req: Request, schema: bytes -> bool, clock: Clock)
    returns (outcome: Outcome)
    requires manager.store.Valid()
    modifies manager.store, manager.store.Objects()
    ensures manager.store.Valid()
    ensures outcome == Receive(old(manager.store.table), log, req, schema, clock).0
    ensures manager.store.table == Receive(old(manager.store.table), log, req, schema, clock).1
    ensures outcome.Delivered? ==> Renewed(old(manager.store.table), manager.store.table, outcome.id, clock.touch)
  {
    ghost var before := manager.store.table;
    assert WellKeyed(before);
    if |req.raw| < MIN_ENVELOPE {
      return BadEnvelope;
    }
    var parsed := UnpackEnvelope(req.raw);
    if parsed.Err? {
      return BadEnvelope;
    }
    var env := parsed.value;
    var session := manager.LookupAsync(Identifier(env.sessionId), clock);
    if session == null {
      return UnknownSession;
    }
    outcome := AdmitStored(manager.store, session, log, env.counter, req, schema, clock.touch);
    if outcome.Delivered? {
      DeliveryRenews(before, log, req, schema, clock);
    }
  }

  /** Admit against a stored session and persist a delivery. */
  method AdmitStored(store: InMemorySessionStore, session: Session, log: SealLog, counter: nat, req: Request,
                     schema: bytes -> bool, now: real)
    returns (outcome: Outcome)
    requires store.Valid() && session.id in store.byId && store.byId[session.id] == session
    modifies store, session`window, session`lastUsedAt, session.replay
    ensures store.Valid()
    ensures outcome == Admit(old(session.View()), log, counter, req, schema, now).0
    ensures store.table == old(store.table)[session.id := Admit(old(session.View()), log, counter, req, schema, now).1]
  {
    outcome := AdmitRequest(session, log, counter, req, schema, now);
    assert store.ValidExcept({session.id});
    if outcome.Delivered? {
      store.Put(session);
    } else {
      store.Follow(session);
    }
  }

  method AdmitRequest(session: Session, log: SealLog, counter: nat, req: Request, schema: bytes -> bool, now: real)
    returns (outcome: Outcome)
    requires session.Valid()
    modifies session`window, session`lastUsedAt, session.replay
    ensures session.Valid()
    ensures (outcome, session.View()) == Admit(old(session.View()), log, counter, req, schema, now)
    ensures session.lastUsedAt == if outcome.Delivered? then now else old(session.lastUsedAt)
  {
    var accepted := session.CheckReplay(counter);
    if !accepted {
      return ReplayDetected;
    }
    var unsealed := Open(log, session.c2s, session.id, req.method_, req.path, req.raw);
    if unsealed.Err? {
      return DecryptFailed;
    }
    if !schema(unsealed.value.1) {
      return BadRequest;
    }
    session.Touch(now);
    return Delivered(session.id, counter, unsealed.value.1);
  }

  /** Seal one response; `direction` overrides the session's own keys when a closing session says goodbye. */
  method EncryptResponse(session: Session, encrypt: RawCipher, log: SealLog, body: bytes, method_: bytes, path: bytes,
                         direction: Option<DirectionKeys>)
    returns (sealed: Result<(bytes, SealLog), SealError>)
    modifies session`s2cCounter
    ensures session.s2cCounter == old(session.s2cCounter) + 1
    ensures sealed == Seal(encrypt, log, if direction.Some? then direction.value else session.s2c,
                           session.s2cCounter, session.id, method_, path, body)
  {
    session.s2cCounter := session.s2cCounter + 1;
    sealed := Seal(encrypt, log, if direction.Some? then direction.value else session.s2c,
                   session.s2cCounter, session.id, method_, path, body);
  }
}
