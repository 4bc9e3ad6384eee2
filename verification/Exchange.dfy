/** From the handshake to the first answer: the session a server creates is the one its client speaks on. */
module Exchange {
  import opened Bytes
  import opened Wire
  import opened Envelopes
  import opened Replay
  import opened ClientReplay
  import opened Sessions
  import opened Handshake
  import opened Kdf
  import Reaping
  import Router
  import T = Transport

  /** The session that the server stores for a handshake, and the keys its client holds after it. */
  ghost predicate Established(s: Suite, client: Identity, clientEphSk: bytes, host: string, timestamp: int, server: Identity,
                              allowlist: map<bytes, AuthorizedClient>, skew: int, ttl: int, expectedHost: Option<string>,
                              now: int, ephSk: bytes, sessionId: SessionId, k: T.Keys, m: SessionMaterial)
    requires IsHmac(s.hmac)
  {
    var r := PerformHandshake(s, BuildRequest(s, client, host, s.x25519Pk(clientEphSk), timestamp), server, allowlist, skew, ttl,
                              expectedHost, now, ephSk, sessionId);
    r.Ok? && m == r.value.1 &&
    var o := DeriveSession(s, client, clientEphSk, host, timestamp, r.value.0, s.x25519Pk(server.x25519Sk));
    o.Ok? && k == T.Keys(o.value.sessionId, o.value.c2s, o.value.s2c)
  }

  /** Still within the ttl of the handshake, or the default one if it gave none, and within the maximum lifetime. */
  predicate Young(created: real, ttl: int, defaultTtl: int, maxLifetime: int, now: real) {
    && now - created <= (if ttl == 0 then defaultTtl else ttl) as real
    && now - created <= maxLifetime as real
  }

  /** Both sides then hold the same id and the same keys in each direction. */
  lemma KeysMatch(s: Suite, client: Identity, clientEphSk: bytes, host: string, timestamp: int, server: Identity,
                  allowlist: map<bytes, AuthorizedClient>, skew: int, ttl: int, expectedHost: Option<string>, now: int,
                  ephSk: bytes, sessionId: SessionId, k: T.Keys, m: SessionMaterial)
    requires Lawful(s)
    requires Established(s, client, clientEphSk, host, timestamp, server, allowlist, skew, ttl, expectedHost, now, ephSk, sessionId, k, m)
    ensures k == T.Keys(m.sessionId, m.c2s, m.s2c) && m.sessionId == sessionId && m.ttl == ttl
  {
    Agreement(s, client, clientEphSk, host, timestamp, server, allowlist, skew, ttl, expectedHost, now, ephSk, sessionId,
              s.x25519Pk(server.x25519Sk));
  }

  lemma FoundWhileYoung(m: SessionMaterial, t: Table, created: real, defaultTtl: int, maxLifetime: int, clock: Clock)
    requires Reaping.ClockRuns(clock)
    ensures var session := NewSession(m, created, defaultTtl, maxLifetime);
            TableLookup(t[m.sessionId := session], m.sessionId, clock).0.Some?
            <==> Young(created, m.ttl, defaultTtl, maxLifetime, clock.check)
  {
  }

  /**
   * The client's first request on a new session is delivered as it was sealed, exactly while the session is young enough
   * and the body valid.
   */
  lemma FirstRequest(m: SessionMaterial, k: T.Keys, t: Table, created: real, defaultTtl: int, maxLifetime: int, encrypt: RawCipher,
                     log: SealLog, later: SealLog, method_: bytes, path: bytes, body: bytes, schema: bytes -> bool, clock: Clock)
    requires IsAead(encrypt) && Reaping.ClockRuns(clock) && k == T.Keys(m.sessionId, m.c2s, m.s2c)
    requires Extends(later, Seal(encrypt, log, k.c2s, 1, k.id, Upper(method_), path, body).value.1)
    ensures var request := Seal(encrypt, log, k.c2s, 1, k.id, Upper(method_), path, body).value.0;
            var stored := t[m.sessionId := NewSession(m, created, defaultTtl, maxLifetime)];
            var outcome := Router.Receive(stored, later, Router.Request(request, method_, path), schema, clock).0;
            && (outcome.Delivered? <==> Young(created, m.ttl, defaultTtl, maxLifetime, clock.check) && schema(body))
            && (outcome.Delivered? ==> outcome == Router.Delivered(k.id, 1, body))
  {
    var session := NewSession(m, created, defaultTtl, maxLifetime);
    FoundWhileYoung(m, t, created, defaultTtl, maxLifetime, clock);
    assert Accepts(session.window, 1) && session.id == m.sessionId && session.c2s == k.c2s;
    T.HonestRequestDelivered(encrypt, log, later, t[m.sessionId := session], session, 1, method_, path, body, schema, clock);
  }

  /** And the client reads back the first reply, which goes out under counter 1. */
  lemma FirstReply(m: SessionMaterial, k: T.Keys, created: real, defaultTtl: int, maxLifetime: int, encrypt: RawCipher,
                   log: SealLog, later: SealLog, method_: bytes, path: bytes, answer: bytes, parse: T.Parse)
    requires IsAead(encrypt) && k == T.Keys(m.sessionId, m.c2s, m.s2c)
    requires var session := NewSession(m, created, defaultTtl, maxLifetime);
             Extends(later, Seal(encrypt, log, session.s2c, 1, session.id, method_, path, answer).value.1)
    ensures var session := NewSession(m, created, defaultTtl, maxLifetime);
            var reply := Seal(encrypt, log, session.s2c, session.s2cCounter + 1, session.id, method_, path, answer);
            && session.s2cCounter == 0 && session.tenant == m.tenant && session.fingerprint == m.fingerprint
            && (forall scope :: scope in session.scopes <==> scope in m.scopes)
            && T.Decode(T.Response(200, T.OctetStream, reply.value.0, None), k, later, Memory({}, {}), method_, path, parse).0
               == T.Read(200, answer, parse)
  {
    T.ResponseDecoded(encrypt, log, later, k, 1, Memory({}, {}), method_, path, answer, parse);
  }
}
