/** What the session keys are made of, on both ends, and what two ends that hold the same key must agree on. */
module SessionKeys {
  import opened Bytes
  import opened Envelopes
  import opened Kdf
  import opened Transcripts
  import opened Handshake

  /** The transcript of what the server took part in. */
  function ServerTranscript(s: Suite, req: HandshakeRequest, server: Identity, expectedHost: Option<string>, ephSk: bytes,
                            sessionId: SessionId): bytes
    requires req.clientStaticPk.Some? && req.clientEphPk.Some?
  {
    Full(Base(req.clientStaticPk.value, req.clientEphPk.value, s.utf8(EffectiveHost(req.serverHost, expectedHost)), req.timestamp),
         s.x25519Pk(ephSk), s.x25519Pk(server.x25519Sk), sessionId.raw)
  }

  /** The server's keys come from its ephemeral and static secrets with the request's ephemeral and static keys. */
  lemma ServerKeys(s: Suite, req: HandshakeRequest, server: Identity, allowlist: map<bytes, AuthorizedClient>, skew: int,
                   ttl: int, expectedHost: Option<string>, now: int, ephSk: bytes, sessionId: SessionId)
    requires IsHmac(s.hmac)
    requires PerformHandshake(s, req, server, allowlist, skew, ttl, expectedHost, now, ephSk, sessionId).Ok?
    ensures var (r, m) := PerformHandshake(s, req, server, allowlist, skew, ttl, expectedHost, now, ephSk, sessionId).value;
            && req.clientStaticPk.Some? && req.clientEphPk.Some?
            && MadeFrom(s.hmac, m.c2s, m.s2c, s.dh(ephSk, req.clientEphPk.value), s.dh(server.x25519Sk, req.clientStaticPk.value),
                        ServerTranscript(s, req, server, expectedHost, ephSk, sessionId))
            && r.prefixC2s == m.c2s.noncePrefix && r.prefixS2c == m.s2c.noncePrefix
            && r.sessionId == m.sessionId == sessionId && r.ttl == m.ttl == ttl
            && req.clientStaticPk.value in allowlist
            && var entry := allowlist[req.clientStaticPk.value];
               m.fingerprint == entry.fingerprint && m.scopes == entry.scopes && m.tenant == entry.tenant
  {
    var full := ServerTranscript(s, req, server, expectedHost, ephSk, sessionId);
    SlicesPartition(Keystream(s, s.dh(ephSk, req.clientEphPk.value), s.dh(server.x25519Sk, req.clientStaticPk.value), full));
  }

  /** The client's come from its ephemeral and static secrets with the response's ephemeral and the pinned static key. */
  lemma ClientKeys(s: Suite, client: Identity, ephSk: bytes, host: string, timestamp: int, r: HandshakeResponse, pinned: bytes)
    requires IsHmac(s.hmac) && DeriveSession(s, client, ephSk, host, timestamp, r, pinned).Ok?
    ensures var o := DeriveSession(s, client, ephSk, host, timestamp, r, pinned).value;
            && MadeFrom(s.hmac, o.c2s, o.s2c, s.dh(ephSk, r.serverEphPk), s.dh(client.x25519Sk, pinned),
                        ClientTranscript(s, client, ephSk, host, timestamp, r))
            && o.sessionId == r.sessionId && o.ttl == r.ttl && o.serverStaticPk == pinned == r.serverStaticPk
  {
    SlicesPartition(Keystream(s, s.dh(ephSk, r.serverEphPk), s.dh(client.x25519Sk, r.serverStaticPk),
                              ClientTranscript(s, client, ephSk, host, timestamp, r)));
  }

  // ----- what a key binds -----

  /** The inputs of one derivation. */
  datatype Inputs = Inputs(ephemeral: bytes, static_: bytes, transcript: bytes)

  /** The extraction, and the message of the first expansion. */
  function Extracted(hmac: Hmac, i: Inputs): bytes {
    hmac(i.transcript, i.ephemeral + i.static_)
  }

  const FIRST := Ascii("secure-llm session keys v1") + [1]

  /**
   * Two different inputs of HMAC with the same output, at the very places where these two derivations use it: in the
   * extraction, or in the first block of the expansion.
   */
  predicate Collide(hmac: Hmac, a: Inputs, b: Inputs) {
    || ((a.transcript, a.ephemeral + a.static_) != (b.transcript, b.ephemeral + b.static_)
        && Extracted(hmac, a) == Extracted(hmac, b))
    || (Extracted(hmac, a) != Extracted(hmac, b)
        && hmac(Extracted(hmac, a), FIRST) == hmac(Extracted(hmac, b), FIRST))
  }

  /** The first key is the first block. */
  lemma FirstBlock(hmac: Hmac, c2s: DirectionKeys, s2c: DirectionKeys, i: Inputs)
    requires IsHmac(hmac) && i.transcript != [] && MadeFrom(hmac, c2s, s2c, i.ephemeral, i.static_, i.transcript)
    ensures c2s.key == hmac(Extracted(hmac, i), FIRST)
  {
    var prk, info := Extracted(hmac, i), Ascii("secure-llm session keys v1");
    assert Prk(hmac, i.transcript, i.ephemeral + i.static_) == prk && Blocks(72) == 3;
    OkmLength(hmac, prk, info, 3);
    assert [] + info + [1] == FIRST && T(hmac, prk, info, 0) == [] && T(hmac, prk, info, 1) == hmac(prk, FIRST);
    assert Okm(hmac, prk, info, 0) == [] && Okm(hmac, prk, info, 1) == [] + T(hmac, prk, info, 1);
    var all := Okm(hmac, prk, info, 3);
    assert all == Okm(hmac, prk, info, 1) + T(hmac, prk, info, 2) + T(hmac, prk, info, 3);
    assert c2s.key == all[..72][..32] == all[..32];
  }

  /** Equal keys are made of an equal ephemeral share, an equal static share and an equal transcript, or HMAC collides. */
  lemma KeysBind(hmac: Hmac, c2s: DirectionKeys, s2c: DirectionKeys, c2s': DirectionKeys, s2c': DirectionKeys, a: Inputs, b: Inputs)
    requires IsHmac(hmac) && a.transcript != [] && b.transcript != []
    requires |a.ephemeral| == |a.static_| == |b.ephemeral| == |b.static_| == 32
    requires MadeFrom(hmac, c2s, s2c, a.ephemeral, a.static_, a.transcript)
    requires MadeFrom(hmac, c2s', s2c', b.ephemeral, b.static_, b.transcript)
    requires c2s.key == c2s'.key
    ensures a == b || Collide(hmac, a, b)
  {
    FirstBlock(hmac, c2s, s2c, a);
    FirstBlock(hmac, c2s', s2c', b);
    if !Collide(hmac, a, b) {
      SplitEqual(a.ephemeral, a.static_, b.ephemeral, b.static_);
    }
  }

  function ServerInputs(s: Suite, req: HandshakeRequest, server: Identity, expectedHost: Option<string>, ephSk: bytes,
                        sessionId: SessionId): Inputs
    requires req.clientStaticPk.Some? && req.clientEphPk.Some?
  {
    Inputs(s.dh(ephSk, req.clientEphPk.value), s.dh(server.x25519Sk, req.clientStaticPk.value),
           ServerTranscript(s, req, server, expectedHost, ephSk, sessionId))
  }

  function ClientInputs(s: Suite, client: Identity, ephSk: bytes, host: string, timestamp: int, r: HandshakeResponse): Inputs {
    Inputs(s.dh(ephSk, r.serverEphPk), s.dh(client.x25519Sk, r.serverStaticPk),
           ClientTranscript(s, client, ephSk, host, timestamp, r))
  }

  /**
   * Whatever the network did to request and response: a server and a client that end up with the same key took part in
   * the same handshake. They have the same session id and saw the same keys, the same host and the same time.
   */
  lemma SameKeySameHandshake(s: Suite, req: HandshakeRequest, server: Identity, allowlist: map<bytes, AuthorizedClient>, skew: int,
                             ttl: int, expectedHost: Option<string>, now: int, ephSk: bytes, sessionId: SessionId,
                             client: Identity, clientEphSk: bytes, host: string, timestamp: int, r: HandshakeResponse, pinned: bytes)
    requires Lawful(s)
    requires |r.serverEphPk| == |r.serverStaticPk| == 32
    requires PerformHandshake(s, req, server, allowlist, skew, ttl, expectedHost, now, ephSk, sessionId).Ok?
    requires DeriveSession(s, client, clientEphSk, host, timestamp, r, pinned).Ok?
    requires PerformHandshake(s, req, server, allowlist, skew, ttl, expectedHost, now, ephSk, sessionId).value.1.c2s.key
             == DeriveSession(s, client, clientEphSk, host, timestamp, r, pinned).value.c2s.key
    ensures req.clientStaticPk.Some? && req.clientEphPk.Some?
    ensures || Collide(s.hmac, ServerInputs(s, req, server, expectedHost, ephSk, sessionId),
                       ClientInputs(s, client, clientEphSk, host, timestamp, r))
            || (&& req.clientStaticPk == Some(s.x25519Pk(client.x25519Sk)) && req.clientEphPk == Some(s.x25519Pk(clientEphSk))
                && EffectiveHost(req.serverHost, expectedHost) == host && req.timestamp == timestamp
                && r.serverEphPk == s.x25519Pk(ephSk) && pinned == s.x25519Pk(server.x25519Sk) && r.sessionId == sessionId)
  {
    ServerKeys(s, req, server, allowlist, skew, ttl, expectedHost, now, ephSk, sessionId);
    ClientKeys(s, client, clientEphSk, host, timestamp, r, pinned);
    var m := PerformHandshake(s, req, server, allowlist, skew, ttl, expectedHost, now, ephSk, sessionId).value.1;
    var o := DeriveSession(s, client, clientEphSk, host, timestamp, r, pinned).value;
    var a := ServerInputs(s, req, server, expectedHost, ephSk, sessionId);
    var b := ClientInputs(s, client, clientEphSk, host, timestamp, r);
    KeysBind(s.hmac, m.c2s, m.s2c, o.c2s, o.s2c, a, b);
    if a == b {
      SameTranscripts(s, req, server, expectedHost, ephSk, sessionId, client, clientEphSk, host, timestamp, r);
    }
  }

  lemma SameTranscripts(s: Suite, req: HandshakeRequest, server: Identity, expectedHost: Option<string>, ephSk: bytes,
                        sessionId: SessionId, client: Identity, clientEphSk: bytes, host: string, timestamp: int, r: HandshakeResponse)
    requires Lawful(s) && |r.serverEphPk| == |r.serverStaticPk| == 32
    requires req.clientStaticPk.Some? && req.clientEphPk.Some?
    requires |req.clientStaticPk.value| == |req.clientEphPk.value| == 32
    requires ServerTranscript(s, req, server, expectedHost, ephSk, sessionId)
             == ClientTranscript(s, client, clientEphSk, host, timestamp, r)
    ensures req.clientStaticPk.value == s.x25519Pk(client.x25519Sk) && req.clientEphPk.value == s.x25519Pk(clientEphSk)
    ensures EffectiveHost(req.serverHost, expectedHost) == host && req.timestamp == timestamp
    ensures r.serverEphPk == s.x25519Pk(ephSk) && r.serverStaticPk == s.x25519Pk(server.x25519Sk) && r.sessionId == sessionId
  {
    var cs, ce, effective := req.clientStaticPk.value, req.clientEphPk.value, EffectiveHost(req.serverHost, expectedHost);
    var base1 := Base(cs, ce, s.utf8(effective), req.timestamp);
    var base2 := Base(s.x25519Pk(client.x25519Sk), s.x25519Pk(clientEphSk), s.utf8(host), timestamp);
    FullInjective(base1, s.x25519Pk(ephSk), s.x25519Pk(server.x25519Sk), sessionId.raw, base2, r.serverEphPk, r.serverStaticPk,
                  r.sessionId.raw);
    BaseInjective(cs, ce, s.utf8(effective), req.timestamp, s.x25519Pk(client.x25519Sk), s.x25519Pk(clientEphSk), s.utf8(host),
                  timestamp);
  }
}
