/** Both ends of the handshake over abstract primitives: what the server accepts and what the two sides share. */
module Handshake {
  import opened Bytes
  import opened Envelopes
  import opened Kdf
  import opened Sessions
  import opened Transcripts

  const PROTOCOL_VERSION: string := "1.0"
  const SESSION_INFO: string := "secure-llm session keys v1"
  const KEYSTREAM_LENGTH: int := 72

  /** X25519 (section 6.1 of RFC 7748), Ed25519, HMAC-SHA-256 and UTF-8 as functions of their inputs. */
  datatype Suite = Suite(
    x25519Pk: bytes -> bytes,
    dh: (bytes, bytes) -> bytes,
    ed25519Pk: bytes -> bytes,
    sign: (bytes, bytes) -> bytes,
    verify: (bytes, bytes, bytes) -> bool,
    hmac: Hmac,
    utf8: string -> bytes)

  /** Public keys and shares are 32 bytes, the exchange commutes, a signature verifies under its own key and message alone. */
  ghost predicate Lawful(s: Suite) {
    && (forall sk :: |s.x25519Pk(sk)| == 32)
    && (forall a, b :: |s.dh(a, b)| == 32 && s.dh(a, s.x25519Pk(b)) == s.dh(b, s.x25519Pk(a)))
    && (forall pk, m, sk, n :: s.verify(pk, m, s.sign(sk, n)) <==> pk == s.ed25519Pk(sk) && m == n)
    && IsHmac(s.hmac)
    && (forall a, b :: s.utf8(a) == s.utf8(b) ==> a == b)
  }

  /** A signature that verifies was made with the secret of its key. */
  ghost predicate Unforgeable(s: Suite) {
    forall pk, m, sig :: s.verify(pk, m, sig) ==> exists sk :: s.ed25519Pk(sk) == pk && s.sign(sk, m) == sig
  }

  /** The secret halves of an identity; both sides hold one. */
  datatype Identity = Identity(x25519Sk: bytes, ed25519Sk: bytes)

  datatype AuthorizedClient = AuthorizedClient(
    ed25519Pk: bytes,
    revoked: bool,
    notBefore: Option<int>,
    notAfter: Option<int>,
    fingerprint: string,
    scopes: seq<string>,
    tenant: string)

  /** Base64 fields are read as their bytes, or None when they do not decode. */
  datatype HandshakeRequest = HandshakeRequest(
    protocol: string,
    clientStaticPk: Option<bytes>,
    clientEphPk: Option<bytes>,
    timestamp: int,
    transcriptSig: Option<bytes>,
    serverHost: Option<string>)

  datatype HandshakeResponse = HandshakeResponse(
    sessionId: SessionId,
    serverStaticPk: bytes,
    serverEd25519Pk: bytes,
    serverEphPk: bytes,
    ttl: int,
    serverSig: bytes,
    prefixC2s: NoncePrefix,
    prefixS2c: NoncePrefix)

  datatype HandshakeError =
    | VersionMismatch
    | ClockSkew
    | BadRequest
    | UnknownClient
    | ClientRevoked
    | ClientNotYetValid
    | ClientExpired
    | BadSignature

  /** `(req.server_host or expected_host or "").strip()`; an empty host reads as absent. */
  function EffectiveHost(requested: Option<string>, expected: Option<string>): string {
    Strip(if requested.Some? && requested.value != [] then requested.value
          else if expected.Some? then expected.value else [])
  }

  /** The 72 octets of key material: two keys, then two prefixes. */
  ghost function Keystream(s: Suite, dh1: bytes, dh2: bytes, transcript: bytes): (k: bytes)
    requires IsHmac(s.hmac)
    ensures |k| == KEYSTREAM_LENGTH
  {
    OkmLength(s.hmac, Prk(s.hmac, transcript, dh1 + dh2), Ascii(SESSION_INFO), Blocks(KEYSTREAM_LENGTH));
    Rfc5869(s.hmac, dh1 + dh2, transcript, Ascii(SESSION_INFO), KEYSTREAM_LENGTH).value
  }

  function C2s(keystream: bytes): DirectionKeys
    requires |keystream| == KEYSTREAM_LENGTH
  {
    DirectionKeys(keystream[0..32], keystream[64..68])
  }

  function S2c(keystream: bytes): DirectionKeys
    requires |keystream| == KEYSTREAM_LENGTH
  {
    DirectionKeys(keystream[32..64], keystream[68..72])
  }

  /** The four parts are disjoint slices that together make up the key material. */
  lemma SlicesPartition(keystream: bytes)
    requires |keystream| == KEYSTREAM_LENGTH
    ensures keystream == C2s(keystream).key + S2c(keystream).key + C2s(keystream).noncePrefix + S2c(keystream).noncePrefix
  {
  }

  /** The keys and prefixes, in order, are the HKDF output of the ephemeral share, then the static share, salted. */
  ghost predicate MadeFrom(hmac: Hmac, c2s: DirectionKeys, s2c: DirectionKeys, ephemeral: bytes, static_: bytes, transcript: bytes)
    requires IsHmac(hmac)
  {
    && |c2s.key| == |s2c.key| == 32 && |c2s.noncePrefix| == |s2c.noncePrefix| == 4
    && Rfc5869(hmac, ephemeral + static_, transcript, Ascii("secure-llm session keys v1"), 72)
       == Ok(c2s.key + s2c.key + c2s.noncePrefix + s2c.noncePrefix)
  }

  /** The guards in the source's order, up to the signature. */
  function Vet(s: Suite, req: HandshakeRequest, allowlist: map<bytes, AuthorizedClient>, skew: int,
               expectedHost: Option<string>, now: int): Result<AuthorizedClient, HandshakeError>
  {
    if req.protocol != PROTOCOL_VERSION && req.protocol != LABEL then Err(VersionMismatch)
    else if (if now < req.timestamp then req.timestamp - now else now - req.timestamp) > skew then Err(ClockSkew)
    else if req.clientStaticPk.None? || req.clientEphPk.None? || req.transcriptSig.None? then Err(BadRequest)
    else if |req.clientStaticPk.value| != 32 || |req.clientEphPk.value| != 32 then Err(BadRequest)
    else if req.clientStaticPk.value !in allowlist then Err(UnknownClient)
    else
      var entry := allowlist[req.clientStaticPk.value];
      if entry.revoked then Err(ClientRevoked)
      else if entry.notBefore.Some? && now < entry.notBefore.value then Err(ClientNotYetValid)
      else if entry.notAfter.Some? && now > entry.notAfter.value then Err(ClientExpired)
      else if !s.verify(entry.ed25519Pk,
                        Base(req.clientStaticPk.value, req.clientEphPk.value,
                             s.utf8(EffectiveHost(req.serverHost, expectedHost)), req.timestamp),
                        req.transcriptSig.value) then Err(BadSignature)
      else Ok(entry)
  }

  /** The server's handshake; the ephemeral secret and the session id are its random choices. */
  ghost function PerformHandshake(s: Suite, req: HandshakeRequest, server: Identity,
                                  allowlist: map<bytes, AuthorizedClient>, skew: int, ttl: int,
                                  expectedHost: Option<string>, now: int, ephSk: bytes, sessionId: SessionId)
    : Result<(HandshakeResponse, SessionMaterial), HandshakeError>
    requires IsHmac(s.hmac)
  {
    match Vet(s, req, allowlist, skew, expectedHost, now)
    case Err(e) => Err(e)
    case Ok(entry) =>
      var base := Base(req.clientStaticPk.value, req.clientEphPk.value,
                       s.utf8(EffectiveHost(req.serverHost, expectedHost)), req.timestamp);
      var full := Full(base, s.x25519Pk(ephSk), s.x25519Pk(server.x25519Sk), sessionId.raw);
      var k := Keystream(s, s.dh(ephSk, req.clientEphPk.value), s.dh(server.x25519Sk, req.clientStaticPk.value), full);
      Ok((HandshakeResponse(sessionId, s.x25519Pk(server.x25519Sk), s.ed25519Pk(server.ed25519Sk), s.x25519Pk(ephSk),
                            ttl, s.sign(server.ed25519Sk, full), C2s(k).noncePrefix, S2c(k).noncePrefix),
          SessionMaterial(sessionId, C2s(k), S2c(k), ttl, entry.fingerprint, entry.scopes, entry.tenant)))
  }

  /** The client's request for a host, at a given time. */
  function BuildRequest(s: Suite, client: Identity, host: string, ephPk: bytes, timestamp: int): HandshakeRequest {
    HandshakeRequest(PROTOCOL_VERSION, Some(s.x25519Pk(client.x25519Sk)), Some(ephPk), timestamp,
                     Some(s.sign(client.ed25519Sk, Base(s.x25519Pk(client.x25519Sk), ephPk, s.utf8(host), timestamp))),
                     Some(host))
  }

  datatype HandshakeOutcome = HandshakeOutcome(sessionId: SessionId, c2s: DirectionKeys, s2c: DirectionKeys, ttl: int,
                                               serverStaticPk: bytes)

  datatype ClientError = ServerKeyMismatch | ServerSignatureInvalid | PrefixMismatch

  /** The client's derivation; the host is used as given, without stripping. */
  ghost function DeriveSession(s: Suite, client: Identity, ephSk: bytes, host: string, timestamp: int,
                               r: HandshakeResponse, pinned: bytes): Result<HandshakeOutcome, ClientError>
    requires IsHmac(s.hmac)
  {
    if r.serverStaticPk != pinned then Err(ServerKeyMismatch)
    else
      var base := Base(s.x25519Pk(client.x25519Sk), s.x25519Pk(ephSk), s.utf8(host), timestamp);
      var full := Full(base, r.serverEphPk, r.serverStaticPk, r.sessionId.raw);
      if !s.verify(r.serverEd25519Pk, full, r.serverSig) then Err(ServerSignatureInvalid)
      else
        var k := Keystream(s, s.dh(ephSk, r.serverEphPk), s.dh(client.x25519Sk, r.serverStaticPk), full);
        if C2s(k).noncePrefix != r.prefixC2s || S2c(k).noncePrefix != r.prefixS2c then Err(PrefixMismatch)
        else Ok(HandshakeOutcome(r.sessionId, C2s(k), S2c(k), r.ttl, r.serverStaticPk))
  }

  /** An entry that admits its client at this time. */
  predicate Current(entry: AuthorizedClient, now: int) {
    && !entry.revoked
    && (entry.notBefore.Some? ==> entry.notBefore.value <= now)
    && (entry.notAfter.Some? ==> now <= entry.notAfter.value)
  }

  /** The host has no white space at its ends; an empty one is replaced by what the server expects, which must be blank. */
  predicate HostSurvives(host: string, expectedHost: Option<string>) {
    if host == [] then expectedHost.None? || AllSpace(expectedHost.value)
    else !IsSpace(host[0]) && !IsSpace(host[|host| - 1])
  }

  lemma SurvivesIff(host: string, expectedHost: Option<string>)
    ensures EffectiveHost(Some(host), expectedHost) == host <==> HostSurvives(host, expectedHost)
  {
    StripNothing(host);
    if expectedHost.Some? {
      StripNothing(expectedHost.value);
    }
  }

  /** Exactly when an honest request is accepted; the host must come out of the server's stripping unchanged. */
  lemma HonestRequestAccepted(s: Suite, client: Identity, clientEphSk: bytes, host: string, timestamp: int,
                              server: Identity, allowlist: map<bytes, AuthorizedClient>, skew: int, ttl: int,
                              expectedHost: Option<string>, now: int, ephSk: bytes, sessionId: SessionId)
    requires Lawful(s)
    ensures var pk := s.x25519Pk(client.x25519Sk);
            PerformHandshake(s, BuildRequest(s, client, host, s.x25519Pk(clientEphSk), timestamp), server, allowlist,
                             skew, ttl, expectedHost, now, ephSk, sessionId).Ok?
            <==> && now - skew <= timestamp <= now + skew
                 && pk in allowlist && Current(allowlist[pk], now)
                 && allowlist[pk].ed25519Pk == s.ed25519Pk(client.ed25519Sk)
                 && HostSurvives(host, expectedHost)
  {
    SurvivesIff(host, expectedHost);
    var pk, ephPk := s.x25519Pk(client.x25519Sk), s.x25519Pk(clientEphSk);
    var effective := EffectiveHost(Some(host), expectedHost);
    if s.utf8(effective) != s.utf8(host)
       && Base(pk, ephPk, s.utf8(effective), timestamp) == Base(pk, ephPk, s.utf8(host), timestamp) {
      BaseInjective(pk, ephPk, s.utf8(effective), timestamp, pk, ephPk, s.utf8(host), timestamp);
      assert false;
    }
  }

  /** Why an honest request is refused: each error has one cause, and the first one counts. */
  lemma HonestRefusals(s: Suite, client: Identity, clientEphSk: bytes, host: string, timestamp: int,
                       server: Identity, allowlist: map<bytes, AuthorizedClient>, skew: int, ttl: int,
                       expectedHost: Option<string>, now: int, ephSk: bytes, sessionId: SessionId)
    requires Lawful(s)
    ensures var r := PerformHandshake(s, BuildRequest(s, client, host, s.x25519Pk(clientEphSk), timestamp), server, allowlist,
                                      skew, ttl, expectedHost, now, ephSk, sessionId);
            var pk := s.x25519Pk(client.x25519Sk);
            r.Err? ==>
              && (r.error == ClockSkew <==> !(now - skew <= timestamp <= now + skew))
              && (r.error == UnknownClient ==> pk !in allowlist) && (r.error == ClientRevoked ==> pk in allowlist && allowlist[pk].revoked)
              && (r.error == ClientNotYetValid ==> pk in allowlist && allowlist[pk].notBefore.Some? && now < allowlist[pk].notBefore.value)
              && (r.error == ClientExpired ==> pk in allowlist && allowlist[pk].notAfter.Some? && allowlist[pk].notAfter.value < now)
              && (r.error == BadSignature ==>
                    pk in allowlist && Current(allowlist[pk], now)
                    && (allowlist[pk].ed25519Pk != s.ed25519Pk(client.ed25519Sk) || !HostSurvives(host, expectedHost)))
              && r.error != VersionMismatch && r.error != BadRequest
  {
    HonestRequestAccepted(s, client, clientEphSk, host, timestamp, server, allowlist, skew, ttl, expectedHost, now, ephSk, sessionId);
  }

  /** Whatever honest request the server accepts, the client completes the handshake exactly when the pin matches,
      and then both sides hold the same session id, keys and prefixes. */
  lemma Agreement(s: Suite, client: Identity, clientEphSk: bytes, host: string, timestamp: int,
                  server: Identity, allowlist: map<bytes, AuthorizedClient>, skew: int, ttl: int,
                  expectedHost: Option<string>, now: int, ephSk: bytes, sessionId: SessionId, pinned: bytes)
    requires Lawful(s)
    requires PerformHandshake(s, BuildRequest(s, client, host, s.x25519Pk(clientEphSk), timestamp), server, allowlist,
                              skew, ttl, expectedHost, now, ephSk, sessionId).Ok?
    ensures var (response, material) :=
              PerformHandshake(s, BuildRequest(s, client, host, s.x25519Pk(clientEphSk), timestamp), server, allowlist,
                               skew, ttl, expectedHost, now, ephSk, sessionId).value;
            var outcome := DeriveSession(s, client, clientEphSk, host, timestamp, response, pinned);
            && (outcome.Ok? <==> pinned == s.x25519Pk(server.x25519Sk))
            && (outcome.Ok? ==>
                  && outcome.value.sessionId == material.sessionId == sessionId
                  && outcome.value.c2s == material.c2s && outcome.value.s2c == material.s2c
                  && outcome.value.ttl == material.ttl == ttl
                  && MadeFrom(s.hmac, material.c2s, material.s2c, s.dh(clientEphSk, s.x25519Pk(ephSk)),
                              s.dh(client.x25519Sk, s.x25519Pk(server.x25519Sk)),
                              ClientTranscript(s, client, clientEphSk, host, timestamp, response)))
  {
    HonestRequestAccepted(s, client, clientEphSk, host, timestamp, server, allowlist, skew, ttl, expectedHost, now,
                          ephSk, sessionId);
    var full := Full(Base(s.x25519Pk(client.x25519Sk), s.x25519Pk(clientEphSk), s.utf8(host), timestamp), s.x25519Pk(ephSk),
                     s.x25519Pk(server.x25519Sk), sessionId.raw);
    SlicesPartition(Keystream(s, s.dh(clientEphSk, s.x25519Pk(ephSk)), s.dh(client.x25519Sk, s.x25519Pk(server.x25519Sk)), full));
    SurvivesIff(host, expectedHost);
  }

  /**
   * Exactly which requests are accepted: the version is known, the timestamp within the skew, both keys have 32 bytes,
   * the client is listed and current, and its signing secret made the signature over just these fields.
   */
  lemma AcceptedIsSigned(s: Suite, req: HandshakeRequest, server: Identity, allowlist: map<bytes, AuthorizedClient>,
                         skew: int, ttl: int, expectedHost: Option<string>, now: int, ephSk: bytes, sessionId: SessionId)
    requires Lawful(s) && Unforgeable(s)
    ensures PerformHandshake(s, req, server, allowlist, skew, ttl, expectedHost, now, ephSk, sessionId).Ok?
            <==> && (req.protocol == PROTOCOL_VERSION || req.protocol == LABEL) && now - skew <= req.timestamp <= now + skew
                 && req.clientStaticPk.Some? && |req.clientStaticPk.value| == 32
                 && req.clientEphPk.Some? && |req.clientEphPk.value| == 32
                 && req.clientStaticPk.value in allowlist && Current(allowlist[req.clientStaticPk.value], now)
                 && exists signer :: SignedBy(s, signer, req, allowlist[req.clientStaticPk.value], expectedHost)
  {
    if req.clientStaticPk.Some? && req.clientEphPk.Some? && req.transcriptSig.Some? && req.clientStaticPk.value in allowlist {
      var entry := allowlist[req.clientStaticPk.value];
      var signed := Base(req.clientStaticPk.value, req.clientEphPk.value,
                         s.utf8(EffectiveHost(req.serverHost, expectedHost)), req.timestamp);
      if s.verify(entry.ed25519Pk, signed, req.transcriptSig.value) {
        var signer :| s.ed25519Pk(signer) == entry.ed25519Pk && s.sign(signer, signed) == req.transcriptSig.value;
        assert SignedBy(s, signer, req, entry, expectedHost);
      }
    }
  }

  /** The request's signature is that of the entry's secret over the request's own keys, effective host and timestamp. */
  predicate SignedBy(s: Suite, signer: bytes, req: HandshakeRequest, entry: AuthorizedClient, expectedHost: Option<string>) {
    && req.clientStaticPk.Some? && req.clientEphPk.Some?
    && s.ed25519Pk(signer) == entry.ed25519Pk
    && req.transcriptSig == Some(s.sign(signer, Base(req.clientStaticPk.value, req.clientEphPk.value,
                                                     s.utf8(EffectiveHost(req.serverHost, expectedHost)), req.timestamp)))
  }

  /** A signature carries over to no other request: whatever the network changes, an accepted request has the
      signed keys and timestamp, and its host reads as the signed one. */
  lemma SignatureBindsFields(s: Suite, req: HandshakeRequest, server: Identity, allowlist: map<bytes, AuthorizedClient>,
                             skew: int, ttl: int, expectedHost: Option<string>, now: int, ephSk: bytes, sessionId: SessionId,
                             signer: bytes, staticPk: bytes, ephPk: bytes, host: string, timestamp: int)
    requires Lawful(s) && |staticPk| == |ephPk| == 32
    requires req.transcriptSig == Some(s.sign(signer, Base(staticPk, ephPk, s.utf8(host), timestamp)))
    requires PerformHandshake(s, req, server, allowlist, skew, ttl, expectedHost, now, ephSk, sessionId).Ok?
    ensures req.clientStaticPk == Some(staticPk) && req.clientEphPk == Some(ephPk) && req.timestamp == timestamp
    ensures EffectiveHost(req.serverHost, expectedHost) == host
    ensures staticPk in allowlist && allowlist[staticPk].ed25519Pk == s.ed25519Pk(signer) && Current(allowlist[staticPk], now)
  {
    BaseInjective(req.clientStaticPk.value, req.clientEphPk.value, s.utf8(EffectiveHost(req.serverHost, expectedHost)),
                  req.timestamp, staticPk, ephPk, s.utf8(host), timestamp);
  }

  // ----- what the client learns about the server -----

  /** The transcript as the client rebuilds it for a response. */
  function ClientTranscript(s: Suite, client: Identity, ephSk: bytes, host: string, timestamp: int, r: HandshakeResponse): bytes {
    Full(Base(s.x25519Pk(client.x25519Sk), s.x25519Pk(ephSk), s.utf8(host), timestamp), r.serverEphPk, r.serverStaticPk,
         r.sessionId.raw)
  }

  /** The response carries the nonce prefixes that the client derives. */
  ghost predicate PrefixesMatch(s: Suite, client: Identity, ephSk: bytes, host: string, timestamp: int, r: HandshakeResponse)
    requires IsHmac(s.hmac)
  {
    var k := Keystream(s, s.dh(ephSk, r.serverEphPk), s.dh(client.x25519Sk, r.serverStaticPk),
                       ClientTranscript(s, client, ephSk, host, timestamp, r));
    C2s(k).noncePrefix == r.prefixC2s && S2c(k).noncePrefix == r.prefixS2c
  }

  /**
   * Exactly which responses the client accepts: the pinned key, matching prefixes, and a signature by whatever signing
   * key the response itself names.
   */
  lemma ResponseAccepted(s: Suite, client: Identity, ephSk: bytes, host: string, timestamp: int, r: HandshakeResponse,
                         pinned: bytes)
    requires Lawful(s) && Unforgeable(s)
    ensures DeriveSession(s, client, ephSk, host, timestamp, r, pinned).Ok?
            <==> && r.serverStaticPk == pinned && PrefixesMatch(s, client, ephSk, host, timestamp, r)
                 && exists signer :: s.ed25519Pk(signer) == r.serverEd25519Pk
                                     && s.sign(signer, ClientTranscript(s, client, ephSk, host, timestamp, r)) == r.serverSig
  {
    var t := ClientTranscript(s, client, ephSk, host, timestamp, r);
    if signer :| s.ed25519Pk(signer) == r.serverEd25519Pk && s.sign(signer, t) == r.serverSig {
      assert s.verify(r.serverEd25519Pk, t, s.sign(signer, t));
    }
  }

  /** So the signature does not say who the server is: any signing key can stand in for the server's, with equal keys. */
  lemma AnySignerAccepted(s: Suite, client: Identity, ephSk: bytes, host: string, timestamp: int, r: HandshakeResponse,
                          pinned: bytes, signer: bytes)
    requires Lawful(s) && DeriveSession(s, client, ephSk, host, timestamp, r, pinned).Ok?
    ensures var t := ClientTranscript(s, client, ephSk, host, timestamp, r);
            DeriveSession(s, client, ephSk, host, timestamp,
                          r.(serverEd25519Pk := s.ed25519Pk(signer), serverSig := s.sign(signer, t)), pinned)
            == DeriveSession(s, client, ephSk, host, timestamp, r, pinned)
  {
  }

  /** The response that follows from the client's static secret and public values, with any ephemeral and signing secrets. */
  ghost function ResponseFrom(s: Suite, client: Identity, ephPk: bytes, host: string, timestamp: int, serverPk: bytes,
                              eph2: bytes, signer: bytes, sessionId: SessionId, ttl: int): (HandshakeResponse, bytes)
    requires IsHmac(s.hmac)
  {
    var full := Full(Base(s.x25519Pk(client.x25519Sk), ephPk, s.utf8(host), timestamp), s.x25519Pk(eph2), serverPk, sessionId.raw);
    var k := Keystream(s, s.dh(eph2, ephPk), s.dh(client.x25519Sk, serverPk), full);
    (HandshakeResponse(sessionId, serverPk, s.ed25519Pk(signer), s.x25519Pk(eph2), ttl, s.sign(signer, full),
                       C2s(k).noncePrefix, S2c(k).noncePrefix), k)
  }

  /**
   * Nor does the key exchange, once the client's static secret is known: the response that follows from it and from the
   * server's public key is accepted, and its maker has the session's keys without any secret of the server.
   */
  lemma ClientSecretSuffices(s: Suite, client: Identity, ephSk: bytes, host: string, timestamp: int, serverPk: bytes,
                             eph2: bytes, signer: bytes, sessionId: SessionId, ttl: int)
    requires Lawful(s)
    ensures var (r, k) := ResponseFrom(s, client, s.x25519Pk(ephSk), host, timestamp, serverPk, eph2, signer, sessionId, ttl);
            var o := DeriveSession(s, client, ephSk, host, timestamp, r, serverPk);
            o.Ok? && o.value.sessionId == sessionId && o.value.c2s == C2s(k) && o.value.s2c == S2c(k)
  {
    assert s.dh(ephSk, s.x25519Pk(eph2)) == s.dh(eph2, s.x25519Pk(ephSk));
  }
}
