/** Sealing and opening envelopes over an ideal AEAD: a log of every tuple that was ever sealed. */
module Envelopes {
  import opened Bytes
  import opened Wire

  datatype Identifier = Identifier(raw: bytes)

  type SessionId = i: Identifier | |i.raw| == SESSION_ID_BYTES witness Identifier(Zeros(SESSION_ID_BYTES))

  type Key = b: bytes | |b| == 32 witness Zeros(32)

  type NoncePrefix = b: bytes | |b| == 4 witness Zeros(4)

  const ZERO_KEY: Key := Zeros(32)

  datatype DirectionKeys = DirectionKeys(key: Key, noncePrefix: NoncePrefix)

  /** What is left of a direction once its session is closed. */
  function Zeroed(d: DirectionKeys): DirectionKeys {
    DirectionKeys(ZERO_KEY, d.noncePrefix)
  }

  /** Encryption as a function of plaintext, associated data, nonce and key (RFC 8439, section 2.8). */
  type RawCipher = (bytes, bytes, bytes, bytes) -> bytes

  ghost predicate IsAead(encrypt: RawCipher) {
    && (forall p, a, n, k :: |encrypt(p, a, n, k)| == |p| + TAG_BYTES)
    && (forall p, q, a, n, k :: encrypt(p, a, n, k) == encrypt(q, a, n, k) ==> p == q)
  }

  function TagOnly(p: bytes, a: bytes, n: bytes, k: bytes): bytes {
    p + Zeros(TAG_BYTES)
  }

  lemma TagOnlyIsAead()
    ensures IsAead(TagOnly)
  {
    forall p, q, a, n, k | TagOnly(p, a, n, k) == TagOnly(q, a, n, k)
      ensures p == q
    {
      var tag: bytes := Zeros(TAG_BYTES);
      assert |p| == |TagOnly(p, a, n, k)| - TAG_BYTES == |q|;
      SplitEqual(p, tag, q, tag);
    }
  }

  datatype Query = Query(key: Key, nonce: bytes, aad: bytes, ciphertext: bytes)

  /** The plaintext behind every ciphertext some holder of the key has produced. */
  type SealLog = map<Query, bytes>

  ghost predicate Consistent(encrypt: RawCipher, log: SealLog) {
    forall q :: q in log ==> q.ciphertext == encrypt(log[q], q.aad, q.nonce, q.key)
  }

  /** A later log, which still has every earlier entry. */
  predicate Extends(later: SealLog, log: SealLog) {
    forall q :: q in log ==> q in later && later[q] == log[q]
  }

  datatype SealError = NonceCounterOutOfRange

  function NonceFor(direction: DirectionKeys, counter: nat): (nonce: bytes)
    requires counter < COUNTER_LIMIT
    ensures |nonce| == NONCE_BYTES
  {
    direction.noncePrefix + Counter8(counter)
  }

  lemma NonceForInjective(direction: DirectionKeys, a: nat, b: nat)
    requires a < COUNTER_LIMIT && b < COUNTER_LIMIT
    requires NonceFor(direction, a) == NonceFor(direction, b)
    ensures a == b
  {
    SplitEqual(direction.noncePrefix, Counter8(a), direction.noncePrefix, Counter8(b));
    Counter8Injective(a, b);
  }

  /** The tuple one seal adds to the log. */
  /** The nonce is the direction's prefix, then the big-endian counter. */
  lemma NonceLayout(direction: DirectionKeys, counter: nat)
    requires counter < COUNTER_LIMIT
    ensures var n := NonceFor(direction, counter);
            |n| == 12 && n[..4] == direction.noncePrefix && FromBytes(n[4..]) == counter
  {
    CounterWidth();
    FromToBytes(counter, 8);
    assert NonceFor(direction, counter)[4..] == Counter8(counter);
  }

  function SealQuery(encrypt: RawCipher, direction: DirectionKeys, counter: nat, sessionId: SessionId,
                     method_: bytes, path: bytes, plaintext: bytes): Query
    requires counter < COUNTER_LIMIT
  {
    var nonce := NonceFor(direction, counter);
    var aad := BuildAad(method_, path, sessionId.raw, counter);
    Query(direction.key, nonce, aad, encrypt(plaintext, aad, nonce, direction.key))
  }

  /** Frame and log one envelope; a counter past 64 bits is refused before anything is encrypted. */
  function Seal(encrypt: RawCipher, log: SealLog, direction: DirectionKeys, counter: int, sessionId: SessionId,
                method_: bytes, path: bytes, plaintext: bytes): Result<(bytes, SealLog), SealError>
  {
    if counter < 0 || counter >= COUNTER_LIMIT then Err(NonceCounterOutOfRange)
    else
      var q := SealQuery(encrypt, direction, counter, sessionId, method_, path, plaintext);
      Ok((Pack(sessionId.raw, counter, q.nonce, q.ciphertext).value, log[q := plaintext]))
  }

  datatype AuthError = NotAuthentic

  /** Unframe and decrypt; every failure reads the same to the caller. */
  function Open(log: SealLog, direction: DirectionKeys, expected: SessionId,
                method_: bytes, path: bytes, body: bytes): Result<(Envelope, bytes), AuthError>
  {
    match Unpack(body)
    case Err(_) => Err(NotAuthentic)
    case Ok(env) =>
      if env.sessionId != expected.raw then Err(NotAuthentic)
      else
        CounterWidth();
        var q := Query(direction.key, env.nonce, BuildAad(method_, path, env.sessionId, env.counter), env.ciphertext);
        if q in log then Ok((env, log[q])) else Err(NotAuthentic)
  }

  /** Sealing never changes what an earlier ciphertext opens to, and the log stays consistent. */
  lemma SealExtendsLog(encrypt: RawCipher, log: SealLog, direction: DirectionKeys, counter: int, sessionId: SessionId,
                       method_: bytes, path: bytes, plaintext: bytes)
    requires IsAead(encrypt) && Consistent(encrypt, log)
    requires 0 <= counter < COUNTER_LIMIT
    ensures var log' := Seal(encrypt, log, direction, counter, sessionId, method_, path, plaintext).value.1;
            && Consistent(encrypt, log')
            && log.Keys <= log'.Keys
            && forall q :: q in log ==> log'[q] == log[q]
  {
    var q := SealQuery(encrypt, direction, counter, sessionId, method_, path, plaintext);
    if q in log {
      assert encrypt(log[q], q.aad, q.nonce, q.key) == encrypt(plaintext, q.aad, q.nonce, q.key);
    }
  }

  /** Both twins interoperate: what one side seals the other opens, in the same context and under any later log. */
  lemma SealThenOpen(encrypt: RawCipher, log: SealLog, later: SealLog, direction: DirectionKeys, counter: int,
                     sessionId: SessionId, method_: bytes, path: bytes, plaintext: bytes)
    requires IsAead(encrypt)
    requires 0 <= counter < COUNTER_LIMIT
    requires var log' := Seal(encrypt, log, direction, counter, sessionId, method_, path, plaintext).value.1;
             forall q :: q in log' ==> q in later && later[q] == log'[q]
    ensures var q := SealQuery(encrypt, direction, counter, sessionId, method_, path, plaintext);
            Open(later, direction, sessionId, method_, path,
                 Seal(encrypt, log, direction, counter, sessionId, method_, path, plaintext).value.0)
            == Ok((Envelope(sessionId.raw, counter, q.nonce, q.ciphertext), plaintext))
  {
    var q := SealQuery(encrypt, direction, counter, sessionId, method_, path, plaintext);
    PackThenUnpack(sessionId.raw, counter, q.nonce, q.ciphertext);
  }

  /** An envelope that opens was sealed under that key with that session, counter and context. */
  lemma OpenIsLogged(log: SealLog, direction: DirectionKeys, expected: SessionId,
                     method_: bytes, path: bytes, body: bytes)
    requires Open(log, direction, expected, method_, path, body).Ok?
    ensures var (env, plaintext) := Open(log, direction, expected, method_, path, body).value;
            && env.counter < COUNTER_LIMIT
            && exists q :: q in log && log[q] == plaintext && q.key == direction.key
                           && q.aad == BuildAad(method_, path, expected.raw, env.counter)
  {
    var env := Unpack(body).value;
    CounterWidth();
    var q := Query(direction.key, env.nonce, BuildAad(method_, path, env.sessionId, env.counter), env.ciphertext);
    assert q in log;
  }
}
