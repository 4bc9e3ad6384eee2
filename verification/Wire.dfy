/** Envelope framing and the associated data that binds an envelope to its HTTP context. */
module Wire {
  import opened Bytes

  const MAGIC: bytes := [83, 76, 76, 77]  // "SLLM"
  const VERSION: byte := 1
  const SESSION_ID_BYTES: nat := 16
  const NONCE_BYTES: nat := 12
  const TAG_BYTES: nat := 16
  const HEADER_SIZE: nat := 41
  const BAR: byte := 124

  datatype Envelope = Envelope(sessionId: bytes, counter: nat, nonce: bytes, ciphertext: bytes)

  datatype FrameError = BadSessionId | BadNonce | CounterOutOfRange | TooShort | BadMagic | BadVersion

  function Pack(sessionId: bytes, counter: int, nonce: bytes, ciphertext: bytes): Result<bytes, FrameError> {
    if |sessionId| != SESSION_ID_BYTES then Err(BadSessionId)
    else if |nonce| != NONCE_BYTES then Err(BadNonce)
    else if counter < 0 || counter >= COUNTER_LIMIT then Err(CounterOutOfRange)
    else Ok(MAGIC + [VERSION] + sessionId + Counter8(counter) + nonce + ciphertext)
  }

  function Unpack(buf: bytes): (r: Result<Envelope, FrameError>)
    ensures r.Ok? ==> |r.value.sessionId| == SESSION_ID_BYTES && r.value.counter < COUNTER_LIMIT
  {
    CounterWidth();
    if |buf| < HEADER_SIZE + TAG_BYTES then Err(TooShort)
    else if buf[..4] != MAGIC then Err(BadMagic)
    else if buf[4] != VERSION then Err(BadVersion)
    else Ok(Envelope(buf[5..21], FromBytes(buf[21..29]), buf[29..41], buf[41..]))
  }

  /** The parser as it runs, one cursor moving over the buffer. */
  method UnpackEnvelope(buf: bytes) returns (r: Result<Envelope, FrameError>)
    ensures r == Unpack(buf)
    ensures r.Ok? <==>
            exists e: Envelope :: |e.ciphertext| >= TAG_BYTES && Pack(e.sessionId, e.counter, e.nonce, e.ciphertext) == Ok(buf)
  {
    UnpackAccepts(buf);
    if |buf| < HEADER_SIZE + TAG_BYTES {
      return Err(TooShort);
    }
    if !(MAGIC <= buf) {
      return Err(BadMagic);
    }
    var pos := |MAGIC|;
    if buf[pos] != VERSION {
      return Err(BadVersion);
    }
    pos := pos + 1;
    var sessionId := buf[pos..pos + SESSION_ID_BYTES];
    pos := pos + SESSION_ID_BYTES;
    var counter := FromBytes(buf[pos..pos + 8]);
    pos := pos + 8;
    var nonce := buf[pos..pos + NONCE_BYTES];
    pos := pos + NONCE_BYTES;
    var ciphertext := buf[pos..];
    return Ok(Envelope(sessionId, counter, nonce, ciphertext));
  }

  /** What packs, and where each part stands: magic, version, session, big-endian counter, nonce, ciphertext. */
  lemma PackLayout(sessionId: bytes, counter: int, nonce: bytes, ciphertext: bytes)
    ensures var r := Pack(sessionId, counter, nonce, ciphertext);
            && (r.Ok? <==> |sessionId| == 16 && |nonce| == 12 && 0 <= counter < 0x1_0000_0000_0000_0000)
            && (r.Ok? ==>
                  var b := r.value;
                  && |b| == 41 + |ciphertext| && b[0..4] == Ascii("SLLM") && b[4] == 1 && b[5..21] == sessionId
                  && FromBytes(b[21..29]) == counter && b[29..41] == nonce && b[41..] == ciphertext)
  {
    if Pack(sessionId, counter, nonce, ciphertext).Ok? {
      var b := Pack(sessionId, counter, nonce, ciphertext).value;
      CounterWidth();
      FromToBytes(counter, 8);
      assert b[21..29] == Counter8(counter);
      assert MAGIC == Ascii("SLLM");
    }
  }

  /** `unpack(pack(x)) == x` for every envelope that packs and carries at least a tag. */
  lemma PackThenUnpack(sessionId: bytes, counter: int, nonce: bytes, ciphertext: bytes)
    requires Pack(sessionId, counter, nonce, ciphertext).Ok?
    ensures |ciphertext| >= TAG_BYTES ==>
              Unpack(Pack(sessionId, counter, nonce, ciphertext).value) == Ok(Envelope(sessionId, counter, nonce, ciphertext))
    ensures |ciphertext| < TAG_BYTES ==>
              Unpack(Pack(sessionId, counter, nonce, ciphertext).value) == Err(TooShort)
  {
    var buf := Pack(sessionId, counter, nonce, ciphertext).value;
    CounterWidth();
    FromToBytes(counter, 8);
    if |ciphertext| >= TAG_BYTES {
      assert buf[..4] == MAGIC;
      assert buf[5..21] == sessionId;
      assert buf[21..29] == Counter8(counter);
      assert buf[29..41] == nonce;
      assert buf[41..] == ciphertext;
    }
  }

  /** `pack(unpack(buf)) == buf` for every buffer that parses. */
  lemma UnpackThenPack(buf: bytes)
    requires Unpack(buf).Ok?
    ensures var e := Unpack(buf).value;
            && |e.ciphertext| >= TAG_BYTES
            && Pack(e.sessionId, e.counter, e.nonce, e.ciphertext) == Ok(buf)
  {
    CounterWidth();
    ToFromBytes(buf[21..29]);
    assert buf == buf[..4] + [buf[4]] + buf[5..21] + buf[21..29] + buf[29..41] + buf[41..];
  }

  /** A buffer parses exactly when it is the packed form of some envelope with a full tag. */
  lemma UnpackAccepts(buf: bytes)
    ensures Unpack(buf).Ok? <==>
            exists e: Envelope :: |e.ciphertext| >= TAG_BYTES && Pack(e.sessionId, e.counter, e.nonce, e.ciphertext) == Ok(buf)
  {
    if Unpack(buf).Ok? {
      UnpackThenPack(buf);
    }
    forall e: Envelope | |e.ciphertext| >= TAG_BYTES && Pack(e.sessionId, e.counter, e.nonce, e.ciphertext) == Ok(buf)
      ensures Unpack(buf).Ok?
    {
      PackThenUnpack(e.sessionId, e.counter, e.nonce, e.ciphertext);
    }
  }

  function Upper(method_: bytes): (u: bytes)
    ensures |u| == |method_|
    ensures BAR in u <==> BAR in method_
  {
    if method_ == [] then []
    else
      var c := method_[0];
      assert method_ == [c] + method_[1..];
      [if 97 <= c <= 122 then c - 32 else c] + Upper(method_[1..])
  }

  lemma {:induction false} UpperTwice(m: bytes)
    ensures Upper(Upper(m)) == Upper(m)
  {
    if m != [] {
      UpperTwice(m[1..]);
      assert Upper(m)[1..] == Upper(m[1..]);
    }
  }

  function AadHead(sessionId: bytes, counter: nat): bytes
    requires counter < COUNTER_LIMIT
  {
    MAGIC + [BAR, VERSION, BAR] + sessionId + [BAR] + Counter8(counter) + [BAR]
  }

  function AadTail(method_: bytes, path: bytes): bytes {
    Upper(method_) + [BAR] + path
  }

  /** The six fields joined by `|`. */
  function BuildAad(method_: bytes, path: bytes, sessionId: bytes, counter: nat): bytes
    requires counter < COUNTER_LIMIT
  {
    AadHead(sessionId, counter) + AadTail(method_, path)
  }

  /** The associated data is the join of its six fields. */
  lemma AadJoined(method_: bytes, path: bytes, sessionId: bytes, counter: nat)
    requires counter < COUNTER_LIMIT
    ensures BuildAad(method_, path, sessionId, counter)
            == JoinBytes(BAR, [Ascii("SLLM"), [1], sessionId, Counter8(counter), Upper(method_), path])
  {
    var c, u := Counter8(counter), Upper(method_);
    assert MAGIC == Ascii("SLLM");
    assert JoinBytes(BAR, [u, path]) == u + [BAR] + path;
    assert JoinBytes(BAR, [c, u, path]) == c + [BAR] + JoinBytes(BAR, [u, path]);
    assert JoinBytes(BAR, [sessionId, c, u, path]) == sessionId + [BAR] + JoinBytes(BAR, [c, u, path]);
    assert JoinBytes(BAR, [[1], sessionId, c, u, path]) == [1] + [BAR] + JoinBytes(BAR, [sessionId, c, u, path]);
  }

  /** Session and counter are always bound; method and path are too when neither method has a separator. */
  lemma AadInjective(m1: bytes, p1: bytes, s1: bytes, c1: nat, m2: bytes, p2: bytes, s2: bytes, c2: nat)
    requires c1 < COUNTER_LIMIT && c2 < COUNTER_LIMIT
    requires |s1| == SESSION_ID_BYTES && |s2| == SESSION_ID_BYTES
    requires BuildAad(m1, p1, s1, c1) == BuildAad(m2, p2, s2, c2)
    ensures s1 == s2 && c1 == c2
    ensures AadTail(m1, p1) == AadTail(m2, p2)
    ensures BAR !in m1 && BAR !in m2 ==> Upper(m1) == Upper(m2) && p1 == p2
  {
    var h := MAGIC + [BAR, VERSION, BAR];
    SplitEqual(AadHead(s1, c1), AadTail(m1, p1), AadHead(s2, c2), AadTail(m2, p2));
    SplitEqual(h + s1 + [BAR] + Counter8(c1), [BAR], h + s2 + [BAR] + Counter8(c2), [BAR]);
    SplitEqual(h + s1 + [BAR], Counter8(c1), h + s2 + [BAR], Counter8(c2));
    SplitEqual(h + s1, [BAR], h + s2, [BAR]);
    SplitEqual(h, s1, h, s2);
    Counter8Injective(c1, c2);
    if BAR !in m1 && BAR !in m2 {
      FirstSplit(BAR, Upper(m1), p1, Upper(m2), p2);
    }
  }

  /** The guard on the method is needed: any method `a|b` shares its binding with `a` on another path. */
  lemma AadCollision(a: bytes, b: bytes, path: bytes, sessionId: bytes, counter: nat)
    requires counter < COUNTER_LIMIT
    ensures BuildAad(a + [BAR] + b, path, sessionId, counter) == BuildAad(a, Upper(b) + [BAR] + path, sessionId, counter)
  {
    UpperConcat(a + [BAR], b);
    UpperConcat(a, [BAR]);
    assert Upper([BAR]) == [BAR];
    Regroup(Upper(a), Upper(b), path);
  }

  lemma {:induction false} UpperConcat(x: bytes, y: bytes)
    ensures Upper(x + y) == Upper(x) + Upper(y)
  {
    if x == [] {
      assert x + y == y;
    } else {
      assert (x + y)[1..] == x[1..] + y;
      UpperConcat(x[1..], y);
    }
  }

  lemma Regroup(a: bytes, b: bytes, c: bytes)
    ensures a + [BAR] + b + [BAR] + c == a + [BAR] + (b + [BAR] + c)
  {
  }
}
