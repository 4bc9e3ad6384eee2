/** The client's request path: lazy handshake, rising counters, one retry on a lost session, decoding of answers. */
module Transport {
  import opened Bytes
  import opened Wire
  import opened Envelopes
  import opened Sessions
  import opened Replay
  import opened ClientReplay
  import Router

  const UNKNOWN_SESSION := "unknown_session"
  const SESSION_EXPIRED := "session_expired"
  const DECRYPT_FAILED := "decrypt_failed"
  const REPLAY_DETECTED := "replay_detected"
  const INTERNAL_ERROR := "internal_error"

  datatype Keys = Keys(id: SessionId, c2s: DirectionKeys, s2c: DirectionKeys)

  datatype ContentType = JsonError | OctetStream | OtherType

  /** An HTTP answer; `code` is the error code of a plain JSON body that has one. */
  datatype Response = Response(status: int, contentType: ContentType, body: bytes, code: Option<string>)

  /** A decrypted body: its error code if it names one, and whether it has the shape of an error envelope. */
  datatype Payload = Payload(json: bytes, code: Option<string>, errorShaped: bool)

  const EMPTY_PAYLOAD := Payload([], None, false)

  datatype Answer = NoContent | Data(payload: Payload) | Failure(code: string)

  type Parse = bytes -> Option<Payload>

  function Decode(r: Response, k: Keys, log: SealLog, m: Memory, method_: bytes, path: bytes, parse: Parse): (Answer, Memory) {
    if r.status == 204 then (NoContent, m)
    else if r.contentType.JsonError? then (Failure(r.code.GetOr(INTERNAL_ERROR)), m)
    else if r.contentType.OtherType? then (Failure(INTERNAL_ERROR), m)
    else
      match Open(log, k.s2c, k.id, Upper(method_), path, r.body)
      case Err(_) => (Failure(DECRYPT_FAILED), m)
      case Ok((env, plaintext)) =>
        if env.counter in m.seen then (Failure(REPLAY_DETECTED), m)
        else (Read(r.status, plaintext, parse), CheckMemory(m, env.counter).1)
  }

  function Read(status: int, plaintext: bytes, parse: Parse): Answer {
    match if plaintext == [] then Some(EMPTY_PAYLOAD) else parse(plaintext)
    case None => Failure(INTERNAL_ERROR)
    case Some(p) => if (status >= 400 || p.errorShaped) && p.code.Some? then Failure(p.code.value) else Data(p)
  }

  /** The answers after which a request is tried once more on a new session. Nothing authenticates them. */
  predicate SessionLost(r: Response) {
    (r.status == 400 || r.status == 401) && (r.code == Some(UNKNOWN_SESSION) || r.code == Some(SESSION_EXPIRED))
  }

  /** What one attempt meets: the outcome of a handshake should it need one, and the answer to the sealed request. */
  datatype Attempt = Attempt(handshake: Result<Keys, string>, response: Response)

  /** Every seal of this client: the number of its handshake and the counter. */
  datatype Use = Use(epoch: nat, counter: nat)

  predicate InOrder(uses: seq<Use>) {
    forall i, j :: 0 <= i < j < |uses| ==>
      uses[i].epoch < uses[j].epoch || (uses[i].epoch == uses[j].epoch && uses[i].counter < uses[j].counter)
  }

  /** The envelope of a request. */
  function RequestEnvelope(encrypt: RawCipher, k: Keys, counter: nat, method_: bytes, path: bytes, body: bytes): bytes
    requires counter < COUNTER_LIMIT
  {
    Seal(encrypt, map[], k.c2s, counter, k.id, Upper(method_), path, body).value.0
  }

  class Client {
    var session: Option<Keys>
    var counter: nat
    var replay: ReplayClient
    ghost var epoch: nat
    ghost var uses: seq<Use>

    ghost predicate Valid()
      reads this, replay
    {
      && replay.Valid() && InOrder(uses)
      && (forall u :: u in uses ==> u.epoch <= epoch && u.counter > 0 && (u.epoch == epoch ==> u.counter <= counter))
    }

    ghost function Seen(): Memory
      reads this, replay
    {
      Memory(replay.seen, replay.accepted)
    }

    constructor ()
      ensures Valid() && session.None? && uses == [] && fresh(replay)
    {
      replay := new ReplayClient();
      session, counter, epoch, uses := None, 0, 0, [];
    }

    /** Handshake if there is no session; a new session starts its counter and its replay memory afresh. */
    method SessionState(handshake: Result<Keys, string>) returns (ok: Result<Keys, string>)
      requires Valid()
      modifies this
      ensures Valid() && uses == old(uses)
      ensures ok == if old(session).Some? then Ok(old(session).value) else handshake
      ensures session == if ok.Ok? then Some(ok.value) else None
      ensures if old(session).None? && ok.Ok?
              then counter == 0 && fresh(replay) && Seen() == Memory({}, {}) && epoch == old(epoch) + 1
              else counter == old(counter) && replay == old(replay) && epoch == old(epoch)
    {
      if session.None? {
        if handshake.Err? {
          return handshake;
        }
        replay := new ReplayClient();
        session, counter, epoch := Some(handshake.value), 0, epoch + 1;
      }
      return Ok(session.value);
    }

    /** Take the next counter and seal under it. */
    method SealNext(encrypt: RawCipher, log: SealLog, method_: bytes, path: bytes, body: bytes)
      returns (sealed: Result<(bytes, SealLog), SealError>)
      requires Valid() && session.Some?
      modifies this`counter, this`uses
      ensures Valid() && counter == old(counter) + 1 && uses == old(uses) + [Use(epoch, counter)]
      ensures sealed == Seal(encrypt, log, session.value.c2s, counter, session.value.id, Upper(method_), path, body)
    {
      counter := counter + 1;
      sealed := Seal(encrypt, log, session.value.c2s, counter, session.value.id, Upper(method_), path, body);
      uses := uses + [Use(epoch, counter)];
    }

    method DecodeResponse(r: Response, k: Keys, log: SealLog, method_: bytes, path: bytes, parse: Parse) returns (a: Answer)
      requires Valid()
      modifies replay
      ensures Valid() && (a, Seen()) == Decode(r, k, log, old(Seen()), method_, path, parse)
    {
      if r.status == 204 {
        return NoContent;
      }
      if r.contentType.JsonError? {
        return Failure(if r.code.Some? then r.code.value else INTERNAL_ERROR);
      }
      if r.contentType.OtherType? {
        return Failure(INTERNAL_ERROR);
      }
      var unsealed := Open(log, k.s2c, k.id, Upper(method_), path, r.body);
      if unsealed.Err? {
        return Failure(DECRYPT_FAILED);
      }
      var unseen := replay.Check(unsealed.value.0.counter);
      if !unseen {
        return Failure(REPLAY_DETECTED);
      }
      return Read(r.status, unsealed.value.1, parse);
    }

    /** One attempt: `None` asks for the retry. */
    method Try(encrypt: RawCipher, log: SealLog, method_: bytes, path: bytes, body: bytes, parse: Parse, a: Attempt,
               mayRetry: bool)
      returns (answer: Option<Answer>, sent: seq<bytes>, log': SealLog)
      requires Valid()
      modifies this, replay
      ensures Valid()
      ensures answer.None? <==> mayRetry && SessionLost(a.response) && uses != old(uses) && counter < COUNTER_LIMIT
      ensures session == if answer.None? then None
                         else if old(session).Some? || a.handshake.Err? then old(session) else Some(a.handshake.value)
      ensures uses == if old(session).None? && a.handshake.Err? then old(uses) else old(uses) + [Use(epoch, counter)]
      ensures if old(session).None? then uses == old(uses) || (epoch == old(epoch) + 1 && counter == 1)
              else epoch == old(epoch) && counter == old(counter) + 1
      ensures replay == old(replay) || fresh(replay)
      ensures uses == old(uses) ==> answer == Some(Failure(a.handshake.error))
      ensures uses != old(uses) && counter >= COUNTER_LIMIT ==> answer == Some(Failure(INTERNAL_ERROR))
      ensures uses != old(uses) && counter < COUNTER_LIMIT ==>
                var k := if old(session).Some? then old(session).value else a.handshake.value;
                && log' == Seal(encrypt, log, k.c2s, counter, k.id, Upper(method_), path, body).value.1
                && sent == [RequestEnvelope(encrypt, k, counter, method_, path, body)]
      ensures uses == old(uses) || counter >= COUNTER_LIMIT ==> sent == []
      ensures uses != old(uses) && counter < COUNTER_LIMIT && answer.Some? ==>
                var memory := if old(session).Some? then old(Seen()) else Memory({}, {});
                session.Some? && (answer.value, Seen()) == Decode(a.response, session.value, log', memory, method_, path, parse)
    {
      sent, log' := [], log;
      var keys := SessionState(a.handshake);
      if keys.Err? {
        return Some(Failure(keys.error)), [], log';
      }
      var sealed := SealNext(encrypt, log, method_, path, body);
      if sealed.Err? {
        return Some(Failure(INTERNAL_ERROR)), [], log';
      }
      sent, log' := [sealed.value.0], sealed.value.1;
      if mayRetry && SessionLost(a.response) {
        session := None;
        return None, sent, log';
      }
      var decoded := DecodeResponse(a.response, keys.value, log', method_, path, parse);
      return Some(decoded), sent, log';
    }

    /**
     * At most two envelopes go out, each with this request's body sealed for its session; the second only after an answer that reads as a lost session, whoever sent it; the
     * result is what the last answer decodes to, or the failure of the handshake that was needed.
     */
    method Request(encrypt: RawCipher, log: SealLog, method_: bytes, path: bytes, body: bytes, parse: Parse,
                   first: Attempt, second: Attempt)
      returns (answer: Answer, sent: seq<bytes>, log': SealLog)
      requires Valid()
      modifies this, replay
      ensures Valid() && old(uses) <= uses && |uses| <= |old(uses)| + 2
      ensures |uses| == |old(uses)| + 2 ==>
                && first.response.status in {400, 401}
                && first.response.code in {Some("unknown_session"), Some("session_expired")}
                && uses[|uses| - 1].counter == 1 && uses[|uses| - 1].epoch == uses[|uses| - 2].epoch + 1
                && session.Some?
                && answer == Decode(second.response, session.value, log', Memory({}, {}), method_, path, parse).0
      ensures |uses| == |old(uses)| + 1 && uses[|uses| - 1].counter < COUNTER_LIMIT ==>
                if first.response.status in {400, 401} && first.response.code in {Some("unknown_session"), Some("session_expired")}
                then second.handshake.Err? && answer == Failure(second.handshake.error)
                else
                  && session.Some?
                  && (old(session).Some? ==> session == old(session))
                  && (old(session).None? ==> first.handshake.Ok? && session == Some(first.handshake.value))
                  && answer == Decode(first.response, session.value, log',
                                      if old(session).Some? then old(Seen()) else Memory({}, {}), method_, path, parse).0
      ensures uses == old(uses) ==>
                old(session).None? && first.handshake.Err? && answer == Failure(first.handshake.error) && sent == []
      ensures |uses| > |old(uses)| && uses[|old(uses)|].counter < COUNTER_LIMIT ==>
                (old(session).None? ==> first.handshake.Ok?) &&
                var k := if old(session).Some? then old(session).value else first.handshake.value;
                sent != [] && sent[0] == RequestEnvelope(encrypt, k, uses[|old(uses)|].counter, method_, path, body)
      ensures |uses| == |old(uses)| + 2 ==> |sent| == 2 && sent[1] == RequestEnvelope(encrypt, session.value, 1, method_, path, body)
      ensures |sent| <= |uses| - |old(uses)|
    {
      var a, sent1, log1 := Try(encrypt, log, method_, path, body, parse, first, true);
      if a.Some? {
        return a.value, sent1, log1;
      }
      var b, sent2, log2 := Try(encrypt, log1, method_, path, body, parse, second, false);
      return b.value, sent1 + sent2, log2;
    }
  }

  // ----- one honest exchange -----

  /** An honest envelope is delivered exactly when its session is live, its counter acceptable and its body valid. */
  lemma HonestRequestDelivered(encrypt: RawCipher, log: SealLog, later: SealLog, t: Table, s: SessionState, counter: nat,
                               method_: bytes, path: bytes, body: bytes, schema: bytes -> bool, clock: Clock)
    requires IsAead(encrypt) && counter < COUNTER_LIMIT && s.id in t && t[s.id] == s
    requires var log' := Seal(encrypt, log, s.c2s, counter, s.id, Upper(method_), path, body).value.1;
             forall q :: q in log' ==> q in later && later[q] == log'[q]
    ensures var wire := Seal(encrypt, log, s.c2s, counter, s.id, Upper(method_), path, body).value.0;
            var outcome := Router.Receive(t, later, Router.Request(wire, method_, path), schema, clock).0;
            && (outcome.Delivered? <==> TableLookup(t, s.id, clock).0.Some? && Accepts(s.window, counter) && schema(body))
            && (outcome.Delivered? ==> outcome == Router.Delivered(s.id, counter, body))
  {
    UpperTwice(method_);
    var q := SealQuery(encrypt, s.c2s, counter, s.id, Upper(method_), path, body);
    SealThenOpen(encrypt, log, later, s.c2s, counter, s.id, Upper(method_), path, body);
    PackThenUnpack(s.id.raw, counter, q.nonce, q.ciphertext);
    var wire := Seal(encrypt, log, s.c2s, counter, s.id, Upper(method_), path, body).value.0;
    assert Unpack(wire) == Ok(Envelope(s.id.raw, counter, q.nonce, q.ciphertext));
    assert Open(later, s.c2s, s.id, method_, path, wire) == Open(later, s.c2s, s.id, Upper(method_), path, wire);
    assert |wire| >= 41;
    assert Identifier(s.id.raw) == s.id;
  }

  /** The client reads back the server's response to it, unless it has seen that counter. */
  lemma ResponseDecoded(encrypt: RawCipher, log: SealLog, later: SealLog, k: Keys, counter: nat, m: Memory,
                        method_: bytes, path: bytes, body: bytes, parse: Parse)
    requires IsAead(encrypt) && counter < COUNTER_LIMIT
    requires var log' := Seal(encrypt, log, k.s2c, counter, k.id, method_, path, body).value.1;
             forall q :: q in log' ==> q in later && later[q] == log'[q]
    ensures var wire := Seal(encrypt, log, k.s2c, counter, k.id, method_, path, body).value.0;
            Decode(Response(200, OctetStream, wire, None), k, later, m, method_, path, parse)
            == if counter in m.seen then (Failure(REPLAY_DETECTED), m)
               else (Read(200, body, parse), CheckMemory(m, counter).1)
  {
    UpperTwice(method_);
    SealThenOpen(encrypt, log, later, k.s2c, counter, k.id, method_, path, body);
    var wire := Seal(encrypt, log, k.s2c, counter, k.id, method_, path, body).value.0;
    assert Open(later, k.s2c, k.id, Upper(method_), path, wire) == Open(later, k.s2c, k.id, method_, path, wire);
  }

  /** Whatever answer arrives, data was sealed under the session's response key for this session, method and path. */
  lemma DataWasSealed(r: Response, k: Keys, log: SealLog, m: Memory, method_: bytes, path: bytes, parse: Parse)
    requires Decode(r, k, log, m, method_, path, parse).0.Data?
    ensures exists q, counter: nat :: q in log && counter < COUNTER_LIMIT && q.key == k.s2c.key
              && q.aad == BuildAad(Upper(method_), path, k.id.raw, counter)
              && Read(r.status, log[q], parse) == Decode(r, k, log, m, method_, path, parse).0
  {
    OpenIsLogged(log, k.s2c, k.id, Upper(method_), path, r.body);
    var (env, plaintext) := Open(log, k.s2c, k.id, Upper(method_), path, r.body).value;
    var q :| q in log && log[q] == plaintext && q.key == k.s2c.key
             && q.aad == BuildAad(Upper(method_), path, k.id.raw, env.counter);
    assert Read(r.status, log[q], parse) == Decode(r, k, log, m, method_, path, parse).0;
  }

  /** What a sealed body says, empty ones included. */
  function Said(body: bytes, parse: Parse): Option<Payload> {
    if body == [] then Some(EMPTY_PAYLOAD) else parse(body)
  }

  /**
   * How the client takes a sealed answer of any status that it has not seen: a body that names an error code, under an
   * error status or in the shape of an error, fails with that code and is never data; any other body that parses is.
   */
  lemma SealedAnswer(encrypt: RawCipher, log: SealLog, later: SealLog, k: Keys, counter: nat, m: Memory, status: int,
                     method_: bytes, path: bytes, body: bytes, parse: Parse)
    requires IsAead(encrypt) && counter < COUNTER_LIMIT && counter !in m.seen && status != 204
    requires Extends(later, Seal(encrypt, log, k.s2c, counter, k.id, method_, path, body).value.1)
    ensures var wire := Seal(encrypt, log, k.s2c, counter, k.id, method_, path, body).value.0;
            var a := Decode(Response(status, OctetStream, wire, None), k, later, m, method_, path, parse).0;
            var said := Said(body, parse);
            && (a.Data? <==> said.Some? && (said.value.code.None? || (status < 400 && !said.value.errorShaped)))
            && (a.Data? ==> a.payload == said.value)
            && (said.Some? && !a.Data? ==> said.value.code == Some(a.code))
            && (said.None? ==> a == Failure("internal_error"))
  {
    UpperTwice(method_);
    SealThenOpen(encrypt, log, later, k.s2c, counter, k.id, method_, path, body);
    var wire := Seal(encrypt, log, k.s2c, counter, k.id, method_, path, body).value.0;
    assert Open(later, k.s2c, k.id, Upper(method_), path, wire) == Open(later, k.s2c, k.id, method_, path, wire);
  }

  // ----- what a retry can do -----

  /** The plain answers of the receive step to a refused request; a delivered one is answered in an envelope. */
  predicate Answers(outcome: Router.Outcome, r: Response) {
    match outcome
    case BadEnvelope => r.status == 400 && r.code == Some("bad_envelope")
    case UnknownSession => r.status == 401 && r.code == Some(UNKNOWN_SESSION)
    case ReplayDetected => r.status == 400 && r.code == Some(REPLAY_DETECTED)
    case DecryptFailed => r.status == 400 && r.code == Some(DECRYPT_FAILED)
    case BadRequest => r.status == 400 && r.code == Some("bad_request")
    case Delivered(_, _, _) => r.code.None?
  }

  /** With the server's own answers a retry is safe: it follows exactly the answer to an unknown session. */
  lemma HonestRetry(outcome: Router.Outcome, r: Response)
    requires Answers(outcome, r)
    ensures SessionLost(r) <==> outcome.UnknownSession?
  {
    assert "bad_envelope"[0] == 'b' && "bad_request"[0] == 'b' && UNKNOWN_SESSION[0] == 'u' && SESSION_EXPIRED[0] == 's';
    assert REPLAY_DETECTED[0] == 'r' && DECRYPT_FAILED[0] == 'd';
  }

  /** An answer that reads as a lost session and that anyone can write. */
  const LOST := Response(401, JsonError, [], Some(UNKNOWN_SESSION))

  /**
   * Without them it is not: whenever the first envelope is delivered and such an answer comes instead of the server's,
   * the body goes out again under the next session and is delivered again if that session is live.
   */
  lemma ForgedRetry(encrypt: RawCipher, log: SealLog, log2: SealLog, later: SealLog, t: Table, t2: Table, s1: SessionState,
                    c1: nat, s2: SessionState, method_: bytes, path: bytes, body: bytes, schema: bytes -> bool,
                    clock: Clock, clock2: Clock)
    requires IsAead(encrypt) && c1 < COUNTER_LIMIT && schema(body)
    requires s1.id in t && t[s1.id] == s1 && TableLookup(t, s1.id, clock).0.Some? && Accepts(s1.window, c1)
    requires s2.id in t2 && t2[s2.id] == s2 && TableLookup(t2, s2.id, clock2).0.Some? && Accepts(s2.window, 1)
    requires Extends(later, Seal(encrypt, log, s1.c2s, c1, s1.id, Upper(method_), path, body).value.1)
    requires Extends(later, Seal(encrypt, log2, s2.c2s, 1, s2.id, Upper(method_), path, body).value.1)
    ensures var wire1 := Seal(encrypt, log, s1.c2s, c1, s1.id, Upper(method_), path, body).value.0;
            var wire2 := Seal(encrypt, log2, s2.c2s, 1, s2.id, Upper(method_), path, body).value.0;
            && Router.Receive(t, later, Router.Request(wire1, method_, path), schema, clock).0 == Router.Delivered(s1.id, c1, body)
            && SessionLost(LOST)
            && Router.Receive(t2, later, Router.Request(wire2, method_, path), schema, clock2).0 == Router.Delivered(s2.id, 1, body)
  {
    HonestRequestDelivered(encrypt, log, later, t, s1, c1, method_, path, body, schema, clock);
    HonestRequestDelivered(encrypt, log2, later, t2, s2, 1, method_, path, body, schema, clock2);
  }

  /**
   * To a client whose session has sealed nothing for it, no answer is data, and one is a success: the status 204,
   * whatever comes with it. A plain error fails with its own code, and no answer reaches the replay memory.
   */
  lemma UnsealedAnswers(r: Response, k: Keys, log: SealLog, m: Memory, method_: bytes, path: bytes, parse: Parse)
    requires forall q :: q in log ==> q.key != k.s2c.key
    ensures Decode(r, k, log, m, method_, path, parse)
            == (if r.status == 204 then NoContent
                else if r.contentType == JsonError && r.code.Some? then Failure(r.code.value)
                else if r.contentType == OctetStream then Failure("decrypt_failed")
                else Failure("internal_error"), m)
  {
    if Open(log, k.s2c, k.id, Upper(method_), path, r.body).Ok? {
      OpenIsLogged(log, k.s2c, k.id, Upper(method_), path, r.body);
    }
  }
}
