/** One replay memory for all the sessions of a transport: a handshake replaces it, and streams of older sessions go on. */
module SharedReplay {
  import opened Bytes
  import opened Envelopes
  import opened Sessions
  import opened ClientReplay
  import S = Streaming
  import C = StreamClient
  import T = Transport
  import opened Wire

  /** What reaches the memory: a handshake, a data line of some stream, the answer to some request. */
  datatype Event =
    | Handshake
    | Line(ctx: S.Context, log: SealLog, data: string)
    | Answer(keys: T.Keys, log: SealLog, response: T.Response, method_: bytes, path: bytes, parse: T.Parse)

  function Step(m: Memory, e: Event): Memory {
    match e
    case Handshake => Memory({}, {})
    case Line(ctx, log, data) => C.ReadData(ctx, log, m, data).1
    case Answer(keys, log, response, method_, path, parse) => T.Decode(response, keys, log, m, method_, path, parse).1
  }

  function After(events: seq<Event>): Memory {
    if events == [] then Memory({}, {}) else Step(After(events[..|events| - 1]), events[|events| - 1])
  }

  /** The session and the counter of an authentic envelope. */
  datatype Arrival = Arrival(id: SessionId, counter: int)

  function Unsealed(keys: T.Keys, log: SealLog, response: T.Response, method_: bytes, path: bytes): Option<(Envelope, bytes)> {
    if response.status == 204 || !response.contentType.OctetStream? then None
    else
      match Open(log, keys.s2c, keys.id, Upper(method_), path, response.body)
      case Err(_) => None
      case Ok(unsealed) => Some(unsealed)
  }

  function Opened(e: Event): Option<Arrival> {
    match e
    case Handshake => None
    case Line(ctx, log, data) =>
      (match C.CounterOf(ctx, log, data)
       case None => None
       case Some(counter) => Some(Arrival(ctx.id, counter)))
    case Answer(keys, log, response, method_, path, _) =>
      match Unsealed(keys, log, response, method_, path)
      case None => None
      case Some((env, _)) => Some(Arrival(keys.id, env.counter))
  }

  /** An authentic envelope whose counter the memory holds. */
  predicate Refused(m: Memory, e: Event) {
    Opened(e).Some? && Opened(e).value.counter in m.seen
  }

  /** A reader sees a refused line as a replay. */
  lemma RefusedLine(m: Memory, ctx: S.Context, log: SealLog, data: string)
    ensures Refused(m, Line(ctx, log, data)) <==> C.ReadData(ctx, log, m, data).0 == Err(C.Replayed)
  {
  }

  lemma LineChecks(m: Memory, ctx: S.Context, log: SealLog, data: string)
    ensures C.ReadData(ctx, log, m, data).1
            == if C.CounterOf(ctx, log, data).Some? then CheckMemory(m, C.CounterOf(ctx, log, data).value).1 else m
  {
  }

  /** A caller gets a refused answer as a replay and any other authentic one with its content. */
  lemma RefusedAnswer(m: Memory, keys: T.Keys, log: SealLog, response: T.Response, method_: bytes, path: bytes, parse: T.Parse)
    ensures var e := Answer(keys, log, response, method_, path, parse);
            && (Opened(e).Some? ==>
                  T.Decode(response, keys, log, m, method_, path, parse).0
                  == if Refused(m, e) then T.Failure(T.REPLAY_DETECTED)
                     else T.Read(response.status, Unsealed(keys, log, response, method_, path).value.1, parse))
            && Step(m, e) == if Opened(e).Some? then CheckMemory(m, Opened(e).value.counter).1 else m
  {
  }

  lemma StepChecks(m: Memory, e: Event)
    requires !e.Handshake?
    ensures Step(m, e) == if Opened(e).Some? then CheckMemory(m, Opened(e).value.counter).1 else m
  {
    match e
    case Line(ctx, log, data) => LineChecks(m, ctx, log, data);
    case Answer(keys, log, response, method_, path, parse) => RefusedAnswer(m, keys, log, response, method_, path, parse);
  }

  /** The reader goes to the transport's memory for every line, whichever session the stream belongs to. */
  method NextLine(client: T.Client, ctx: S.Context, log: SealLog, data: string) returns (r: Result<S.Message, C.ClientEnd>)
    requires client.Valid()
    modifies client.replay
    ensures client.Valid() && client.Seen() == Step(old(client.Seen()), Line(ctx, log, data))
    ensures r == C.ReadData(ctx, log, old(client.Seen()), data).0
  {
    r := C.ReceiveData(ctx, log, data, client.replay);
  }

  /** The i-th event came after the last handshake. */
  predicate Current(events: seq<Event>, i: nat) {
    i < |events| && forall j :: i <= j < |events| ==> !events[j].Handshake?
  }

  predicate Brings(e: Event, counter: int) {
    Opened(e).Some? && Opened(e).value.counter == counter
  }

  ghost predicate BroughtBefore(events: seq<Event>, counter: int) {
    exists i: nat :: Current(events, i) && Brings(events[i], counter)
  }

  lemma BroughtSnoc(events: seq<Event>, e: Event, counter: int)
    ensures BroughtBefore(events + [e], counter) <==> !e.Handshake? && (Brings(e, counter) || BroughtBefore(events, counter))
  {
    var more := events + [e];
    assert more[|events|] == e;
    if BroughtBefore(more, counter) {
      var i: nat :| Current(more, i) && Brings(more[i], counter);
      if i < |events| {
        assert forall j :: i <= j < |events| ==> events[j] == more[j];
        assert Current(events, i) && Brings(events[i], counter);
      }
    }
    if !e.Handshake? && Brings(e, counter) {
      assert Current(more, |events|) && Brings(more[|events|], counter);
    }
    if !e.Handshake? && BroughtBefore(events, counter) {
      var i: nat :| Current(events, i) && Brings(events[i], counter);
      assert Current(more, i) && Brings(more[i], counter);
    }
  }

  /** The memory stands for the counters brought since the last handshake, and holds all of them until it is trimmed. */
  lemma {:induction false} MemoryOf(events: seq<Event>)
    ensures var m := After(events);
            && Covers(m.seen, m.accepted) && (|m.accepted| <= SEEN_LIMIT ==> m.seen == m.accepted)
            && forall c :: c in m.accepted <==> BroughtBefore(events, c)
  {
    if events != [] {
      var before, e := events[..|events| - 1], events[|events| - 1];
      assert events == before + [e];
      MemoryOf(before);
      StepMemory(After(before), e);
      forall c
        ensures c in After(events).accepted <==> BroughtBefore(events, c)
      {
        BroughtSnoc(before, e, c);
      }
    }
  }

  lemma StepMemory(m: Memory, e: Event)
    requires Covers(m.seen, m.accepted) && (|m.accepted| <= SEEN_LIMIT ==> m.seen == m.accepted)
    ensures var m' := Step(m, e);
            && Covers(m'.seen, m'.accepted) && (|m'.accepted| <= SEEN_LIMIT ==> m'.seen == m'.accepted)
            && m'.accepted == if e.Handshake? then {} else if Opened(e).Some? then m.accepted + {Opened(e).value.counter}
                              else m.accepted
  {
    if !e.Handshake? {
      StepChecks(m, e);
    }
    if !e.Handshake? && Opened(e).Some? {
      var c := Opened(e).value.counter;
      if c !in m.seen {
        RememberCovers(m.seen, m.accepted, c);
        SubsetCount(m.accepted, m.accepted + {c});
      }
    }
  }

  /** Of this session or of any other, the same counter came after the last handshake. */
  ghost predicate ArrivedBefore(events: seq<Event>, a: Arrival) {
    exists i: nat :: Current(events, i) && Opened(events[i]) == Some(a)
  }

  ghost predicate ForeignBefore(events: seq<Event>, a: Arrival) {
    exists i: nat :: Current(events, i) && Brings(events[i], a.counter) && Opened(events[i]).value.id != a.id
  }

  /**
   * An authentic reply that comes for the first time since the last handshake is refused only if a reply of another
   * session brought the same counter since then, and while no more than 4096 counters came it is refused exactly then.
   */
  lemma FirstArrivalRefused(events: seq<Event>, e: Event)
    requires Opened(e).Some? && !ArrivedBefore(events, Opened(e).value)
    ensures Refused(After(events), e) ==> ForeignBefore(events, Opened(e).value)
    ensures |After(events).accepted| <= SEEN_LIMIT ==> (Refused(After(events), e) <==> ForeignBefore(events, Opened(e).value))
  {
    var a := Opened(e).value;
    MemoryOf(events);
    if BroughtBefore(events, a.counter) {
      var i: nat :| Current(events, i) && Brings(events[i], a.counter);
      assert Opened(events[i]) != Some(a);
    }
  }

  /** A repeat since the last handshake is refused unless 2048 larger counters were accepted since the handshake. */
  lemma RepeatRefused(events: seq<Event>, e: Event)
    requires Opened(e).Some? && ArrivedBefore(events, Opened(e).value)
    ensures Refused(After(events), e) || |Above(After(events).accepted, Opened(e).value.counter)| >= SEEN_KEEP
  {
    var a := Opened(e).value;
    MemoryOf(events);
    var i: nat :| Current(events, i) && Opened(events[i]) == Some(a);
    assert Brings(events[i], a.counter);
    if !Refused(After(events), e) && |Above(After(events).accepted, a.counter)| < SEEN_KEEP {
      LargestRemembered(After(events).seen, After(events).accepted, a.counter);
    }
  }

  lemma AfterHandshake(events: seq<Event>, e: Event)
    ensures After(events + [Handshake]) == Memory({}, {})
    ensures After(events + [Handshake, e]) == Step(Memory({}, {}), e)
  {
    var began := events + [Handshake];
    var run := events + [Handshake, e];
    assert began[..|events|] == events && began[|events|] == Handshake;
    assert run[..|run| - 1] == began && run[|run| - 1] == e;
  }

  /** A handshake forgets what the older streams have shown: after it any envelope of theirs is accepted once more. */
  lemma HandshakeForgets(events: seq<Event>, e: Event)
    ensures !Refused(After(events + [e, Handshake]), e)
  {
    AfterHandshake(events + [e], e);
    assert events + [e, Handshake] == events + [e] + [Handshake];
  }

  /** The data line of one message, and what it opens to. */
  lemma HonestLine(ctx: S.Context, log: SealLog, x: S.Sent) returns (data: string)
    requires IsAead(ctx.encrypt) && S.IsCodec(ctx.codec) && C.Logged(ctx, log, x) && x.keys == ctx.direction
    ensures S.Frame(ctx, x) == ["data: " + data, ""] && C.CounterOf(ctx, log, data) == Some(x.counter)
    ensures x.message != S.Empty ==> C.ReadData(ctx, log, Memory({}, {}), data).0 == Ok(x.message)
  {
    C.FrameOpens(ctx, log, x);
    var wire: bytes, env: Envelope :|
      && S.Frame(ctx, x) == ["data: " + ctx.codec.encode(wire), ""]
      && Open(log, ctx.direction, ctx.id, Upper(ctx.method_), ctx.path, wire) == Ok((env, ctx.codec.dump(x.message)))
      && env.counter == x.counter;
    data := ctx.codec.encode(wire);
  }

  lemma OpenedReply(keys: T.Keys, log: SealLog, wire: bytes, method_: bytes, path: bytes, parse: T.Parse)
    requires Open(log, keys.s2c, keys.id, Upper(method_), path, wire).Ok?
    ensures Opened(Answer(keys, log, T.Response(200, T.OctetStream, wire, None), method_, path, parse))
            == Some(Arrival(keys.id, Open(log, keys.s2c, keys.id, Upper(method_), path, wire).value.0.counter))
  {
  }

  /** A sealed answer opens to its own session and counter. */
  lemma HonestReply(encrypt: RawCipher, before: SealLog, later: SealLog, k: T.Keys, counter: nat, method_: bytes, path: bytes,
                    body: bytes, parse: T.Parse)
    requires IsAead(encrypt) && counter < COUNTER_LIMIT
    requires Extends(later, Seal(encrypt, before, k.s2c, counter, k.id, Upper(method_), path, body).value.1)
    ensures var wire := Seal(encrypt, before, k.s2c, counter, k.id, Upper(method_), path, body).value.0;
            Opened(Answer(k, later, T.Response(200, T.OctetStream, wire, None), method_, path, parse))
            == Some(Arrival(k.id, counter))
  {
    var wire := Seal(encrypt, before, k.s2c, counter, k.id, Upper(method_), path, body).value.0;
    SealThenOpen(encrypt, before, later, k.s2c, counter, k.id, Upper(method_), path, body);
    OpenedReply(k, later, wire, method_, path, parse);
  }

  /**
   * A message of an old stream, read after a handshake, makes the client refuse the reply of the new session with the
   * same counter, on its first arrival and although both are authentic.
   */
  lemma OldStreamRefusesReply(events: seq<Event>, old_: S.Context, log: SealLog, x: S.Sent, encrypt: RawCipher,
                              before: SealLog, later: SealLog, k: T.Keys, method_: bytes, path: bytes, body: bytes,
                              parse: T.Parse)
    returns (data: string)
    requires IsAead(old_.encrypt) && S.IsCodec(old_.codec) && C.Logged(old_, log, x) && x.keys == old_.direction
    requires IsAead(encrypt)
    requires Extends(later, Seal(encrypt, before, k.s2c, x.counter, k.id, Upper(method_), path, body).value.1)
    ensures S.Frame(old_, x) == ["data: " + data, ""]
    ensures x.message != S.Empty ==> C.ReadData(old_, log, After(events + [Handshake]), data).0 == Ok(x.message)
    ensures var wire := Seal(encrypt, before, k.s2c, x.counter, k.id, Upper(method_), path, body).value.0;
            var reply := Answer(k, later, T.Response(200, T.OctetStream, wire, None), method_, path, parse);
            && Opened(reply) == Some(Arrival(k.id, x.counter))
            && Refused(After(events + [Handshake, Line(old_, log, data)]), reply)
  {
    data := HonestLine(old_, log, x);
    var line := Line(old_, log, data);
    AfterHandshake(events, line);
    LineChecks(Memory({}, {}), old_, log, data);
    HonestReply(encrypt, before, later, k, x.counter, method_, path, body, parse);
  }
}
