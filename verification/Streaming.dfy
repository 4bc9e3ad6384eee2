/** The server's event-stream encoder and what it makes of a pumped stream. */
module Streaming {
  import opened Bytes
  import opened Envelopes
  import opened Sessions
  import Worker

  datatype ChatChunk = ChatChunk(json: bytes)

  /** What the JSON bodies of a stream say; `Empty` is a body of no bytes. */
  datatype Message = Keepalive | Delta(chunk: ChatChunk) | Other(json: bytes) | Empty

  /** The normalisation of a raw chunk, refused when it does not validate. */
  type Normalize = Worker.Raw -> Option<ChatChunk>

  /** JSON and base64 as the code calls them. */
  datatype Codec = Codec(dump: Message -> bytes, load: bytes -> Option<Message>,
                         encode: bytes -> string, decode: string -> Option<bytes>)

  const DONE := "[DONE]"

  ghost predicate IsCodec(codec: Codec) {
    && (forall m: Message :: m != Empty ==> codec.dump(m) != [] && codec.load(codec.dump(m)) == Some(m))
    && (forall b: bytes :: codec.decode(codec.encode(b)) == Some(b) && codec.encode(b) != DONE)
    && (forall b: bytes, c :: c in codec.encode(b) ==> !IsSpace(c))
  }

  /** What a stream is for: the response keys its client holds, the session, the request's method and path, the codecs. */
  datatype Context = Context(encrypt: RawCipher, direction: DirectionKeys, id: SessionId,
                             method_: bytes, path: bytes, codec: Codec)

  /**
   * What the encoder meets at one turn of its loop. While it waited other responses moved the counter by `gap`, and the
   * session may have been closed; the encoder goes on with what is left of the keys.
   */
  datatype Event = Cancelled | Timeout | Ready

  datatype Tick = Tick(event: Event, gap: nat, closes: bool)

  datatype Sent = Sent(keys: DirectionKeys, counter: nat, message: Message)

  /** `Suspended`: the loop is still waiting, or its consumer has gone. */
  datatype Ending = Ended | Raised | Suspended

  datatype Emission = Emission(sent: seq<Sent>, ending: Ending, keys: DirectionKeys, counter: nat)

  function After(keys: DirectionKeys, tick: Tick): DirectionKeys {
    if tick.closes then Zeroed(keys) else keys
  }

  /** One turn's outcome: stop, or say something and go on from a position in the stream. */
  datatype Choice = Stop(ending: Ending) | Say(message: Message, pos: nat)

  function Pick(s: Worker.Stream, pos: nat, event: Event, normalize: Normalize): Choice {
    match event
    case Cancelled => Stop(Ended)
    case Timeout => Say(Keepalive, pos)
    case Ready =>
      if pos >= |s.items| then Stop(Suspended)
      else
        match s.items[pos]
        case EndOfStream => Stop(if s.error.Some? then Raised else Ended)
        case Chunk(raw) =>
          match normalize(raw)
          case None => Stop(Raised)
          case Some(chunk) => Say(Delta(chunk), pos + 1)
  }

  function Emit(keys: DirectionKeys, counter: nat, s: Worker.Stream, pos: nat, ticks: seq<Tick>,
                normalize: Normalize): Emission
    decreases |ticks|, 1
  {
    if ticks == [] then Emission([], Suspended, keys, counter)
    else
      var k, c := After(keys, ticks[0]), counter + ticks[0].gap;
      match Pick(s, pos, ticks[0].event, normalize)
      case Stop(ending) => Emission([], ending, k, c)
      case Say(message, next) => EmitOne(k, c, message, s, next, ticks, normalize)
  }

  /** Seal one message under the next counter; past 64 bits sealing raises and the stream breaks off. */
  function EmitOne(k: DirectionKeys, c: nat, message: Message, s: Worker.Stream, pos: nat, ticks: seq<Tick>,
                   normalize: Normalize): Emission
    requires ticks != []
    decreases |ticks|, 0
  {
    if c + 1 >= COUNTER_LIMIT then Emission([], Raised, k, c + 1)
    else
      var rest := Emit(k, c + 1, s, pos, ticks[1..], normalize);
      Emission([Sent(k, c + 1, message)] + rest.sent, rest.ending, rest.keys, rest.counter)
  }

  /** The two lines of one event. */
  function Frame(ctx: Context, sent: Sent): seq<string> {
    var body := ctx.codec.dump(sent.message);
    match Seal(ctx.encrypt, map[], sent.keys, sent.counter, ctx.id, ctx.method_, ctx.path, body)
    case Ok((wire, _)) => ["data: " + ctx.codec.encode(wire), ""]
    case Err(_) => []
  }

  const END_MARKER := ["data: " + DONE, ""]

  function Frames(ctx: Context, sent: seq<Sent>): seq<string> {
    if sent == [] then [] else Frame(ctx, sent[0]) + Frames(ctx, sent[1..])
  }

  function Lines(ctx: Context, e: Emission): seq<string> {
    Frames(ctx, e.sent) + (if e.ending == Ended then END_MARKER else [])
  }

  function LogOne(ctx: Context, log: SealLog, sent: Sent): SealLog {
    if sent.counter >= COUNTER_LIMIT then log
    else
      var body := ctx.codec.dump(sent.message);
      log[SealQuery(ctx.encrypt, sent.keys, sent.counter, ctx.id, ctx.method_, ctx.path, body) := body]
  }

  function LogAll(ctx: Context, log: SealLog, sent: seq<Sent>): SealLog
    decreases |sent|
  {
    if sent == [] then log else LogAll(ctx, LogOne(ctx, log, sent[0]), sent[1..])
  }

  lemma {:induction false} FramesSnoc(ctx: Context, sent: seq<Sent>, x: Sent)
    ensures Frames(ctx, sent + [x]) == Frames(ctx, sent) + Frame(ctx, x)
  {
    if sent == [] {
      assert [x][1..] == [] && sent + [x] == [x];
    } else {
      assert (sent + [x])[1..] == sent[1..] + [x];
      FramesSnoc(ctx, sent[1..], x);
    }
  }

  lemma {:induction false} LogAllSnoc(ctx: Context, log: SealLog, sent: seq<Sent>, x: Sent)
    ensures LogAll(ctx, log, sent + [x]) == LogOne(ctx, LogAll(ctx, log, sent), x)
    decreases |sent|
  {
    if sent == [] {
      assert [x][1..] == [] && sent + [x] == [x];
    } else {
      assert (sent + [x])[1..] == sent[1..] + [x];
      LogAllSnoc(ctx, LogOne(ctx, log, sent[0]), sent[1..], x);
    }
  }

  /** Seal one message on the session's next counter, under the keys it has now, and frame it as an event. */
  method SealChunk(session: Session, ctx: Context, log: SealLog, message: Message)
    returns (r: Result<(seq<string>, SealLog), SealError>)
    requires ctx.id == session.id
    modifies session`s2cCounter
    ensures session.s2cCounter == old(session.s2cCounter) + 1
    ensures r.Err? <==> session.s2cCounter >= COUNTER_LIMIT
    ensures r.Ok? ==> r.value == (Frame(ctx, Sent(session.s2c, session.s2cCounter, message)),
                                  LogOne(ctx, log, Sent(session.s2c, session.s2cCounter, message)))
  {
    var body := ctx.codec.dump(message);
    session.s2cCounter := session.s2cCounter + 1;
    var sealed := Seal(ctx.encrypt, log, session.s2c, session.s2cCounter, session.id, ctx.method_, ctx.path, body);
    if sealed.Err? {
      return Err(sealed.error);
    }
    return Ok((["data: " + ctx.codec.encode(sealed.value.0), ""], sealed.value.1));
  }

  /** What was sent so far, followed by what the rest of the loop sends. */
  predicate Continues(whole: Emission, sent: seq<Sent>, rest: Emission) {
    whole == Emission(sent + rest.sent, rest.ending, rest.keys, rest.counter)
  }

  lemma ContinueOne(whole: Emission, sent: seq<Sent>, k: DirectionKeys, c: nat, message: Message, s: Worker.Stream,
                    pos: nat, ticks: seq<Tick>, normalize: Normalize)
    requires ticks != [] && c + 1 < COUNTER_LIMIT
    requires Continues(whole, sent, EmitOne(k, c, message, s, pos, ticks, normalize))
    ensures Continues(whole, sent + [Sent(k, c + 1, message)], Emit(k, c + 1, s, pos, ticks[1..], normalize))
  {
    var rest := Emit(k, c + 1, s, pos, ticks[1..], normalize).sent;
    assert sent + ([Sent(k, c + 1, message)] + rest) == sent + [Sent(k, c + 1, message)] + rest;
  }

  /** What other tasks do to the session while the encoder waits. */
  method Meanwhile(session: Session, tick: Tick)
    modifies session`s2cCounter, session`closed, session`c2s, session`s2c
    ensures session.s2cCounter == old(session.s2cCounter) + tick.gap && session.s2c == After(old(session.s2c), tick)
  {
    session.s2cCounter := session.s2cCounter + tick.gap;
    if tick.closes {
      session.Zeroize();
    }
  }

  /** Race the next chunk against the keepalive timer. */
  method NextMessage(s: Worker.Stream, pos: nat, event: Event, normalize: Normalize) returns (choice: Choice)
    ensures choice == Pick(s, pos, event, normalize)
  {
    if event == Cancelled {
      return Stop(Ended);
    }
    if event == Timeout {
      return Say(Keepalive, pos);
    }
    if pos >= |s.items| {
      return Stop(Suspended);
    }
    var item := s.items[pos];
    if item.EndOfStream? {
      return Stop(if s.error.Some? then Raised else Ended);
    }
    var chunk := normalize(item.raw);
    if chunk.None? {
      return Stop(Raised);
    }
    return Say(Delta(chunk.value), pos + 1);
  }

  /** The encoder's loop, until the stream ends, raises or is cancelled. */
  method StreamChatEnvelopes(session: Session, ctx: Context, log: SealLog, s: Worker.Stream, ticks: seq<Tick>,
                             normalize: Normalize)
    returns (lines: seq<string>, ending: Ending, log': SealLog)
    requires ctx.id == session.id
    modifies session`s2cCounter, session`closed, session`c2s, session`s2c
    ensures var e := Emit(old(session.s2c), old(session.s2cCounter), s, 0, ticks, normalize);
            && session.s2cCounter == e.counter && session.s2c == e.keys && ending == e.ending
            && lines == Lines(ctx, e) && log' == LogAll(ctx, log, e.sent)
            && SendsAll(e, old(session.s2cCounter), s, ticks, normalize)
  {
    ghost var whole := Emit(session.s2c, session.s2cCounter, s, 0, ticks, normalize);
    ghost var sent: seq<Sent> := [];
    lines, ending, log' := [], Suspended, log;
    var pos, i := 0, 0;
    while i < |ticks|
      invariant i <= |ticks| && ending == Suspended
      invariant lines == Frames(ctx, sent) && log' == LogAll(ctx, log, sent)
      invariant Continues(whole, sent, Emit(session.s2c, session.s2cCounter, s, pos, ticks[i..], normalize))
    {
      ghost var left := ticks[i..];
      assert left[0] == ticks[i] && left[1..] == ticks[i + 1..];
      Meanwhile(session, ticks[i]);
      var choice := NextMessage(s, pos, ticks[i].event, normalize);
      i := i + 1;
      if choice.Stop? {
        ending := choice.ending;
        break;
      }
      pos := choice.pos;
      ghost var k, c := session.s2c, session.s2cCounter;
      assert Continues(whole, sent, EmitOne(k, c, choice.message, s, pos, left, normalize));
      var sealed := SealChunk(session, ctx, log', choice.message);
      if sealed.Err? {
        ending := Raised;
        break;
      }
      ghost var x := Sent(k, c + 1, choice.message);
      ContinueOne(whole, sent, k, c, choice.message, s, pos, left, normalize);
      FramesSnoc(ctx, sent, x);
      LogAllSnoc(ctx, log, sent, x);
      lines, log', sent := lines + sealed.value.0, sealed.value.1, sent + [x];
    }
    assert ending == whole.ending && sent == whole.sent;
    if ending == Ended {
      lines := lines + END_MARKER;
    }
    AlwaysSends(old(session.s2c), old(session.s2cCounter), s, ticks, normalize);
  }

  // ----- what is emitted -----

  function Deltas(sent: seq<Sent>): seq<ChatChunk> {
    if sent == [] then []
    else (if sent[0].message.Delta? then [sent[0].message.chunk] else []) + Deltas(sent[1..])
  }

  /** Counters of one stream rise strictly from the one before it. */
  predicate Rising(sent: seq<Sent>, above: nat) {
    && (forall i :: 0 <= i < |sent| ==> above < sent[i].counter < COUNTER_LIMIT)
    && (forall i, j :: 0 <= i < j < |sent| ==> sent[i].counter < sent[j].counter)
  }

  predicate NeverCancelled(ticks: seq<Tick>) {
    forall i :: 0 <= i < |ticks| ==> ticks[i].event != Cancelled
  }

  function Finished(chunks: seq<Worker.Raw>, error: Option<string>): Worker.Stream {
    Worker.Stream(Worker.Wrap(chunks) + [Worker.EndOfStream], error)
  }

  /** From position `pos`: the chunks sent are those of the stream, in order; how many follows from the ending. */
  predicate Faithful(e: Emission, chunks: seq<Worker.Raw>, error: Option<string>, pos: nat, cancelled: bool,
                     normalize: Normalize)
  {
    var n := pos + |Deltas(e.sent)|;
    && n <= |chunks|
    && (forall i :: 0 <= i < |Deltas(e.sent)| ==> normalize(chunks[pos + i]) == Some(Deltas(e.sent)[i]))
    && (e.ending == Ended && !cancelled ==> n == |chunks| && error.None?)
    && (e.ending == Raised ==> e.counter >= COUNTER_LIMIT || (n == |chunks| && error.Some?)
                               || (n < |chunks| && normalize(chunks[n]).None?))
  }

  lemma FaithfulKeepalive(k: DirectionKeys, c: nat, rest: Emission, chunks: seq<Worker.Raw>, error: Option<string>, pos: nat,
                          cancelled: bool, normalize: Normalize)
    requires Faithful(rest, chunks, error, pos, cancelled, normalize)
    ensures Faithful(Emission([Sent(k, c, Keepalive)] + rest.sent, rest.ending, rest.keys, rest.counter),
                     chunks, error, pos, cancelled, normalize)
  {
    DeltasCons(Sent(k, c, Keepalive), rest.sent);
  }

  lemma FaithfulDelta(k: DirectionKeys, c: nat, chunk: ChatChunk, rest: Emission, chunks: seq<Worker.Raw>, error: Option<string>,
                      pos: nat, cancelled: bool, normalize: Normalize)
    requires pos < |chunks| && normalize(chunks[pos]) == Some(chunk)
    requires Faithful(rest, chunks, error, pos + 1, cancelled, normalize)
    ensures Faithful(Emission([Sent(k, c, Delta(chunk))] + rest.sent, rest.ending, rest.keys, rest.counter),
                     chunks, error, pos, cancelled, normalize)
  {
    DeltasCons(Sent(k, c, Delta(chunk)), rest.sent);
    var ds := Deltas(rest.sent);
    assert forall i :: 0 < i <= |ds| ==> ([chunk] + ds)[i] == ds[i - 1] && pos + i == pos + 1 + (i - 1);
  }

  lemma ItemAt(chunks: seq<Worker.Raw>, error: Option<string>, pos: nat)
    requires pos <= |chunks|
    ensures var items := Finished(chunks, error).items;
            |items| == |chunks| + 1 && items[pos] == if pos < |chunks| then Worker.Chunk(chunks[pos]) else Worker.EndOfStream
  {
  }

  lemma {:induction false} EmitFaithful(keys: DirectionKeys, counter: nat, chunks: seq<Worker.Raw>, error: Option<string>, pos: nat,
                                        ticks: seq<Tick>, cancelled: bool, normalize: Normalize)
    requires pos <= |chunks| && (cancelled || NeverCancelled(ticks))
    ensures Faithful(Emit(keys, counter, Finished(chunks, error), pos, ticks, normalize),
                     chunks, error, pos, cancelled, normalize)
    decreases |ticks|, 1
  {
    if ticks != [] {
      ItemAt(chunks, error, pos);
      var k, c := After(keys, ticks[0]), counter + ticks[0].gap;
      if ticks[0].event == Timeout {
        KeepaliveFaithful(k, c, chunks, error, pos, ticks, cancelled, normalize);
      } else if ticks[0].event == Ready && pos < |chunks| && normalize(chunks[pos]).Some? {
        DeltaFaithful(k, c, chunks, error, pos, ticks, cancelled, normalize);
      }
    }
  }

  lemma {:induction false} KeepaliveFaithful(k: DirectionKeys, c: nat, chunks: seq<Worker.Raw>, error: Option<string>, pos: nat,
                                             ticks: seq<Tick>, cancelled: bool, normalize: Normalize)
    requires pos <= |chunks| && ticks != [] && (cancelled || NeverCancelled(ticks))
    ensures Faithful(EmitOne(k, c, Keepalive, Finished(chunks, error), pos, ticks, normalize),
                     chunks, error, pos, cancelled, normalize)
    decreases |ticks|, 0
  {
    EmitFaithful(k, c + 1, chunks, error, pos, ticks[1..], cancelled, normalize);
    FaithfulKeepalive(k, c + 1, Emit(k, c + 1, Finished(chunks, error), pos, ticks[1..], normalize), chunks, error, pos,
                      cancelled, normalize);
  }

  lemma {:induction false} DeltaFaithful(k: DirectionKeys, c: nat, chunks: seq<Worker.Raw>, error: Option<string>, pos: nat,
                                         ticks: seq<Tick>, cancelled: bool, normalize: Normalize)
    requires pos < |chunks| && ticks != [] && (cancelled || NeverCancelled(ticks)) && normalize(chunks[pos]).Some?
    ensures Faithful(EmitOne(k, c, Delta(normalize(chunks[pos]).value), Finished(chunks, error), pos + 1, ticks, normalize),
                     chunks, error, pos, cancelled, normalize)
    decreases |ticks|, 0
  {
    EmitFaithful(k, c + 1, chunks, error, pos + 1, ticks[1..], cancelled, normalize);
    FaithfulDelta(k, c + 1, normalize(chunks[pos]).value, Emit(k, c + 1, Finished(chunks, error), pos + 1, ticks[1..], normalize),
                  chunks, error, pos, cancelled, normalize);
  }

  lemma DeltasCons(x: Sent, sent: seq<Sent>)
    ensures Deltas([x] + sent) == (if x.message.Delta? then [x.message.chunk] else []) + Deltas(sent)
  {
    assert ([x] + sent)[1..] == sent;
  }

  lemma {:induction false} EmitRising(keys: DirectionKeys, counter: nat, s: Worker.Stream, pos: nat, ticks: seq<Tick>,
                                      normalize: Normalize)
    ensures var e := Emit(keys, counter, s, pos, ticks, normalize); Rising(e.sent, counter) && e.counter >= counter
    decreases |ticks|, 1
  {
    if ticks != [] {
      var choice := Pick(s, pos, ticks[0].event, normalize);
      if choice.Say? {
        EmitOneRising(After(keys, ticks[0]), counter + ticks[0].gap, choice.message, s, choice.pos, ticks, normalize);
      }
    }
  }

  lemma {:induction false} EmitOneRising(k: DirectionKeys, c: nat, message: Message, s: Worker.Stream, pos: nat,
                                         ticks: seq<Tick>, normalize: Normalize)
    requires ticks != []
    ensures var e := EmitOne(k, c, message, s, pos, ticks, normalize); Rising(e.sent, c) && e.counter >= c
    decreases |ticks|, 0
  {
    if c + 1 < COUNTER_LIMIT {
      EmitRising(k, c + 1, s, pos, ticks[1..], normalize);
    }
  }

  // ----- a session closed on the way -----

  predicate NeverClosed(ticks: seq<Tick>) {
    forall i :: 0 <= i < |ticks| ==> !ticks[i].closes
  }

  /** The messages sealed before the session was closed: the longest beginning under the keys `keys`. */
  function Live(keys: DirectionKeys, sent: seq<Sent>): (live: seq<Sent>)
    ensures live <= sent && forall x :: x in live ==> x.keys == keys
    ensures |live| < |sent| ==> sent[|live|].keys != keys
  {
    if sent == [] || sent[0].keys != keys then [] else [sent[0]] + Live(keys, sent[1..])
  }

  /** One switch, from the session's keys to the zeroed ones, and none at all if the session stays open. */
  predicate SwitchOnce(keys: DirectionKeys, sent: seq<Sent>, open: bool) {
    && (forall i :: 0 <= i < |sent| ==> sent[i].keys == if i < |Live(keys, sent)| then keys else Zeroed(keys))
    && (open ==> Live(keys, sent) == sent)
  }

  /** Every message is sealed under the session's keys until it is closed, and under the zeroed ones ever after. */
  lemma {:induction false} EmitKeys(keys: DirectionKeys, counter: nat, s: Worker.Stream, pos: nat, ticks: seq<Tick>,
                                    normalize: Normalize)
    ensures SwitchOnce(keys, Emit(keys, counter, s, pos, ticks, normalize).sent, NeverClosed(ticks))
    decreases |ticks|, 1
  {
    if ticks != [] {
      var choice := Pick(s, pos, ticks[0].event, normalize);
      if choice.Say? {
        EmitOneKeys(keys, counter + ticks[0].gap, choice.message, s, choice.pos, ticks, normalize);
      }
    }
  }

  lemma {:induction false} EmitOneKeys(keys: DirectionKeys, c: nat, message: Message, s: Worker.Stream, pos: nat,
                                       ticks: seq<Tick>, normalize: Normalize)
    requires ticks != []
    ensures SwitchOnce(keys, EmitOne(After(keys, ticks[0]), c, message, s, pos, ticks, normalize).sent, NeverClosed(ticks))
    decreases |ticks|, 0
  {
    if c + 1 < COUNTER_LIMIT {
      var k := After(keys, ticks[0]);
      EmitKeys(k, c + 1, s, pos, ticks[1..], normalize);
      SwitchCons(keys, ticks[0], c + 1, message, Emit(k, c + 1, s, pos, ticks[1..], normalize).sent, NeverClosed(ticks[1..]));
      OpenTail(ticks);
    }
  }

  lemma OpenTail(ticks: seq<Tick>)
    requires ticks != []
    ensures NeverClosed(ticks) <==> NeverClosed(ticks[1..]) && !ticks[0].closes
  {
    assert ticks == [ticks[0]] + ticks[1..];
  }

  lemma SwitchCons(keys: DirectionKeys, tick: Tick, c: nat, message: Message, rest: seq<Sent>, open: bool)
    requires SwitchOnce(After(keys, tick), rest, open)
    ensures SwitchOnce(keys, [Sent(After(keys, tick), c, message)] + rest, open && !tick.closes)
  {
    var sent := [Sent(After(keys, tick), c, message)] + rest;
    assert sent[1..] == rest;
    if Zeroed(keys) == keys {
      AllLive(keys, sent);
    }
  }

  lemma {:induction false} AllLive(keys: DirectionKeys, sent: seq<Sent>)
    requires forall i :: 0 <= i < |sent| ==> sent[i].keys == keys
    ensures Live(keys, sent) == sent
  {
    if sent != [] {
      AllLive(keys, sent[1..]);
    }
  }

  /** The live messages are those that the turns before the first close emit. */
  lemma {:induction false} LiveBeforeClose(keys: DirectionKeys, counter: nat, s: Worker.Stream, pos: nat, ticks: seq<Tick>,
                                           j: nat, normalize: Normalize)
    requires keys.key != ZERO_KEY && j < |ticks| && ticks[j].closes && forall i :: 0 <= i < j ==> !ticks[i].closes
    ensures Live(keys, Emit(keys, counter, s, pos, ticks, normalize).sent)
            == Emit(keys, counter, s, pos, ticks[..j], normalize).sent
    decreases |ticks|, 1
  {
    if j == 0 {
      assert ticks[..0] == [];
      NoneLive(keys, counter, s, pos, ticks, normalize);
    } else {
      assert ticks[..j][0] == ticks[0];
      var choice := Pick(s, pos, ticks[0].event, normalize);
      if choice.Say? {
        OneBeforeClose(keys, counter + ticks[0].gap, choice.message, s, choice.pos, ticks, j, normalize);
      }
    }
  }

  lemma NoneLive(keys: DirectionKeys, counter: nat, s: Worker.Stream, pos: nat, ticks: seq<Tick>, normalize: Normalize)
    requires keys.key != ZERO_KEY && ticks != [] && ticks[0].closes
    ensures Live(keys, Emit(keys, counter, s, pos, ticks, normalize).sent) == []
  {
  }

  lemma {:induction false} OneBeforeClose(keys: DirectionKeys, c: nat, message: Message, s: Worker.Stream, pos: nat,
                                          ticks: seq<Tick>, j: nat, normalize: Normalize)
    requires keys.key != ZERO_KEY && 0 < j < |ticks| && ticks[j].closes && forall i :: 0 <= i < j ==> !ticks[i].closes
    ensures Live(keys, EmitOne(keys, c, message, s, pos, ticks, normalize).sent)
            == EmitOne(keys, c, message, s, pos, ticks[..j], normalize).sent
    decreases |ticks|, 0
  {
    if c + 1 < COUNTER_LIMIT {
      var tail, cut := ticks[1..], ticks[..j];
      assert cut[1..] == tail[..j - 1];
      LiveBeforeClose(keys, c + 1, s, pos, tail, j - 1, normalize);
      var rest := Emit(keys, c + 1, s, pos, ticks[1..], normalize).sent;
      assert ([Sent(keys, c + 1, message)] + rest)[1..] == rest;
    }
  }

  // ----- what must be emitted -----

  function Messages(sent: seq<Sent>): seq<Message> {
    if sent == [] then [] else [sent[0].message] + Messages(sent[1..])
  }

  /** What is said, keepalives left out. */
  function ChunksOf(ms: seq<Message>): seq<ChatChunk> {
    if ms == [] then [] else (if ms[0].Delta? then [ms[0].chunk] else []) + ChunksOf(ms[1..])
  }

  function Readies(ticks: seq<Tick>): nat {
    if ticks == [] then 0 else (if ticks[0].event == Ready then 1 else 0) + Readies(ticks[1..])
  }

  function Timeouts(ticks: seq<Tick>): nat {
    if ticks == [] then 0 else (if ticks[0].event == Timeout then 1 else 0) + Timeouts(ticks[1..])
  }

  function Gaps(ticks: seq<Tick>): nat {
    if ticks == [] then 0 else ticks[0].gap + Gaps(ticks[1..])
  }

  /** Every chunk validates. */
  predicate Normalised(chunks: seq<Worker.Raw>, ds: seq<ChatChunk>, normalize: Normalize) {
    |ds| == |chunks| && forall i :: 0 <= i < |chunks| ==> normalize(chunks[i]) == Some(ds[i])
  }

  /** The counters stay within 64 bits. */
  predicate InRange(counter: nat, ticks: seq<Tick>) {
    counter + Gaps(ticks) + |ticks| < COUNTER_LIMIT
  }

  /** A keepalive for every timeout, the next chunk for every wake-up by a chunk. */
  function Script(ds: seq<ChatChunk>, pos: nat, ticks: seq<Tick>): (ms: seq<Message>)
    requires NeverCancelled(ticks) && pos + Readies(ticks) <= |ds|
    ensures |ms| == |ticks|
    decreases |ticks|
  {
    if ticks == [] then []
    else if ticks[0].event == Timeout then [Keepalive] + Script(ds, pos, ticks[1..])
    else [Delta(ds[pos])] + Script(ds, pos + 1, ticks[1..])
  }

  function Keepalives(ms: seq<Message>): nat {
    if ms == [] then 0 else (if ms[0] == Keepalive then 1 else 0) + Keepalives(ms[1..])
  }

  /** The script has the next chunks in order and one keepalive for each timeout. */
  lemma {:induction false} ScriptCounts(ds: seq<ChatChunk>, pos: nat, ticks: seq<Tick>)
    requires NeverCancelled(ticks) && pos + Readies(ticks) <= |ds|
    ensures ChunksOf(Script(ds, pos, ticks)) == ds[pos..pos + Readies(ticks)]
    ensures Keepalives(Script(ds, pos, ticks)) == Timeouts(ticks)
    decreases |ticks|
  {
    if ticks != [] {
      var ready := ticks[0].event == Ready;
      var next := if ready then pos + 1 else pos;
      ScriptCounts(ds, next, ticks[1..]);
      var rest := Script(ds, next, ticks[1..]);
      assert Script(ds, pos, ticks)[1..] == rest;
      assert ready ==> [ds[pos]] + ds[pos + 1..pos + Readies(ticks)] == ds[pos..pos + Readies(ticks)];
    }
  }

  /** Each message is sealed under the counter that the turns so far have reached. */
  predicate CountersOf(sent: seq<Sent>, counter: nat, ticks: seq<Tick>) {
    |sent| == |ticks| && forall i :: 0 <= i < |sent| ==> sent[i].counter == counter + Gaps(ticks[..i + 1]) + i + 1
  }

  function Said(ds: seq<ChatChunk>, pos: nat, event: Event): Message
    requires event == Ready ==> pos < |ds|
  {
    if event == Ready then Delta(ds[pos]) else Keepalive
  }

  function NextPos(pos: nat, event: Event): nat {
    if event == Ready then pos + 1 else pos
  }

  lemma OneTurn(keys: DirectionKeys, counter: nat, chunks: seq<Worker.Raw>, error: Option<string>, pos: nat, ticks: seq<Tick>,
                normalize: Normalize, ds: seq<ChatChunk>)
    requires ticks != [] && ticks[0].event != Cancelled && Normalised(chunks, ds, normalize)
    requires pos + (if ticks[0].event == Ready then 1 else 0) <= |chunks| && counter + ticks[0].gap + 1 < COUNTER_LIMIT
    ensures var k, c := After(keys, ticks[0]), counter + ticks[0].gap + 1;
            var e := Emit(k, c, Finished(chunks, error), NextPos(pos, ticks[0].event), ticks[1..], normalize);
            Emit(keys, counter, Finished(chunks, error), pos, ticks, normalize)
            == Emission([Sent(k, c, Said(ds, pos, ticks[0].event))] + e.sent, e.ending, e.keys, e.counter)
  {
    ItemAt(chunks, error, pos);
    assert Pick(Finished(chunks, error), pos, ticks[0].event, normalize)
           == Say(Said(ds, pos, ticks[0].event), NextPos(pos, ticks[0].event));
  }

  /** Turns that only time out or find a chunk send the script, and the loop goes on from there. */
  lemma {:induction false} EmitThen(keys: DirectionKeys, counter: nat, chunks: seq<Worker.Raw>, error: Option<string>, pos: nat,
                                    ticks: seq<Tick>, rest: seq<Tick>, normalize: Normalize, ds: seq<ChatChunk>)
    returns (sent: seq<Sent>, k: DirectionKeys, c: nat)
    requires NeverCancelled(ticks) && pos + Readies(ticks) <= |chunks| && InRange(counter, ticks)
    requires Normalised(chunks, ds, normalize)
    ensures Messages(sent) == Script(ds, pos, ticks) && CountersOf(sent, counter, ticks)
    ensures Continues(Emit(keys, counter, Finished(chunks, error), pos, ticks + rest, normalize), sent,
                      Emit(k, c, Finished(chunks, error), pos + Readies(ticks), rest, normalize))
    decreases |ticks|, 1
  {
    var s := Finished(chunks, error);
    if ticks == [] {
      sent, k, c := [], keys, counter;
      assert ticks + rest == rest;
      var e := Emit(k, c, s, pos, rest, normalize);
      assert [] + e.sent == e.sent;
    } else {
      sent, k, c := TurnThen(keys, counter, chunks, error, pos, ticks, rest, normalize, ds);
    }
  }

  lemma {:induction false} TurnThen(keys: DirectionKeys, counter: nat, chunks: seq<Worker.Raw>, error: Option<string>, pos: nat,
                                    ticks: seq<Tick>, rest: seq<Tick>, normalize: Normalize, ds: seq<ChatChunk>)
    returns (sent: seq<Sent>, k: DirectionKeys, c: nat)
    requires ticks != [] && NeverCancelled(ticks) && pos + Readies(ticks) <= |chunks| && InRange(counter, ticks)
    requires Normalised(chunks, ds, normalize)
    ensures Messages(sent) == Script(ds, pos, ticks) && CountersOf(sent, counter, ticks)
    ensures Continues(Emit(keys, counter, Finished(chunks, error), pos, ticks + rest, normalize), sent,
                      Emit(k, c, Finished(chunks, error), pos + Readies(ticks), rest, normalize))
    decreases |ticks|, 0
  {
    var all, t := ticks + rest, ticks[0];
    assert all[0] == t && all[1..] == ticks[1..] + rest;
    OneTurn(keys, counter, chunks, error, pos, all, normalize, ds);
    var k1, c1, next := After(keys, t), counter + t.gap + 1, NextPos(pos, t.event);
    var later: seq<Sent>;
    later, k, c := EmitThen(k1, c1, chunks, error, next, ticks[1..], rest, normalize, ds);
    var x := Sent(k1, c1, Said(ds, pos, t.event));
    ContinuesCons(Emit(keys, counter, Finished(chunks, error), pos, all, normalize),
                  Emit(k1, c1, Finished(chunks, error), next, ticks[1..] + rest, normalize), later,
                  Emit(k, c, Finished(chunks, error), pos + Readies(ticks), rest, normalize), x);
    CountersCons(later, c1, x.message, k1, ticks, counter);
    MessagesCons(x, later);
    sent := [x] + later;
  }

  lemma MessagesCons(x: Sent, sent: seq<Sent>)
    ensures Messages([x] + sent) == [x.message] + Messages(sent)
  {
    assert ([x] + sent)[1..] == sent;
  }

  lemma ContinuesCons(whole: Emission, one: Emission, sent: seq<Sent>, tail: Emission, x: Sent)
    requires Continues(one, sent, tail) && whole == Emission([x] + one.sent, one.ending, one.keys, one.counter)
    ensures Continues(whole, [x] + sent, tail)
  {
    assert [x] + (sent + tail.sent) == [x] + sent + tail.sent;
  }

  lemma CountersCons(sent: seq<Sent>, c: nat, message: Message, k: DirectionKeys, ticks: seq<Tick>, counter: nat)
    requires ticks != [] && c == counter + ticks[0].gap + 1 && CountersOf(sent, c, ticks[1..])
    ensures CountersOf([Sent(k, c, message)] + sent, counter, ticks)
  {
    var all := [Sent(k, c, message)] + sent;
    forall i | 0 <= i < |all|
      ensures all[i].counter == counter + Gaps(ticks[..i + 1]) + i + 1
    {
      assert ticks[..i + 1][1..] == ticks[1..][..i] && ticks[..i + 1][0] == ticks[0];
      assert i > 0 ==> all[i] == sent[i - 1];
    }
  }

  // ----- whole streams -----

  /** Where the encoder stops for good: at a cancellation, or at the wake-up behind the last chunk. */
  predicate StopsAt(n: nat, ticks: seq<Tick>, j: nat) {
    && j <= |ticks| && NeverCancelled(ticks[..j]) && Readies(ticks[..j]) <= n
    && (j < |ticks| ==> ticks[j].event == Cancelled || (ticks[j].event == Ready && Readies(ticks[..j]) == n))
  }

  function EndingAt(ticks: seq<Tick>, j: nat, error: Option<string>): Ending {
    if j >= |ticks| then Suspended
    else if ticks[j].event == Ready && error.Some? then Raised
    else Ended
  }

  lemma {:induction false} ReadiesSplit(a: seq<Tick>, b: seq<Tick>)
    ensures Readies(a + b) == Readies(a) + Readies(b) && Gaps(a + b) == Gaps(a) + Gaps(b)
  {
    if a == [] {
      assert a + b == b;
    } else {
      assert (a + b)[1..] == a[1..] + b;
      ReadiesSplit(a[1..], b);
    }
  }

  /** There is always one such place, or the turns run out before. */
  lemma {:induction false} StopExists(n: nat, ticks: seq<Tick>) returns (j: nat)
    ensures StopsAt(n, ticks, j)
  {
    if ticks == [] {
      j := 0;
    } else {
      var front, t := ticks[..|ticks| - 1], ticks[|ticks| - 1];
      j := StopExists(n, front);
      assert front[..j] == ticks[..j];
      if j == |front| && t.event != Cancelled && !(t.event == Ready && Readies(front) == n) {
        j := |ticks|;
        assert ticks == front + [t] && front[..|front|] == front && ticks[..j] == ticks;
        ReadiesSplit(front, [t]);
      }
    }
  }

  /**
   * The encoder sends the script up to the place where it stops, no less and no more: the next chunk for every wake-up by
   * a chunk, a keepalive for every timeout, each under the counter its turns have reached. It ends there as the source
   * says: normally at a cancellation or behind the last chunk, raising if the generator had raised.
   */
  lemma EncoderSends(keys: DirectionKeys, counter: nat, chunks: seq<Worker.Raw>, error: Option<string>, ticks: seq<Tick>,
                     normalize: Normalize, ds: seq<ChatChunk>, j: nat)
    requires Normalised(chunks, ds, normalize) && StopsAt(|chunks|, ticks, j) && InRange(counter, ticks[..j])
    ensures var e := Emit(keys, counter, Finished(chunks, error), 0, ticks, normalize);
            && Messages(e.sent) == Script(ds, 0, ticks[..j]) && CountersOf(e.sent, counter, ticks[..j])
            && ChunksOf(Messages(e.sent)) == ds[..Readies(ticks[..j])]
            && Keepalives(Messages(e.sent)) == Timeouts(ticks[..j])
            && e.ending == EndingAt(ticks, j, error)
  {
    var before, rest := ticks[..j], ticks[j..];
    assert ticks == before + rest;
    var sent, k, c := EmitThen(keys, counter, chunks, error, 0, before, rest, normalize, ds);
    ItemAt(chunks, error, Readies(before));
    var tail := Emit(k, c, Finished(chunks, error), Readies(before), rest, normalize);
    assert tail.sent == [] && tail.ending == EndingAt(ticks, j, error);
    assert sent + [] == sent;
    ScriptCounts(ds, 0, before);
  }

  /** What an emission holds is the script up to the place where the encoder stops, if every chunk validates. */
  ghost predicate SendsAll(e: Emission, counter: nat, s: Worker.Stream, ticks: seq<Tick>, normalize: Normalize) {
    forall chunks, error, ds, j: nat ::
      s == Finished(chunks, error) && Normalised(chunks, ds, normalize) && StopsAt(|chunks|, ticks, j) && InRange(counter, ticks[..j]) ==>
        && Messages(e.sent) == Script(ds, 0, ticks[..j]) && CountersOf(e.sent, counter, ticks[..j])
        && e.ending == EndingAt(ticks, j, error)
  }

  lemma AlwaysSends(keys: DirectionKeys, counter: nat, s: Worker.Stream, ticks: seq<Tick>, normalize: Normalize)
    ensures SendsAll(Emit(keys, counter, s, 0, ticks, normalize), counter, s, ticks, normalize)
  {
    forall chunks, error, ds, j: nat |
      s == Finished(chunks, error) && Normalised(chunks, ds, normalize) && StopsAt(|chunks|, ticks, j) && InRange(counter, ticks[..j])
      ensures var e := Emit(keys, counter, s, 0, ticks, normalize);
              && Messages(e.sent) == Script(ds, 0, ticks[..j]) && CountersOf(e.sent, counter, ticks[..j])
              && e.ending == EndingAt(ticks, j, error)
    {
      EncoderSends(keys, counter, chunks, error, ticks, normalize, ds, j);
    }
  }

  /** Without a cancellation: as many chunks as there were wake-ups, up to all of them. */
  lemma ChunksSent(keys: DirectionKeys, counter: nat, chunks: seq<Worker.Raw>, error: Option<string>, ticks: seq<Tick>,
                   normalize: Normalize, ds: seq<ChatChunk>)
    requires Normalised(chunks, ds, normalize) && NeverCancelled(ticks) && InRange(counter, ticks)
    ensures var e := Emit(keys, counter, Finished(chunks, error), 0, ticks, normalize);
            && ChunksOf(Messages(e.sent)) == (if Readies(ticks) <= |ds| then ds[..Readies(ticks)] else ds)
            && (Readies(ticks) <= |ds| ==> e.ending == Suspended && Keepalives(Messages(e.sent)) == Timeouts(ticks))
            && (Readies(ticks) > |ds| ==> e.ending == if error.Some? then Raised else Ended)
  {
    var j := StopExists(|chunks|, ticks);
    assert ticks == ticks[..j] + ticks[j..];
    ReadiesSplit(ticks[..j], ticks[j..]);
    EncoderSends(keys, counter, chunks, error, ticks, normalize, ds, j);
    assert ticks[..|ticks|] == ticks && ds[..|ds|] == ds;
  }
}
