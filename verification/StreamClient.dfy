/** The client's event-stream reader, and what reaches it of a generator's chunks. */
module StreamClient {
  import opened Bytes
  import opened Wire
  import opened Envelopes
  import opened ClientReplay
  import opened Streaming
  import Worker

  datatype ClientEnd = Complete | RanOut | BadBase64 | NotAuthenticated | Replayed | BadJson

  datatype Reading = Reading(yielded: seq<Message>, end: ClientEnd, memory: Memory)

  /** Blank lines, comments and anything that is not a data line. */
  predicate Skipped(line: string) {
    line == "" || ":" <= line || !("data:" <= line)
  }

  /** The counter of the envelope on a data line, if the envelope opens. */
  function CounterOf(ctx: Context, log: SealLog, data: string): Option<int> {
    if data == DONE || ctx.codec.decode(data).None? then None
    else
      match Open(log, ctx.direction, ctx.id, Upper(ctx.method_), ctx.path, ctx.codec.decode(data).value)
      case Err(_) => None
      case Ok((env, _)) => Some(env.counter)
  }

  /** One data line: the message it yields, or why the iteration ends there; the replay check follows opening. */
  function ReadData(ctx: Context, log: SealLog, m: Memory, data: string): (r: (Result<Message, ClientEnd>, Memory))
    ensures r.0.Ok? ==> CounterOf(ctx, log, data).Some?
  {
    if data == DONE then (Err(Complete), m)
    else
      match ctx.codec.decode(data)
      case None => (Err(BadBase64), m)
      case Some(raw) =>
        match Open(log, ctx.direction, ctx.id, Upper(ctx.method_), ctx.path, raw)
        case Err(_) => (Err(NotAuthenticated), m)
        case Ok((env, plaintext)) =>
          if env.counter in m.seen then (Err(Replayed), m)
          else
            var m' := CheckMemory(m, env.counter).1;
            if plaintext == [] then (Ok(Empty), m')
            else
              match ctx.codec.load(plaintext)
              case None => (Err(BadJson), m')
              case Some(message) => (Ok(message), m')
  }

  function ReadLines(ctx: Context, log: SealLog, m: Memory, lines: seq<string>): Reading
    decreases |lines|
  {
    if lines == [] then Reading([], RanOut, m)
    else if Skipped(lines[0]) then ReadLines(ctx, log, m, lines[1..])
    else
      var (r, m') := ReadData(ctx, log, m, Strip(lines[0][5..]));
      match r
      case Err(end) => Reading([], end, m')
      case Ok(message) =>
        var rest := ReadLines(ctx, log, m', lines[1..]);
        Reading([message] + rest.yielded, rest.end, rest.memory)
  }

  method ReceiveData(ctx: Context, log: SealLog, data: string, replay: ReplayClient) returns (r: Result<Message, ClientEnd>)
    requires replay.Valid()
    modifies replay
    ensures replay.Valid()
    ensures (r, Memory(replay.seen, replay.accepted)) == ReadData(ctx, log, old(Memory(replay.seen, replay.accepted)), data)
  {
    if data == DONE {
      return Err(Complete);
    }
    var raw := ctx.codec.decode(data);
    if raw.None? {
      return Err(BadBase64);
    }
    var unsealed := Open(log, ctx.direction, ctx.id, Upper(ctx.method_), ctx.path, raw.value);
    if unsealed.Err? {
      return Err(NotAuthenticated);
    }
    var unseen := replay.Check(unsealed.value.0.counter);
    if !unseen {
      return Err(Replayed);
    }
    var plaintext := unsealed.value.1;
    var message := if plaintext == [] then Some(Empty) else ctx.codec.load(plaintext);
    return if message.None? then Err(BadJson) else Ok(message.value);
  }

  /** What was yielded so far, followed by what the rest of the lines yield. */
  predicate Resumes(whole: Reading, yielded: seq<Message>, rest: Reading) {
    whole == Reading(yielded + rest.yielded, rest.end, rest.memory)
  }

  lemma ResumeData(whole: Reading, yielded: seq<Message>, ctx: Context, log: SealLog, m: Memory, lines: seq<string>)
    requires lines != [] && !Skipped(lines[0]) && Resumes(whole, yielded, ReadLines(ctx, log, m, lines))
    ensures var (r, m') := ReadData(ctx, log, m, Strip(lines[0][5..]));
            if r.Ok? then Resumes(whole, yielded + [r.value], ReadLines(ctx, log, m', lines[1..]))
            else whole == Reading(yielded, r.error, m')
  {
    var (r, m') := ReadData(ctx, log, m, Strip(lines[0][5..]));
    if r.Ok? {
      var rest := ReadLines(ctx, log, m', lines[1..]).yielded;
      assert yielded + ([r.value] + rest) == yielded + [r.value] + rest;
    } else {
      assert yielded + [] == yielded;
    }
  }

  method StreamRequest(ctx: Context, log: SealLog, lines: seq<string>, replay: ReplayClient)
    returns (yielded: seq<Message>, end: ClientEnd)
    requires replay.Valid()
    modifies replay
    ensures replay.Valid()
    ensures Reading(yielded, end, Memory(replay.seen, replay.accepted))
            == ReadLines(ctx, log, old(Memory(replay.seen, replay.accepted)), lines)
  {
    ghost var whole := ReadLines(ctx, log, Memory(replay.seen, replay.accepted), lines);
    yielded := [];
    for i := 0 to |lines|
      invariant replay.Valid()
      invariant Resumes(whole, yielded, ReadLines(ctx, log, Memory(replay.seen, replay.accepted), lines[i..]))
    {
      assert lines[i..][0] == lines[i] && lines[i..][1..] == lines[i + 1..];
      var line := lines[i];
      if line == "" || ":" <= line || !("data:" <= line) {
        continue;
      }
      ResumeData(whole, yielded, ctx, log, Memory(replay.seen, replay.accepted), lines[i..]);
      var r := ReceiveData(ctx, log, Strip(line[5..]), replay);
      if r.Err? {
        return yielded, r.error;
      }
      yielded := yielded + [r.value];
    }
    return yielded, RanOut;
  }

  // ----- one frame -----

  lemma StripSpace(e: string)
    requires forall c :: c in e ==> !IsSpace(c)
    ensures Strip([' '] + e) == e
  {
    assert ([' '] + e)[1..] == e;
    if e != "" {
      assert e[0] in e && e[|e| - 1] in e;
    }
  }

  function Query1(ctx: Context, x: Sent): Query
    requires x.counter < COUNTER_LIMIT
  {
    SealQuery(ctx.encrypt, x.keys, x.counter, ctx.id, ctx.method_, ctx.path, ctx.codec.dump(x.message))
  }

  /** The log knows what was sealed for this message. */
  predicate Logged(ctx: Context, log: SealLog, x: Sent) {
    && x.counter < COUNTER_LIMIT
    && Query1(ctx, x) in log && log[Query1(ctx, x)] == ctx.codec.dump(x.message)
  }

  lemma OpenUpper(log: SealLog, ctx: Context, raw: bytes)
    ensures Open(log, ctx.direction, ctx.id, Upper(ctx.method_), ctx.path, raw)
            == Open(log, ctx.direction, ctx.id, ctx.method_, ctx.path, raw)
  {
    UpperTwice(ctx.method_);
  }

  lemma FrameOpens(ctx: Context, log: SealLog, x: Sent)
    requires IsAead(ctx.encrypt) && Logged(ctx, log, x) && x.keys == ctx.direction
    ensures exists wire: bytes, env: Envelope ::
              && Frame(ctx, x) == ["data: " + ctx.codec.encode(wire), ""]
              && Open(log, ctx.direction, ctx.id, Upper(ctx.method_), ctx.path, wire) == Ok((env, ctx.codec.dump(x.message)))
              && env.counter == x.counter
  {
    var body := ctx.codec.dump(x.message);
    SealThenOpen(ctx.encrypt, map[], log, ctx.direction, x.counter, ctx.id, ctx.method_, ctx.path, body);
    var wire := Seal(ctx.encrypt, map[], ctx.direction, x.counter, ctx.id, ctx.method_, ctx.path, body).value.0;
    OpenUpper(log, ctx, wire);
    var q := Query1(ctx, x);
    assert Open(log, ctx.direction, ctx.id, Upper(ctx.method_), ctx.path, wire)
           == Ok((Envelope(ctx.id.raw, x.counter, q.nonce, q.ciphertext), body));
  }

  lemma DataLine(code: string)
    requires forall c :: c in code ==> !IsSpace(c)
    ensures var line := "data: " + code; !Skipped(line) && Strip(line[5..]) == code
  {
    var line := "data: " + code;
    assert line[..5] == "data:" && line[0] == 'd';
    assert line[5..] == [' '] + code;
    StripSpace(code);
  }

  /** A data line followed by a blank one. */
  lemma ReadFrame(ctx: Context, log: SealLog, m: Memory, code: string, tail: seq<string>)
    requires forall c :: c in code ==> !IsSpace(c)
    requires ReadData(ctx, log, m, code).0.Ok?
    ensures var (read, m') := ReadData(ctx, log, m, code);
            var r := ReadLines(ctx, log, m', tail);
            ReadLines(ctx, log, m, ["data: " + code, ""] + tail) == Reading([read.value] + r.yielded, r.end, r.memory)
  {
    DataLine(code);
    var lines := ["data: " + code, ""] + tail;
    assert lines[1..] == [""] + tail && ([""] + tail)[1..] == tail;
    var m' := ReadData(ctx, log, m, code).1;
    assert ReadLines(ctx, log, m', [""] + tail) == ReadLines(ctx, log, m', tail);
  }

  /** A frame whose counter the client has not seen yields its message. */
  lemma FrameRead(ctx: Context, log: SealLog, m: Memory, x: Sent, tail: seq<string>)
    requires IsAead(ctx.encrypt) && IsCodec(ctx.codec) && Logged(ctx, log, x) && x.message != Empty
    requires x.keys == ctx.direction && x.counter !in m.seen
    ensures var r := ReadLines(ctx, log, CheckMemory(m, x.counter).1, tail);
            ReadLines(ctx, log, m, Frame(ctx, x) + tail) == Reading([x.message] + r.yielded, r.end, r.memory)
  {
    FrameOpens(ctx, log, x);
    var wire: bytes, env: Envelope :|
      && Frame(ctx, x) == ["data: " + ctx.codec.encode(wire), ""]
      && Open(log, ctx.direction, ctx.id, Upper(ctx.method_), ctx.path, wire) == Ok((env, ctx.codec.dump(x.message)))
      && env.counter == x.counter;
    var code := ctx.codec.encode(wire);
    assert ReadData(ctx, log, m, code) == (Ok(x.message), CheckMemory(m, x.counter).1);
    ReadFrame(ctx, log, m, code, tail);
  }

  /** Nothing was sealed under the client's key with the nonce of this message. */
  predicate Unused(ctx: Context, log: SealLog, x: Sent) {
    x.counter < COUNTER_LIMIT && forall q :: q in log && q.key == ctx.direction.key ==> q.nonce != NonceFor(x.keys, x.counter)
  }

  lemma FrameForeign(ctx: Context, log: SealLog, x: Sent)
    requires IsAead(ctx.encrypt) && Unused(ctx, log, x)
    ensures exists wire: bytes ::
              && Frame(ctx, x) == ["data: " + ctx.codec.encode(wire), ""]
              && Open(log, ctx.direction, ctx.id, Upper(ctx.method_), ctx.path, wire).Err?
  {
    var q := Query1(ctx, x);
    PackThenUnpack(ctx.id.raw, x.counter, q.nonce, q.ciphertext);
    var wire := Seal(ctx.encrypt, map[], x.keys, x.counter, ctx.id, ctx.method_, ctx.path, ctx.codec.dump(x.message)).value.0;
    assert Unpack(wire) == Ok(Envelope(ctx.id.raw, x.counter, q.nonce, q.ciphertext));
    assert Open(log, ctx.direction, ctx.id, Upper(ctx.method_), ctx.path, wire).Err?;
  }

  /** The reader stops at a frame sealed under keys that are not the client's. */
  lemma FrameRefused(ctx: Context, log: SealLog, m: Memory, x: Sent, tail: seq<string>)
    requires IsAead(ctx.encrypt) && IsCodec(ctx.codec) && Unused(ctx, log, x)
    ensures ReadLines(ctx, log, m, Frame(ctx, x) + tail) == Reading([], NotAuthenticated, m)
  {
    FrameForeign(ctx, log, x);
    var wire: bytes :|
      && Frame(ctx, x) == ["data: " + ctx.codec.encode(wire), ""]
      && Open(log, ctx.direction, ctx.id, Upper(ctx.method_), ctx.path, wire).Err?;
    DataLine(ctx.codec.encode(wire));
    var lines := Frame(ctx, x) + tail;
    assert lines[0] == "data: " + ctx.codec.encode(wire);
  }

  // ----- whole streams -----

  /** A message of the stream as the client can take it. */
  predicate Received(ctx: Context, log: SealLog, m: Memory, x: Sent) {
    x.keys == ctx.direction && Logged(ctx, log, x) && x.message != Empty && x.counter !in m.accepted
  }

  ghost predicate Receivable(ctx: Context, log: SealLog, m: Memory, sent: seq<Sent>) {
    && Covers(m.seen, m.accepted)
    && (forall x :: x in sent ==> Received(ctx, log, m, x))
    && (forall i, j :: 0 <= i < j < |sent| ==> sent[i].counter != sent[j].counter)
  }

  lemma ReceivableTail(ctx: Context, log: SealLog, m: Memory, sent: seq<Sent>)
    requires Receivable(ctx, log, m, sent) && sent != []
    ensures sent[0].counter !in m.seen && sent[0] in sent
    ensures Receivable(ctx, log, CheckMemory(m, sent[0].counter).1, sent[1..])
  {
    var x := sent[0];
    assert x in sent;
    RememberCovers(m.seen, m.accepted, x.counter);
    forall y | y in sent[1..]
      ensures y in sent && y.counter != x.counter
    {
      var i :| 0 <= i < |sent| - 1 && sent[1..][i] == y;
      assert sent[i + 1] == y;
    }
    assert forall i :: 0 <= i < |sent| - 1 ==> sent[1..][i] == sent[i + 1];
  }

  lemma FramesSplit(ctx: Context, sent: seq<Sent>, tail: seq<string>)
    requires sent != []
    ensures Frames(ctx, sent) + tail == Frame(ctx, sent[0]) + (Frames(ctx, sent[1..]) + tail)
  {
  }

  lemma ResumesCons(whole: Reading, message: Message, r: Reading, ms: seq<Message>, rest: Reading)
    requires whole == Reading([message] + r.yielded, r.end, r.memory) && Resumes(r, ms, rest)
    ensures Resumes(whole, [message] + ms, rest)
  {
    assert [message] + (ms + rest.yielded) == [message] + ms + rest.yielded;
  }

  lemma {:induction false} FramesRead(ctx: Context, log: SealLog, m: Memory, sent: seq<Sent>, tail: seq<string>)
    returns (after: Memory)
    requires IsAead(ctx.encrypt) && IsCodec(ctx.codec) && Receivable(ctx, log, m, sent)
    ensures Resumes(ReadLines(ctx, log, m, Frames(ctx, sent) + tail), Messages(sent), ReadLines(ctx, log, after, tail))
    decreases |sent|
  {
    if sent == [] {
      after := m;
      assert Frames(ctx, sent) + tail == tail;
    } else {
      var x := sent[0];
      ReceivableTail(ctx, log, m, sent);
      var more := Frames(ctx, sent[1..]) + tail;
      FrameRead(ctx, log, m, x, more);
      after := FramesRead(ctx, log, CheckMemory(m, x.counter).1, sent[1..], tail);
      FramesSplit(ctx, sent, tail);
      ResumesCons(ReadLines(ctx, log, m, Frames(ctx, sent) + tail), x.message,
                  ReadLines(ctx, log, CheckMemory(m, x.counter).1, more), Messages(sent[1..]), ReadLines(ctx, log, after, tail));
    }
  }

  lemma {:induction false} FramesConcat(ctx: Context, a: seq<Sent>, b: seq<Sent>)
    ensures Frames(ctx, a + b) == Frames(ctx, a) + Frames(ctx, b)
  {
    if a == [] {
      assert a + b == b;
    } else {
      assert (a + b)[1..] == a[1..] + b;
      FramesConcat(ctx, a[1..], b);
    }
  }

  lemma MarkerRead(ctx: Context, log: SealLog, m: Memory)
    ensures ReadLines(ctx, log, m, END_MARKER) == Reading([], Complete, m)
  {
    var line := END_MARKER[0];
    assert line[5..] == [' '] + DONE && line[..5] == "data:" && line[0] == 'd';
    StripSpace(DONE);
  }

  /** How the reading ends: at the first message sealed after a close, on the marker, or with the lines. */
  function EndOf(ctx: Context, e: Emission): ClientEnd {
    if Live(ctx.direction, e.sent) != e.sent then NotAuthenticated else if e.ending == Ended then Complete else RanOut
  }

  ghost predicate Readable(ctx: Context, log: SealLog, m: Memory, e: Emission) {
    && Receivable(ctx, log, m, Live(ctx.direction, e.sent))
    && (Live(ctx.direction, e.sent) != e.sent ==> Unused(ctx, log, e.sent[|Live(ctx.direction, e.sent)|]))
  }

  function Marker(e: Emission): seq<string> {
    if e.ending == Ended then END_MARKER else []
  }

  /** What the reader makes of the lines after the last live message. */
  lemma TailRead(ctx: Context, log: SealLog, m: Memory, e: Emission, rest: seq<Sent>)
    requires IsAead(ctx.encrypt) && IsCodec(ctx.codec) && (rest != [] ==> Unused(ctx, log, rest[0]))
    ensures ReadLines(ctx, log, m, Frames(ctx, rest) + Marker(e))
            == Reading([], if rest != [] then NotAuthenticated else if e.ending == Ended then Complete else RanOut, m)
  {
    if rest != [] {
      FramesSplit(ctx, rest, Marker(e));
      FrameRefused(ctx, log, m, rest[0], Frames(ctx, rest[1..]) + Marker(e));
    } else {
      assert Frames(ctx, rest) + Marker(e) == Marker(e);
      MarkerRead(ctx, log, m);
    }
  }

  lemma LinesSplit(ctx: Context, e: Emission, live: seq<Sent>, rest: seq<Sent>)
    requires e.sent == live + rest
    ensures Lines(ctx, e) == Frames(ctx, live) + (Frames(ctx, rest) + Marker(e))
  {
    FramesConcat(ctx, live, rest);
  }

  /** The client reads exactly the messages sealed before the session was closed, and ends as `EndOf` says. */
  lemma EmissionRead(ctx: Context, log: SealLog, m: Memory, e: Emission)
    requires IsAead(ctx.encrypt) && IsCodec(ctx.codec) && Readable(ctx, log, m, e)
    ensures var r := ReadLines(ctx, log, m, Lines(ctx, e));
            r.yielded == Messages(Live(ctx.direction, e.sent)) && r.end == EndOf(ctx, e)
  {
    var live := Live(ctx.direction, e.sent);
    var rest := e.sent[|live|..];
    assert e.sent == live + rest;
    LinesSplit(ctx, e, live, rest);
    var after := FramesRead(ctx, log, m, live, Frames(ctx, rest) + Marker(e));
    TailRead(ctx, log, after, e, rest);
    assert Messages(live) + [] == Messages(live);
  }

  lemma {:induction false} EmittedNonempty(keys: DirectionKeys, counter: nat, s: Worker.Stream, pos: nat,
                                           ticks: seq<Tick>, normalize: Normalize)
    ensures forall x :: x in Emit(keys, counter, s, pos, ticks, normalize).sent ==> x.message != Empty
    decreases |ticks|
  {
    if ticks != [] {
      var choice := Pick(s, pos, ticks[0].event, normalize);
      if choice.Say? {
        EmittedNonempty(After(keys, ticks[0]), counter + ticks[0].gap + 1, s, choice.pos, ticks[1..], normalize);
      }
    }
  }

  /** Everything the encoder sealed is in the log it leaves behind. */
  lemma {:induction false} LogAllLogged(ctx: Context, log: SealLog, sent: seq<Sent>)
    requires IsAead(ctx.encrypt) && Consistent(ctx.encrypt, log)
    requires forall x :: x in sent ==> x.counter < COUNTER_LIMIT
    ensures Extends(LogAll(ctx, log, sent), log)
    ensures forall x :: x in sent ==> Logged(ctx, LogAll(ctx, log, sent), x)
    decreases |sent|
  {
    if sent != [] {
      var x := sent[0];
      assert x in sent;
      SealExtendsLog(ctx.encrypt, log, x.keys, x.counter, ctx.id, ctx.method_, ctx.path, ctx.codec.dump(x.message));
      assert Logged(ctx, LogOne(ctx, log, x), x);
      LogAllLogged(ctx, LogOne(ctx, log, x), sent[1..]);
    }
  }

  /** A pumped stream is finished: some of the generator's chunks, all of them and its error if nothing cut it short. */
  lemma PumpedFinished(g: Worker.Generator, cancelAt: Option<nat>) returns (chunks: seq<Worker.Raw>, error: Option<string>)
    ensures Worker.Pumped(g, cancelAt) == Finished(chunks, error) && chunks <= g.chunks
    ensures cancelAt.None? ==> chunks == g.chunks && error == g.error
  {
    if Worker.CutShort(g, cancelAt) {
      chunks, error := g.chunks[..cancelAt.value], None;
    } else {
      chunks, error := g.chunks, g.error;
    }
  }

  lemma {:induction false} ChunksAreDeltas(sent: seq<Sent>)
    ensures ChunksOf(Messages(sent)) == Deltas(sent)
  {
    if sent != [] {
      ChunksAreDeltas(sent[1..]);
      assert Messages(sent)[1..] == Messages(sent[1..]);
    }
  }

  lemma {:induction false} DeltasConcat(a: seq<Sent>, b: seq<Sent>)
    ensures Deltas(a + b) == Deltas(a) + Deltas(b)
  {
    if a == [] {
      assert a + b == b && Deltas(a) == [];
    } else {
      DeltasConcat(a[1..], b);
      DeltasCons(a[0], a[1..] + b);
      DeltasCons(a[0], a[1..]);
      assert [a[0]] + (a[1..] + b) == a + b && [a[0]] + a[1..] == a;
    }
  }

  /**
   * What the rest of the world must not do to a stream: forget what was sealed, show the client one of its counters
   * before, or seal under the live key on a counter that the stream used after its session was closed.
   */
  ghost predicate Undisturbed(ctx: Context, log: SealLog, later: SealLog, m: Memory, sent: seq<Sent>) {
    && Extends(later, LogAll(ctx, log, sent)) && Covers(m.seen, m.accepted)
    && forall x :: x in sent ==> x.counter !in m.accepted && (x.keys != ctx.direction ==> Unused(ctx, later, x))
  }

  /** Nothing cancels or closes the stream, every chunk is awaited and one more, and the counters stay in range. */
  predicate AllAwaited(n: nat, counter: nat, ticks: seq<Tick>) {
    NeverCancelled(ticks) && NeverClosed(ticks) && InRange(counter, ticks) && Readies(ticks) > n
  }

  /** If they all validate, the generator's chunks are there, and the end is complete exactly if it did not raise. */
  ghost predicate AllArrived(r: Reading, g: Worker.Generator, normalize: Normalize) {
    forall ds :: Normalised(g.chunks, ds, normalize) ==>
      ChunksOf(r.yielded) == ds && r.end == if g.error.None? then Complete else RanOut
  }

  lemma AwaitedArrives(ctx: Context, counter: nat, g: Worker.Generator, ticks: seq<Tick>, normalize: Normalize)
    requires AllAwaited(|g.chunks|, counter, ticks)
    ensures var e := Emit(ctx.direction, counter, Worker.Pumped(g, None), 0, ticks, normalize);
            forall ds :: Normalised(g.chunks, ds, normalize) ==>
              ChunksOf(Messages(Live(ctx.direction, e.sent))) == ds && EndOf(ctx, e) == if g.error.None? then Complete else RanOut
  {
    var chunks, error := PumpedFinished(g, None);
    StreamChunks(ctx, counter, g, None, ticks, normalize);
    forall ds | Normalised(g.chunks, ds, normalize)
      ensures var e := Emit(ctx.direction, counter, Worker.Pumped(g, None), 0, ticks, normalize);
              ChunksOf(Messages(Live(ctx.direction, e.sent))) == ds && EndOf(ctx, e) == if g.error.None? then Complete else RanOut
    {
      ChunksSent(ctx.direction, counter, chunks, error, ticks, normalize, ds);
    }
  }

  /**
   * Worker, stream handle, encoder and client together. Whatever times out, is cancelled or closed and however other
   * responses move the counter, the client yields the generator's chunks in order, up to some point, between
   * keepalives: exactly the messages sealed before the session was closed. It ends unauthenticated at the first one
   * sealed after that, if there is one, and otherwise on the marker exactly when the encoder ended; if nothing was
   * cancelled that is the end of the generator, with no error. And all of it arrives if every chunk is awaited, and one
   * more, while nothing is cancelled or closed.
   */
  lemma WholeStream(ctx: Context, log: SealLog, later: SealLog, m: Memory, counter: nat, g: Worker.Generator,
                    cancelAt: Option<nat>, ticks: seq<Tick>, normalize: Normalize)
    requires IsAead(ctx.encrypt) && IsCodec(ctx.codec) && Consistent(ctx.encrypt, log)
    requires Undisturbed(ctx, log, later, m, Emit(ctx.direction, counter, Worker.Pumped(g, cancelAt), 0, ticks, normalize).sent)
    ensures var e := Emit(ctx.direction, counter, Worker.Pumped(g, cancelAt), 0, ticks, normalize);
            var r := ReadLines(ctx, later, m, Lines(ctx, e));
            var ds := ChunksOf(r.yielded);
            && r.yielded == Messages(Live(ctx.direction, e.sent)) && r.end == EndOf(ctx, e)
            && |ds| <= |g.chunks| && (forall i :: 0 <= i < |ds| ==> normalize(g.chunks[i]) == Some(ds[i]))
            && (r.end == Complete && cancelAt.None? && NeverCancelled(ticks) ==> |ds| == |g.chunks| && g.error.None?)
            && (NeverClosed(ticks) ==> r.end != NotAuthenticated)
            && (cancelAt.None? && AllAwaited(|g.chunks|, counter, ticks) ==> AllArrived(r, g, normalize))
  {
    var s := Worker.Pumped(g, cancelAt);
    if cancelAt.None? && AllAwaited(|g.chunks|, counter, ticks) {
      AwaitedArrives(ctx, counter, g, ticks, normalize);
    }
    StreamReadable(ctx, log, later, m, counter, s, ticks, normalize);
    EmissionRead(ctx, later, m, Emit(ctx.direction, counter, s, 0, ticks, normalize));
    StreamChunks(ctx, counter, g, cancelAt, ticks, normalize);
  }

  /** The chunks of the live messages, and when they are all there are. */
  lemma StreamChunks(ctx: Context, counter: nat, g: Worker.Generator, cancelAt: Option<nat>, ticks: seq<Tick>,
                     normalize: Normalize)
    ensures var e := Emit(ctx.direction, counter, Worker.Pumped(g, cancelAt), 0, ticks, normalize);
            var ds := ChunksOf(Messages(Live(ctx.direction, e.sent)));
            && |ds| <= |g.chunks| && (forall i :: 0 <= i < |ds| ==> normalize(g.chunks[i]) == Some(ds[i]))
            && (EndOf(ctx, e) == Complete && cancelAt.None? && NeverCancelled(ticks) ==> |ds| == |g.chunks| && g.error.None?)
            && (NeverClosed(ticks) ==> Live(ctx.direction, e.sent) == e.sent)
  {
    var s := Worker.Pumped(g, cancelAt);
    var sent := Emit(ctx.direction, counter, s, 0, ticks, normalize).sent;
    var live := Live(ctx.direction, sent);
    var chunks, error := PumpedFinished(g, cancelAt);
    EmitFaithful(ctx.direction, counter, chunks, error, 0, ticks, !NeverCancelled(ticks), normalize);
    ChunksAreDeltas(live);
    DeltasConcat(live, sent[|live|..]);
    assert sent == live + sent[|live|..];
    EmitKeys(ctx.direction, counter, s, 0, ticks, normalize);
    forall i | 0 <= i < |Deltas(live)|
      ensures normalize(g.chunks[i]) == Some(Deltas(live)[i])
    {
      assert Deltas(sent)[i] == Deltas(live)[i] && normalize(chunks[0 + i]) == Some(Deltas(sent)[i]);
    }
  }

  lemma StreamReadable(ctx: Context, log: SealLog, later: SealLog, m: Memory, counter: nat, s: Worker.Stream,
                       ticks: seq<Tick>, normalize: Normalize)
    requires IsAead(ctx.encrypt) && Consistent(ctx.encrypt, log)
    requires Undisturbed(ctx, log, later, m, Emit(ctx.direction, counter, s, 0, ticks, normalize).sent)
    ensures Readable(ctx, later, m, Emit(ctx.direction, counter, s, 0, ticks, normalize))
  {
    var e := Emit(ctx.direction, counter, s, 0, ticks, normalize);
    EmitRising(ctx.direction, counter, s, 0, ticks, normalize);
    EmittedNonempty(ctx.direction, counter, s, 0, ticks, normalize);
    LogAllLogged(ctx, log, e.sent);
    var live := Live(ctx.direction, e.sent);
    forall x | x in live
      ensures Received(ctx, later, m, x)
    {
      assert x in e.sent;
    }
    if live != e.sent {
      assert e.sent[|live|] in e.sent;
    }
  }

  lemma {:induction false} LogAllOnly(ctx: Context, log: SealLog, sent: seq<Sent>, q: Query)
    requires forall x :: x in sent ==> x.counter < COUNTER_LIMIT
    requires q in LogAll(ctx, log, sent) && q !in log
    ensures exists x :: x in sent && q == Query1(ctx, x)
    decreases |sent|
  {
    if sent != [] {
      var x := sent[0];
      assert x in sent;
      if q in LogOne(ctx, log, x) {
        assert q == Query1(ctx, x);
      } else {
        LogAllOnly(ctx, LogOne(ctx, log, x), sent[1..], q);
      }
    }
  }

  /** The nonce was used by the time the session's counter stood at `counter`. */
  ghost predicate UsedBy(keys: DirectionKeys, counter: nat, nonce: bytes) {
    exists c: nat :: c <= counter && c < COUNTER_LIMIT && nonce == NonceFor(keys, c)
  }

  lemma NoncesApart(a: DirectionKeys, b: DirectionKeys, c: nat, d: nat)
    requires c < COUNTER_LIMIT && d < COUNTER_LIMIT && c != d
    ensures NonceFor(a, c) != NonceFor(b, d)
  {
    if NonceFor(a, c) == NonceFor(b, d) {
      SplitEqual(a.noncePrefix, Counter8(c), b.noncePrefix, Counter8(d));
      Counter8Injective(c, d);
    }
  }

  /** A stream of a session whose counters were used and seen up to the stream's start is undisturbed by itself. */
  lemma StreamAlone(ctx: Context, log: SealLog, m: Memory, counter: nat, s: Worker.Stream, ticks: seq<Tick>,
                    normalize: Normalize)
    requires IsAead(ctx.encrypt) && Consistent(ctx.encrypt, log)
    requires Covers(m.seen, m.accepted) && forall c :: c in m.accepted ==> c <= counter
    requires forall q :: q in log && q.key == ctx.direction.key ==> UsedBy(ctx.direction, counter, q.nonce)
    ensures var sent := Emit(ctx.direction, counter, s, 0, ticks, normalize).sent;
            Undisturbed(ctx, log, LogAll(ctx, log, sent), m, sent)
  {
    var sent := Emit(ctx.direction, counter, s, 0, ticks, normalize).sent;
    var later := LogAll(ctx, log, sent);
    EmitRising(ctx.direction, counter, s, 0, ticks, normalize);
    EmitKeys(ctx.direction, counter, s, 0, ticks, normalize);
    forall x | x in sent && x.keys != ctx.direction
      ensures Unused(ctx, later, x)
    {
      forall q | q in later && q.key == ctx.direction.key
        ensures q.nonce != NonceFor(x.keys, x.counter)
      {
        if q in log {
          var c: nat :| c <= counter && c < COUNTER_LIMIT && q.nonce == NonceFor(ctx.direction, c);
          NoncesApart(ctx.direction, x.keys, c, x.counter);
        } else {
          LogAllOnly(ctx, log, sent, q);
          var y :| y in sent && q == Query1(ctx, y);
          OtherCounter(ctx, sent, x, y);
          NoncesApart(y.keys, x.keys, y.counter, x.counter);
        }
      }
    }
  }

  lemma OtherCounter(ctx: Context, sent: seq<Sent>, x: Sent, y: Sent)
    requires Rising(sent, 0) && SwitchOnce(ctx.direction, sent, false) && x in sent && y in sent
    requires x.keys != ctx.direction && y.keys.key == ctx.direction.key
    ensures x.counter != y.counter
  {
    var i :| 0 <= i < |sent| && sent[i] == x;
    var j :| 0 <= j < |sent| && sent[j] == y;
    assert i != j;
  }

  /** After a close, every later message of the stream goes out under the all-zero key. */
  lemma ClosedUnderZeroKey(keys: DirectionKeys, counter: nat, s: Worker.Stream, ticks: seq<Tick>, normalize: Normalize,
                           i: nat)
    requires var sent := Emit(keys, counter, s, 0, ticks, normalize).sent; |Live(keys, sent)| <= i < |sent|
    ensures Emit(keys, counter, s, 0, ticks, normalize).sent[i].keys.key == ZERO_KEY
    ensures !NeverClosed(ticks)
  {
    EmitKeys(keys, counter, s, 0, ticks, normalize);
  }

  /** The end marker comes once, last, and only from an encoder that ended. */
  lemma MarkerOnce(ctx: Context, e: Emission)
    requires IsCodec(ctx.codec)
    ensures forall i :: 0 <= i < |Lines(ctx, e)| ==>
              (Lines(ctx, e)[i] == "data: " + DONE <==> e.ending == Ended && i == |Lines(ctx, e)| - 2)
  {
    NoMarker(ctx, e.sent);
  }

  lemma {:induction false} NoMarker(ctx: Context, sent: seq<Sent>)
    requires IsCodec(ctx.codec)
    ensures forall i :: 0 <= i < |Frames(ctx, sent)| ==> Frames(ctx, sent)[i] != "data: " + DONE
  {
    if sent != [] {
      NoMarker(ctx, sent[1..]);
      forall code: string | code != DONE
        ensures "data: " + code != "data: " + DONE
      {
        assert ("data: " + code)[6..] == code && ("data: " + DONE)[6..] == DONE;
      }
    }
  }

  // ----- arbitrary lines -----

  /** The message was sealed under the response key for this session, method, path and counter. */
  ghost predicate Authentic(ctx: Context, log: SealLog, counter: int, message: Message) {
    0 <= counter < COUNTER_LIMIT &&
    exists q :: q in log && q.key == ctx.direction.key
                && q.aad == BuildAad(Upper(ctx.method_), ctx.path, ctx.id.raw, counter)
                && (if log[q] == [] then message == Empty else ctx.codec.load(log[q]) == Some(message))
  }

  /** A counter accepted although it was accepted before: then 2048 larger ones have been accepted since. */
  ghost predicate RepeatsOnlyOld(accepted: set<int>, counters: seq<int>) {
    forall j :: 0 <= j < |counters| && counters[j] in accepted + Elements(counters[..j]) ==>
      |Above(accepted + Elements(counters[..j]), counters[j])| >= SEEN_KEEP
  }

  /** The counters of the envelopes whose messages are yielded, in the order of their lines. */
  function Counters(ctx: Context, log: SealLog, m: Memory, lines: seq<string>): seq<int>
    decreases |lines|
  {
    if lines == [] then []
    else if Skipped(lines[0]) then Counters(ctx, log, m, lines[1..])
    else
      var data := Strip(lines[0][5..]);
      var (r, m') := ReadData(ctx, log, m, data);
      if r.Err? then [] else [CounterOf(ctx, log, data).value] + Counters(ctx, log, m', lines[1..])
  }

  lemma DataAuthentic(ctx: Context, log: SealLog, m: Memory, data: string)
    requires ReadData(ctx, log, m, data).0.Ok?
    ensures var counter := CounterOf(ctx, log, data).value;
            && Authentic(ctx, log, counter, ReadData(ctx, log, m, data).0.value)
            && counter !in m.seen && ReadData(ctx, log, m, data).1 == CheckMemory(m, counter).1
  {
    OpenIsLogged(log, ctx.direction, ctx.id, Upper(ctx.method_), ctx.path, ctx.codec.decode(data).value);
  }

  lemma RepeatsCons(m: Memory, counter: int, counters: seq<int>)
    requires Covers(m.seen, m.accepted) && counter !in m.seen
    requires RepeatsOnlyOld(m.accepted + {counter}, counters)
    ensures RepeatsOnlyOld(m.accepted, [counter] + counters)
  {
    var all := [counter] + counters;
    forall j | 0 <= j < |all| && all[j] in m.accepted + Elements(all[..j])
      ensures |Above(m.accepted + Elements(all[..j]), all[j])| >= SEEN_KEEP
    {
      if j == 0 {
        assert m.accepted + Elements(all[..0]) == m.accepted;
        if |Above(m.accepted, counter)| < SEEN_KEEP {
          LargestRemembered(m.seen, m.accepted, counter);
        }
      } else {
        assert all[..j] == [counter] + counters[..j - 1];
        assert m.accepted + Elements(all[..j]) == m.accepted + {counter} + Elements(counters[..j - 1]);
      }
    }
  }

  ghost predicate AllAuthentic(ctx: Context, log: SealLog, counters: seq<int>, ms: seq<Message>) {
    |counters| == |ms| && forall i :: 0 <= i < |counters| ==> Authentic(ctx, log, counters[i], ms[i])
  }

  lemma AuthenticCons(ctx: Context, log: SealLog, counter: int, message: Message, counters: seq<int>, ms: seq<Message>)
    requires Authentic(ctx, log, counter, message) && AllAuthentic(ctx, log, counters, ms)
    ensures AllAuthentic(ctx, log, [counter] + counters, [message] + ms)
  {
  }

  /**
   * Whatever lines arrive, every message the client yields was sealed for its session, method and path under the
   * counter of its own envelope, and two of them have the same counter only if at least 2048 larger counters were
   * accepted before the second.
   */
  lemma {:induction false} YieldedWasSealed(ctx: Context, log: SealLog, m: Memory, lines: seq<string>)
    requires Covers(m.seen, m.accepted)
    ensures AllAuthentic(ctx, log, Counters(ctx, log, m, lines), ReadLines(ctx, log, m, lines).yielded)
    ensures RepeatsOnlyOld(m.accepted, Counters(ctx, log, m, lines))
    decreases |lines|, 1
  {
    if lines != [] {
      if Skipped(lines[0]) {
        YieldedWasSealed(ctx, log, m, lines[1..]);
      } else if ReadData(ctx, log, m, Strip(lines[0][5..])).0.Ok? {
        DataThenRest(ctx, log, m, lines);
      }
    }
  }

  lemma {:induction false} DataThenRest(ctx: Context, log: SealLog, m: Memory, lines: seq<string>)
    requires Covers(m.seen, m.accepted)
    requires lines != [] && !Skipped(lines[0]) && ReadData(ctx, log, m, Strip(lines[0][5..])).0.Ok?
    ensures AllAuthentic(ctx, log, Counters(ctx, log, m, lines), ReadLines(ctx, log, m, lines).yielded)
    ensures RepeatsOnlyOld(m.accepted, Counters(ctx, log, m, lines))
    decreases |lines|, 0
  {
    var data := Strip(lines[0][5..]);
    DataAuthentic(ctx, log, m, data);
    var counter, m' := CounterOf(ctx, log, data).value, ReadData(ctx, log, m, data).1;
    RememberCovers(m.seen, m.accepted, counter);
    YieldedWasSealed(ctx, log, m', lines[1..]);
    var rest := Counters(ctx, log, m', lines[1..]);
    RepeatsCons(m, counter, rest);
    AuthenticCons(ctx, log, counter, ReadData(ctx, log, m, data).0.value, rest, ReadLines(ctx, log, m', lines[1..]).yielded);
  }

  /** Blank lines, comments and other fields change nothing, wherever they stand. */
  lemma {:induction false} CommentsIgnored(ctx: Context, log: SealLog, m: Memory, before: seq<string>, line: string,
                                           after: seq<string>)
    requires line == "" || line[0] == ':' || |line| < 5 || line[..5] != "data:"
    ensures ReadLines(ctx, log, m, before + [line] + after) == ReadLines(ctx, log, m, before + after)
    decreases |before|
  {
    var all, rest := before + [line] + after, before + after;
    if before == [] {
      assert all[0] == line && all[1..] == after && rest == after;
      assert "data:"[0] == 'd' && (line != "" && line[0] == ':' ==> !("data:" <= line));
    } else {
      assert all[0] == before[0] && all[1..] == before[1..] + [line] + after;
      assert rest[0] == before[0] && rest[1..] == before[1..] + after;
      CommentsIgnored(ctx, log, m, before[1..], line, after);
      if !Skipped(before[0]) {
        CommentsIgnored(ctx, log, ReadData(ctx, log, m, Strip(before[0][5..])).1, before[1..], line, after);
      }
    }
  }

  /** What a data line comes to that carries whatever was sealed for the session: nothing, a message, or no JSON. */
  lemma SealedLine(ctx: Context, log: SealLog, m: Memory, counter: nat, body: bytes)
    requires IsAead(ctx.encrypt) && IsCodec(ctx.codec) && counter < COUNTER_LIMIT
    requires Extends(log, Seal(ctx.encrypt, map[], ctx.direction, counter, ctx.id, Upper(ctx.method_), ctx.path, body).value.1)
    ensures var wire := Seal(ctx.encrypt, map[], ctx.direction, counter, ctx.id, Upper(ctx.method_), ctx.path, body).value.0;
            ReadData(ctx, log, m, ctx.codec.encode(wire))
            == if counter in m.seen then (Err(Replayed), m)
               else (if body == [] then Ok(Empty)
                     else if ctx.codec.load(body).Some? then Ok(ctx.codec.load(body).value) else Err(BadJson),
                     CheckMemory(m, counter).1)
  {
    SealThenOpen(ctx.encrypt, map[], log, ctx.direction, counter, ctx.id, Upper(ctx.method_), ctx.path, body);
  }

  /** What is no base64 or was never sealed ends the stream with its own error and leaves the memory alone. */
  lemma UnsealedLine(ctx: Context, log: SealLog, m: Memory, data: string)
    requires forall q :: q in log ==> q.key != ctx.direction.key
    ensures ReadData(ctx, log, m, data)
            == (Err(if data == "[DONE]" then Complete
                    else if ctx.codec.decode(data).None? then BadBase64 else NotAuthenticated), m)
  {
    if data != DONE && ctx.codec.decode(data).Some? {
      var raw := ctx.codec.decode(data).value;
      if Open(log, ctx.direction, ctx.id, Upper(ctx.method_), ctx.path, raw).Ok? {
        OpenIsLogged(log, ctx.direction, ctx.id, Upper(ctx.method_), ctx.path, raw);
      }
    }
  }

  function Chosen(sent: seq<Sent>, picks: seq<nat>): (chosen: seq<Sent>)
    requires forall i :: 0 <= i < |picks| ==> picks[i] < |sent|
    ensures |chosen| == |picks| && forall i :: 0 <= i < |picks| ==> chosen[i] == sent[picks[i]]
  {
    seq(|picks|, i requires 0 <= i < |picks| => sent[picks[i]])
  }

  /**
   * What is not protected: any choice of a session's frames for one method and path, from whatever requests, in any
   * order and cut off anywhere, reads as a complete stream, because the marker is in the clear.
   */
  lemma AnyChoiceReads(ctx: Context, log: SealLog, m: Memory, sent: seq<Sent>, picks: seq<nat>)
    requires IsAead(ctx.encrypt) && IsCodec(ctx.codec) && Receivable(ctx, log, m, sent)
    requires Unique(picks) && forall i :: 0 <= i < |picks| ==> picks[i] < |sent|
    ensures var r := ReadLines(ctx, log, m, Frames(ctx, Chosen(sent, picks)) + END_MARKER);
            r.yielded == Messages(Chosen(sent, picks)) && r.end == Complete
  {
    var chosen := Chosen(sent, picks);
    forall i, j | 0 <= i < j < |chosen|
      ensures chosen[i].counter != chosen[j].counter
    {
      assert picks[i] != picks[j];
    }
    assert Receivable(ctx, log, m, chosen);
    var after := FramesRead(ctx, log, m, chosen, END_MARKER);
    MarkerRead(ctx, log, after);
    assert Messages(chosen) + [] == Messages(chosen);
  }
}
