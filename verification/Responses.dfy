/** All that a session sends: JSON responses and stream chunks in whatever order they interleave. */
module Responses {
  import opened Bytes
  import opened Wire
  import opened Envelopes
  import opened Sessions
  import opened ClientReplay
  import Router
  import Streaming

  /**
   * One thing to send: a JSON body in an envelope of its own, under the session's keys or under keys that were saved
   * before the session was closed, or a message of an event stream.
   */
  datatype Reply =
    | Whole(method_: bytes, path: bytes, body: bytes, saved: Option<DirectionKeys>)
    | Chunk(method_: bytes, path: bytes, message: Streaming.Message)

  /** A reply, and whether the session was closed since the one before it. */
  datatype Turn = Turn(closes: bool, reply: Reply)

  /** The session's response keys after some turns. */
  function KeysAfter(keys: DirectionKeys, turns: seq<Turn>): DirectionKeys {
    if exists i :: 0 <= i < |turns| && turns[i].closes then Zeroed(keys) else keys
  }

  /** The keys the k-th reply is sealed under. */
  function KeysFor(keys: DirectionKeys, turns: seq<Turn>, k: nat): DirectionKeys
    requires k < |turns|
  {
    if turns[k].reply.Whole? && turns[k].reply.saved.Some? then turns[k].reply.saved.value
    else KeysAfter(keys, turns[..k + 1])
  }

  function At(ctx: Streaming.Context, turns: seq<Turn>, k: nat): Streaming.Context
    requires k < |turns|
  {
    ctx.(direction := KeysFor(ctx.direction, turns, k))
  }

  datatype Output = Binary(wire: bytes) | Event(lines: seq<string>) | Refused

  function Body(codec: Streaming.Codec, r: Reply): bytes {
    match r
    case Whole(_, _, body, _) => body
    case Chunk(_, _, message) => codec.dump(message)
  }

  /** The envelope a reply must travel in when it is the session's `counter`-th. */
  function Sealed(ctx: Streaming.Context, counter: nat, r: Reply): Result<bytes, SealError> {
    match Seal(ctx.encrypt, map[], ctx.direction, counter, ctx.id, r.method_, r.path, Body(ctx.codec, r))
    case Ok((wire, _)) => Ok(wire)
    case Err(e) => Err(e)
  }

  predicate Carries(ctx: Streaming.Context, counter: nat, r: Reply, out: Output) {
    match Sealed(ctx, counter, r)
    case Err(_) => out == Refused
    case Ok(wire) => out == if r.Whole? then Binary(wire) else Event(["data: " + ctx.codec.encode(wire), ""])
  }

  /** The log knows what the reply's ciphertext stands for. */
  predicate Remembers(log: SealLog, ctx: Streaming.Context, counter: nat, r: Reply) {
    counter < COUNTER_LIMIT ==>
      var q := SealQuery(ctx.encrypt, ctx.direction, counter, ctx.id, r.method_, r.path, Body(ctx.codec, r));
      q in log && log[q] == Body(ctx.codec, r)
  }

  lemma RemembersGrows(log: SealLog, later: SealLog, ctx: Streaming.Context, counter: nat, r: Reply)
    requires Extends(later, log) && Remembers(log, ctx, counter, r)
    ensures Remembers(later, ctx, counter, r)
  {
  }

  lemma SealRemembers(ctx: Streaming.Context, log: SealLog, counter: nat, r: Reply)
    requires IsAead(ctx.encrypt) && Consistent(ctx.encrypt, log)
    ensures var sealed := Seal(ctx.encrypt, log, ctx.direction, counter, ctx.id, r.method_, r.path, Body(ctx.codec, r));
            var later := if sealed.Ok? then sealed.value.1 else log;
            Consistent(ctx.encrypt, later) && Extends(later, log) && Remembers(later, ctx, counter, r)
  {
    if counter < COUNTER_LIMIT {
      SealExtendsLog(ctx.encrypt, log, ctx.direction, counter, ctx.id, r.method_, r.path, Body(ctx.codec, r));
    }
  }

  /** Send one reply on the next counter, under the saved keys or those the session has now. */
  method SendReply(session: Session, ctx: Streaming.Context, log: SealLog, r: Reply) returns (out: Output, log': SealLog)
    requires ctx.id == session.id
    requires ctx.direction == if r.Whole? && r.saved.Some? then r.saved.value else session.s2c
    requires IsAead(ctx.encrypt) && Consistent(ctx.encrypt, log)
    modifies session`s2cCounter
    ensures session.s2cCounter == old(session.s2cCounter) + 1
    ensures Carries(ctx, session.s2cCounter, r, out)
    ensures Consistent(ctx.encrypt, log') && Extends(log', log) && Remembers(log', ctx, session.s2cCounter, r)
  {
    SealRemembers(ctx, log, session.s2cCounter + 1, r);
    out, log' := Refused, log;
    match r {
      case Whole(method_, path, body, saved) =>
        var sealed := Router.EncryptResponse(session, ctx.encrypt, log, body, method_, path, saved);
        if sealed.Ok? {
          out, log' := Binary(sealed.value.0), sealed.value.1;
        }
      case Chunk(method_, path, message) =>
        var sealed := Streaming.SealChunk(session, ctx.(method_ := method_, path := path), log, message);
        if sealed.Ok? {
          out, log' := Event(sealed.value.0), sealed.value.1;
        }
    }
  }

  /** The k-th reply went out under the k-th counter after `start`, under its own keys, and is remembered. */
  predicate AllSent(ctx: Streaming.Context, log: SealLog, start: nat, turns: seq<Turn>, outs: seq<Output>) {
    && |outs| == |turns|
    && forall k: nat :: k < |turns| ==> SentAt(ctx, log, start, turns, outs, k)
  }

  predicate SentAt(ctx: Streaming.Context, log: SealLog, start: nat, turns: seq<Turn>, outs: seq<Output>, k: nat)
    requires k < |turns| == |outs|
  {
    && Carries(At(ctx, turns, k), start + 1 + k, turns[k].reply, outs[k])
    && Remembers(log, At(ctx, turns, k), start + 1 + k, turns[k].reply)
  }

  lemma AllSentSnoc(ctx: Streaming.Context, log: SealLog, later: SealLog, start: nat, turns: seq<Turn>,
                    outs: seq<Output>, t: Turn, out: Output)
    requires AllSent(ctx, log, start, turns, outs) && Extends(later, log)
    requires var last := At(ctx, turns + [t], |turns|);
             Carries(last, start + 1 + |turns|, t.reply, out) && Remembers(later, last, start + 1 + |turns|, t.reply)
    ensures AllSent(ctx, later, start, turns + [t], outs + [out])
  {
    forall k: nat | k < |turns|
      ensures SentAt(ctx, later, start, turns + [t], outs + [out], k)
    {
      assert SentAt(ctx, log, start, turns, outs, k);
      assert (turns + [t])[..k + 1] == turns[..k + 1];
      RemembersGrows(log, later, At(ctx, turns, k), start + 1 + k, turns[k].reply);
    }
  }

  lemma KeysAfterSnoc(keys: DirectionKeys, turns: seq<Turn>, t: Turn)
    ensures KeysAfter(keys, turns + [t]) == if t.closes then Zeroed(KeysAfter(keys, turns)) else KeysAfter(keys, turns)
  {
    var more := turns + [t];
    assert more[|turns|] == t && forall i :: 0 <= i < |turns| ==> more[i] == turns[i];
  }

  /** Close the session if need be, then send one reply. */
  method SendTurn(session: Session, ctx: Streaming.Context, log: SealLog, ghost done: seq<Turn>, t: Turn)
    returns (out: Output, log': SealLog)
    requires ctx.id == session.id && session.s2c == KeysAfter(ctx.direction, done)
    requires IsAead(ctx.encrypt) && Consistent(ctx.encrypt, log)
    modifies session`s2cCounter, session`closed, session`c2s, session`s2c
    ensures session.s2cCounter == old(session.s2cCounter) + 1
    ensures session.s2c == KeysAfter(ctx.direction, done + [t])
    ensures var at := At(ctx, done + [t], |done|);
            Carries(at, session.s2cCounter, t.reply, out) && Remembers(log', at, session.s2cCounter, t.reply)
    ensures Consistent(ctx.encrypt, log') && Extends(log', log)
  {
    KeysAfterSnoc(ctx.direction, done, t);
    assert (done + [t])[..|done| + 1] == done + [t];
    if t.closes {
      session.Zeroize();
    }
    var keys := if t.reply.Whole? && t.reply.saved.Some? then t.reply.saved.value else session.s2c;
    out, log' := SendReply(session, ctx.(direction := keys), log, t.reply);
  }

  /** Whatever the order of responses, chunks and closes, the k-th reply goes out under the k-th next counter. */
  method SendReplies(session: Session, ctx: Streaming.Context, log: SealLog, turns: seq<Turn>)
    returns (outs: seq<Output>, log': SealLog)
    requires ctx.direction == session.s2c && ctx.id == session.id
    requires IsAead(ctx.encrypt) && Consistent(ctx.encrypt, log)
    modifies session`s2cCounter, session`closed, session`c2s, session`s2c
    ensures session.s2cCounter == old(session.s2cCounter) + |turns|
    ensures session.s2c == KeysAfter(old(session.s2c), turns)
    ensures AllSent(ctx, log', old(session.s2cCounter), turns, outs)
    ensures Consistent(ctx.encrypt, log')
  {
    ghost var start := session.s2cCounter;
    outs, log' := [], log;
    for k := 0 to |turns|
      invariant session.s2cCounter == start + k && session.s2c == KeysAfter(ctx.direction, turns[..k])
      invariant AllSent(ctx, log', start, turns[..k], outs)
      invariant Consistent(ctx.encrypt, log')
    {
      var out, next := SendTurn(session, ctx, log', turns[..k], turns[k]);
      AllSentSnoc(ctx, log', next, start, turns[..k], outs, turns[k], out);
      assert turns[..k + 1] == turns[..k] + [turns[k]];
      outs, log' := outs + [out], next;
    }
    assert turns[..|turns|] == turns;
  }

  /** While one session object serves, no nonce is used twice, closed or not and whatever keys were saved. */
  lemma NoncesDistinct(keys: DirectionKeys, turns: seq<Turn>, start: nat, i: nat, j: nat)
    requires i < j < |turns| && start + |turns| < COUNTER_LIMIT
    ensures NonceFor(KeysFor(keys, turns, i), start + 1 + i) != NonceFor(KeysFor(keys, turns, j), start + 1 + j)
  {
    var a, b := KeysFor(keys, turns, i), KeysFor(keys, turns, j);
    if NonceFor(a, start + 1 + i) == NonceFor(b, start + 1 + j) {
      SplitEqual(a.noncePrefix, Counter8(start + 1 + i), b.noncePrefix, Counter8(start + 1 + j));
      Counter8Injective(start + 1 + i, start + 1 + j);
    }
  }

  /** A reply under other keys is refused by a client whose key was never used with that nonce. */
  lemma ForeignReplyRefused(ctx: Streaming.Context, later: SealLog, counter: nat, r: Reply, held: DirectionKeys)
    requires IsAead(ctx.encrypt) && counter < COUNTER_LIMIT
    requires forall q :: q in later && q.key == held.key ==> q.nonce != NonceFor(ctx.direction, counter)
    ensures Open(later, held, ctx.id, r.method_, r.path, Sealed(ctx, counter, r).value).Err?
  {
    var q := SealQuery(ctx.encrypt, ctx.direction, counter, ctx.id, r.method_, r.path, Body(ctx.codec, r));
    PackThenUnpack(ctx.id.raw, counter, q.nonce, q.ciphertext);
    assert Unpack(Sealed(ctx, counter, r).value) == Ok(Wire.Envelope(ctx.id.raw, counter, q.nonce, q.ciphertext));
  }

  /** Each envelope opens, under any log that remembers its sealing, to its own counter and body. */
  lemma ReplyOpens(ctx: Streaming.Context, later: SealLog, counter: nat, r: Reply)
    requires IsAead(ctx.encrypt) && counter < COUNTER_LIMIT && Remembers(later, ctx, counter, r)
    ensures Sealed(ctx, counter, r).Ok?
    ensures var o := Open(later, ctx.direction, ctx.id, r.method_, r.path, Sealed(ctx, counter, r).value);
            o.Ok? && o.value.0.counter == counter && o.value.1 == Body(ctx.codec, r)
  {
    SealThenOpen(ctx.encrypt, map[], later, ctx.direction, counter, ctx.id, r.method_, r.path, Body(ctx.codec, r));
    var q := SealQuery(ctx.encrypt, ctx.direction, counter, ctx.id, r.method_, r.path, Body(ctx.codec, r));
    assert Open(later, ctx.direction, ctx.id, r.method_, r.path, Sealed(ctx, counter, r).value)
           == Ok((Wire.Envelope(ctx.id.raw, counter, q.nonce, q.ciphertext), Body(ctx.codec, r)));
  }

  /** The verdict of the client's replay check on every arrival. */
  function Verdicts(m: Memory, counters: seq<int>): (vs: seq<bool>)
    ensures |vs| == |counters|
    decreases |counters|
  {
    if counters == [] then [] else [CheckMemory(m, counters[0]).0] + Verdicts(CheckMemory(m, counters[0]).1, counters[1..])
  }

  ghost predicate Unseen(m: Memory, counters: seq<int>) {
    Covers(m.seen, m.accepted) && Unique(counters) && forall c :: c in counters ==> c !in m.accepted
  }

  lemma UnseenTail(m: Memory, counters: seq<int>)
    requires Unseen(m, counters) && counters != []
    ensures CheckMemory(m, counters[0]).0 && Unseen(CheckMemory(m, counters[0]).1, counters[1..])
  {
    var c := counters[0];
    assert c in counters;
    RememberCovers(m.seen, m.accepted, c);
    assert forall i :: 0 <= i < |counters| - 1 ==> counters[1..][i] == counters[i + 1];
    forall d | d in counters[1..]
      ensures d in counters && d != c
    {
      var i :| 0 <= i < |counters| - 1 && counters[1..][i] == d;
      assert counters[i + 1] == d;
    }
  }

  /** First arrivals are accepted in any order, however many trims come between. */
  lemma {:induction false} FirstArrivalsAccepted(m: Memory, counters: seq<int>)
    requires Unseen(m, counters)
    ensures forall i :: 0 <= i < |counters| ==> Verdicts(m, counters)[i]
    decreases |counters|
  {
    if counters != [] {
      UnseenTail(m, counters);
      FirstArrivalsAccepted(CheckMemory(m, counters[0]).1, counters[1..]);
    }
  }

  /** A fresh client accepts the replies of a fresh session in any order of arrival, each the first time it comes. */
  lemma RepliesAccepted(arrivals: seq<nat>, n: nat)
    requires Unique(arrivals) && forall k :: k in arrivals ==> k < n
    ensures var counters := seq(|arrivals|, i requires 0 <= i < |arrivals| => 1 + arrivals[i]);
            forall i :: 0 <= i < |arrivals| ==> Verdicts(Memory({}, {}), counters)[i]
  {
    FirstArrivalsAccepted(Memory({}, {}), seq(|arrivals|, i requires 0 <= i < |arrivals| => 1 + arrivals[i]));
  }
}
