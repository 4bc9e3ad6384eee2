/** The response counter of a session that moves from one instance to another through the broker. */
module ResponseFailover {
  import opened Bytes
  import opened Envelopes
  import opened ClientReplay
  import opened Sessions
  import opened Router
  import opened Wire
  import R = RedisStore
  import Failover
  import Transport

  // ----- one hand-over -----

  /** The table after `n` replies of one session. */
  function Bumps(t: Table, id: SessionId, n: nat): Table {
    if n == 0 then t else Bump(Bumps(t, id, n - 1), id)
  }

  lemma {:induction false} BumpsCount(t: Table, id: SessionId, n: nat)
    requires id in t
    ensures id in Bumps(t, id, n) && Bumps(t, id, n)[id] == t[id].(s2cCounter := t[id].s2cCounter + n)
  {
    if n > 0 {
      BumpsCount(t, id, n - 1);
    }
  }

  /** The nonces of the next `n` replies after the counter `start`. */
  function Nonces(keys: DirectionKeys, start: nat, n: nat): (nonces: seq<bytes>)
    requires start + n < COUNTER_LIMIT
    ensures |nonces| == n && forall k :: 0 <= k < n ==> nonces[k] == NonceFor(keys, start + 1 + k)
  {
    if n == 0 then [] else Nonces(keys, start, n - 1) + [NonceFor(keys, start + n)]
  }

  /**
   * An instance persists a session, answers `n` times and is lost; another hydrates the session and answers `m` times.
   * Both seal under the same key, the second starts at the persisted counter, and their nonces are distinct exactly if
   * one of them did not answer.
   */
  lemma HandOver(st: R.State, s: SessionState, ttlFloor: int, put: real, n: nat, later: real, m: nat)
    requires !Expired(s, later) && later <= put + R.RecordTtl(s, ttlFloor, put) as real
    requires s.s2cCounter + n < COUNTER_LIMIT && s.s2cCounter + m < COUNTER_LIMIT
    ensures var stored := R.Put(st, s, ttlFloor, put);
            var first := Bumps(stored.cache, s.id, n);
            var found := R.Hydrate(R.State(map[], stored.kv), s.id, later).0;
            && s.id in first && first[s.id].s2c == s.s2c && first[s.id].s2cCounter == s.s2cCounter + n
            && found.Some? && found.value.s2c == s.s2c && found.value.s2cCounter == s.s2cCounter
            && (Unique(Nonces(s.s2c, s.s2cCounter, n) + Nonces(found.value.s2c, found.value.s2cCounter, m)) <==> n == 0 || m == 0)
            && forall k :: 0 <= k < n && k < m ==>
                 Nonces(s.s2c, s.s2cCounter, n)[k] == Nonces(found.value.s2c, found.value.s2cCounter, m)[k]
  {
    BumpsCount(R.Put(st, s, ttlFloor, put).cache, s.id, n);
    NoncesUnique(s.s2c, s.s2cCounter, n);
    NoncesUnique(s.s2c, s.s2cCounter, m);
    var a, b := Nonces(s.s2c, s.s2cCounter, n), Nonces(s.s2c, s.s2cCounter, m);
    if n > 0 && m > 0 {
      assert (a + b)[0] == (a + b)[n];
    } else {
      assert a + b == if n == 0 then b else a;
    }
  }

  lemma NoncesUnique(keys: DirectionKeys, start: nat, n: nat)
    requires start + n < COUNTER_LIMIT
    ensures Unique(Nonces(keys, start, n))
  {
    forall i, j | 0 <= i < j < n
      ensures Nonces(keys, start, n)[i] != Nonces(keys, start, n)[j]
    {
      if NonceFor(keys, start + 1 + i) == NonceFor(keys, start + 1 + j) {
        NonceForInjective(keys, start + 1 + i, start + 1 + j);
      }
    }
  }

  /** The client's answer to a repeated counter: it reports a replay and keeps its session, and does not handshake again. */
  lemma RepeatKeepsSession(encrypt: RawCipher, log: SealLog, later: SealLog, k: Transport.Keys, counter: nat, m: Memory,
                           method_: bytes, path: bytes, body: bytes, parse: Transport.Parse)
    requires IsAead(encrypt) && counter < COUNTER_LIMIT && counter in m.seen
    requires Extends(later, Seal(encrypt, log, k.s2c, counter, k.id, method_, path, body).value.1)
    ensures var wire := Seal(encrypt, log, k.s2c, counter, k.id, method_, path, body).value.0;
            var r := Transport.Response(200, Transport.OctetStream, wire, None);
            && Transport.Decode(r, k, later, m, method_, path, parse) == (Transport.Failure(Transport.REPLAY_DETECTED), m)
            && !Transport.SessionLost(r)
  {
    Transport.ResponseDecoded(encrypt, log, later, k, counter, m, method_, path, body, parse);
  }

  // ----- whole runs -----

  /** What the receive step does to the counters: a hydration takes the persisted one, a delivery writes its own back. */
  lemma ServeCounters(st: R.State, log: SealLog, req: Request, schema: bytes -> bool, clock: Clock, ttlFloor: int)
    requires |req.raw| >= MIN_ENVELOPE && Unpack(req.raw).Ok?
    requires Failover.Live(st, Identifier(Unpack(req.raw).value.sessionId), clock)
    ensures var id: SessionId := Identifier(Unpack(req.raw).value.sessionId);
            var (outcome, st') := R.Serve(st, log, req, schema, clock, ttlFloor);
            var counter := if id in st.cache then st.cache[id].s2cCounter else st.kv[id].blob.s2cCounter;
            && id in st'.cache && st'.cache[id].s2cCounter == counter
            && id in st'.kv && st'.kv[id].blob.s2cCounter == if outcome.Delivered? then counter else st.kv[id].blob.s2cCounter
  {
    var id: SessionId := Identifier(Unpack(req.raw).value.sessionId);
    var s := if id in st.cache then st.cache[id] else R.Deserialize(st.kv[id].blob);
    var (found, st1) := R.Resolve(st, id, clock);
    assert found == Some(s) && st1.kv == st.kv && s.id == id;
  }

  /** An instance's counter; `behind` if a reply had gone out since the record it was hydrated from was written. */
  datatype Held = Held(counter: nat, behind: bool)

  datatype Fleet = Fleet(cached: map<nat, Held>, persisted: nat, last: Option<nat>, used: seq<nat>)

  datatype Event = Serve(instance: nat, delivers: bool) | Reply(instance: nat) | Restart(instance: nat)

  const CREATED := Fleet(map[], 0, None, [])

  function Resolved(f: Fleet, i: nat): Held {
    if i in f.cached then f.cached[i]
    else Held(f.persisted, f.used != [] && f.persisted < f.used[|f.used| - 1])
  }

  function Step(f: Fleet, e: Event): Fleet {
    match e
    case Serve(i, delivers) =>
      var h := Resolved(f, i);
      Fleet(f.cached[i := h], if delivers then h.counter else f.persisted, Some(i), f.used)
    case Reply(i) =>
      if i !in f.cached then f
      else
        var h := f.cached[i];
        Fleet(f.cached[i := Held(h.counter + 1, h.behind)], f.persisted, f.last, f.used + [h.counter + 1])
    case Restart(i) => Fleet(f.cached - {i}, f.persisted, f.last, f.used)
  }

  /** One owner at a time: an instance that holds the session acts only if it was the last to serve it. */
  predicate Orderly(f: Fleet, e: Event) {
    !e.Restart? && e.instance in f.cached ==> f.last == Some(e.instance)
  }

  function Run(events: seq<Event>): Fleet {
    if events == [] then CREATED else Step(Run(events[..|events| - 1]), events[|events| - 1])
  }

  predicate OrderlyRun(events: seq<Event>) {
    events == [] ||
    (OrderlyRun(events[..|events| - 1]) && Orderly(Run(events[..|events| - 1]), events[|events| - 1]))
  }

  /** The reply comes from an instance that hydrated a record older than some reply. */
  predicate RepliesBehind(f: Fleet, e: Event) {
    e.Reply? && e.instance in f.cached && f.cached[e.instance].behind
  }

  predicate NeverBehind(events: seq<Event>) {
    events == [] ||
    (NeverBehind(events[..|events| - 1]) && !RepliesBehind(Run(events[..|events| - 1]), events[|events| - 1]))
  }

  predicate Inv(f: Fleet) {
    && (forall k :: 0 <= k < |f.used| ==> f.used[k] == k + 1) && f.persisted <= |f.used|
    && (f.last.Some? && f.last.value in f.cached ==>
          var h := f.cached[f.last.value]; if h.behind then h.counter < |f.used| else h.counter == |f.used|)
  }

  lemma StepCounts(f: Fleet, e: Event)
    requires Inv(f) && Orderly(f, e)
    ensures RepliesBehind(f, e) ==> !Unique(Step(f, e).used)
    ensures !RepliesBehind(f, e) ==> Inv(Step(f, e))
  {
    if RepliesBehind(f, e) {
      var c, used := f.cached[e.instance].counter, Step(f, e).used;
      assert used[c] == c + 1 == used[|f.used|];
    }
  }

  lemma RepeatsForGood(f: Fleet, e: Event)
    requires !Unique(f.used)
    ensures !Unique(Step(f, e).used)
  {
    var i, j :| 0 <= i < j < |f.used| && f.used[i] == f.used[j];
    assert Step(f, e).used[i] == Step(f, e).used[j];
  }

  /**
   * Over every run with one owner at a time no response counter is used twice, so no nonce under the session's key,
   * exactly if no instance replies that hydrated a record older than a reply; until then the counters are 1, 2, 3, ...
   */
  lemma {:induction false} CountersRepeat(events: seq<Event>)
    requires OrderlyRun(events)
    ensures Unique(Run(events).used) <==> NeverBehind(events)
    ensures NeverBehind(events) ==> Inv(Run(events))
  {
    if events != [] {
      var front, e := events[..|events| - 1], events[|events| - 1];
      CountersRepeat(front);
      if NeverBehind(front) {
        StepCounts(Run(front), e);
      } else {
        RepeatsForGood(Run(front), e);
      }
    }
  }

  /** Such runs exist: deliver, answer, fail over, deliver, answer. */
  lemma FailoverRepeats(i: nat, j: nat)
    requires i != j
    ensures var events := [Serve(i, true), Reply(i), Serve(j, true), Reply(j)];
            OrderlyRun(events) && Run(events).used == [1, 1]
  {
    var a, b, c, d := Serve(i, true), Reply(i), Serve(j, true), Reply(j);
    assert [a, b, c, d][..3] == [a, b, c] && [a, b, c][..2] == [a, b] && [a, b][..1] == [a] && [a][..0] == [];
    var f1 := Step(CREATED, a);
    var f2 := Step(f1, b);
    var f3 := Step(f2, c);
    assert Run([a]) == f1 && Run([a, b]) == f2 && Run([a, b, c]) == f3;
    assert OrderlyRun([a]) && OrderlyRun([a, b]) && OrderlyRun([a, b, c]);
    assert f2.used == [1] && f3.cached[j].counter == 0;
  }
}
