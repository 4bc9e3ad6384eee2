/** One session served by several instances in turn, each with its own cached window and one shared watermark. */
module Failover {
  import opened Bytes
  import opened Wire
  import opened Envelopes
  import opened Replay
  import opened Sessions
  import opened Router
  import R = RedisStore

  /** What one request does to an instance's window and the persisted watermark; `opens` is the outcome of the AEAD
      and the schema. */
  function ServeCounter(cached: Option<Window>, head: int, counter: int, opens: bool): (bool, Window, int) {
    var w := cached.GetOr(Window(head, {}));
    if !Accepts(w, counter) then (false, w, head)
    else if !opens then (false, Advance(w, counter), head)
    else (true, Advance(w, counter), Advance(w, counter).head)
  }

  function CachedWindow(st: R.State, id: SessionId): Option<Window> {
    if id in st.cache then Some(st.cache[id].window) else None
  }

  /** A session that is live at every reading of the clock. */
  predicate Live(st: R.State, id: SessionId, clock: Clock) {
    && (id in st.cache ==> st.cache[id].id == id && LiveAt(st.cache[id], clock))
    && id in st.kv && st.kv[id].blob.id == id && clock.hydrate <= st.kv[id].expires
    && LiveAt(R.Deserialize(st.kv[id].blob), clock)
  }

  predicate LiveAt(s: SessionState, clock: Clock) {
    !Expired(s, clock.lookup) && !Expired(s, clock.hydrate) && !Expired(s, clock.check)
  }

  /** The abstract step is what the store's receive step does to a live session. */
  lemma ServeIsServeCounter(st: R.State, log: SealLog, req: Request, schema: bytes -> bool, clock: Clock, ttlFloor: int)
    requires |req.raw| >= MIN_ENVELOPE && Unpack(req.raw).Ok?
    requires Live(st, Identifier(Unpack(req.raw).value.sessionId), clock)
    ensures var env := Unpack(req.raw).value;
            var id: SessionId := Identifier(env.sessionId);
            var (outcome, st') := R.Serve(st, log, req, schema, clock, ttlFloor);
            var s := if id in st.cache then st.cache[id] else R.Deserialize(st.kv[id].blob);
            var unsealed := Open(log, s.c2s, id, req.method_, req.path, req.raw);
            id in st'.cache && id in st'.kv
            && (outcome.Delivered?, st'.cache[id].window, st'.kv[id].blob.replayHigh)
               == ServeCounter(CachedWindow(st, id), st.kv[id].blob.replayHigh, env.counter,
                               unsealed.Ok? && schema(unsealed.value.1))
  {
    var env := Unpack(req.raw).value;
    var id: SessionId := Identifier(env.sessionId);
    var s := if id in st.cache then st.cache[id] else R.Deserialize(st.kv[id].blob);
    var (found, st1) := R.Resolve(st, id, clock);
    assert found == Some(s) && st1.kv == st.kv && s.id == id;
  }

  datatype Cached = Cached(window: Window, base: int, epoch: nat)

  /** A delivery, the hydration it belongs to and the watermark that hydration started from. */
  datatype Delivery = Delivery(epoch: nat, base: int, counter: int)

  datatype Fleet = Fleet(cached: map<nat, Cached>, head: int, last: Option<nat>, epoch: nat, delivered: seq<Delivery>)

  datatype Event = ServeOn(instance: nat, counter: int, opens: bool) | Restart(instance: nat)

  /** The session as created: watermark 0, nothing cached anywhere. */
  const CREATED: Fleet := Fleet(map[], 0, None, 0, [])

  function Hydrated(f: Fleet, i: nat): Cached {
    if i in f.cached then f.cached[i] else Cached(Window(f.head, {}), f.head, f.epoch + 1)
  }

  function Step(f: Fleet, e: Event): Fleet {
    match e
    case Restart(i) => Fleet(f.cached - {i}, f.head, f.last, f.epoch, f.delivered)
    case ServeOn(i, counter, opens) =>
      var c := Hydrated(f, i);
      var (delivered, w, head) := ServeCounter(Some(c.window), f.head, counter, opens);
      Fleet(f.cached[i := Cached(w, c.base, c.epoch)], head, Some(i), if i in f.cached then f.epoch else f.epoch + 1,
            f.delivered + if delivered then [Delivery(c.epoch, c.base, counter)] else [])
  }

  /** One owner at a time: an instance serves from its cache only if nobody served since. */
  predicate Orderly(f: Fleet, e: Event) {
    e.ServeOn? && e.instance in f.cached ==> f.last == Some(e.instance)
  }

  function Run(f: Fleet, events: seq<Event>): Fleet {
    if events == [] then f else Step(Run(f, events[..|events| - 1]), events[|events| - 1])
  }

  predicate OrderlyRun(f: Fleet, events: seq<Event>) {
    events == [] ||
    (OrderlyRun(f, events[..|events| - 1]) && Orderly(Run(f, events[..|events| - 1]), events[|events| - 1]))
  }

  /** A repeat is in a later hydration and within one window below the watermark that hydration started from. */
  predicate RepeatBounded(a: Delivery, b: Delivery) {
    a.counter == b.counter ==> a.epoch < b.epoch && b.base - WINDOW_BITS < b.counter <= b.base
  }

  ghost predicate OwnerInv(f: Fleet, c: Cached) {
    && c.epoch == f.epoch && c.base <= f.head <= c.window.head
    && forall d :: d in f.delivered ==> if d.epoch == c.epoch then d.counter in c.window.accepted else d.counter <= c.base
  }

  ghost predicate Inv(f: Fleet) {
    && (forall d :: d in f.delivered ==> 0 <= d.counter <= f.head && d.base <= f.head && d.epoch <= f.epoch)
    && (forall j, k :: 0 <= j < k < |f.delivered| ==> RepeatBounded(f.delivered[j], f.delivered[k]))
    && (f.last.Some? && f.last.value in f.cached ==> OwnerInv(f, f.cached[f.last.value]))
  }

  lemma ServeKeeps(f: Fleet, e: Event)
    requires Inv(f) && e.ServeOn? && Orderly(f, e)
    ensures Inv(Step(f, e)) && f.head <= Step(f, e).head
  {
    var c := Hydrated(f, e.instance);
    var f' := Step(f, e);
    var c' := f'.cached[e.instance];
    if |f'.delivered| > |f.delivered| {
      var d := Delivery(c.epoch, c.base, e.counter);
      assert f'.delivered == f.delivered + [d];
      forall j | 0 <= j < |f.delivered|
        ensures RepeatBounded(f.delivered[j], d)
      {
        assert f.delivered[j] in f.delivered;
      }
    } else {
      assert f'.delivered == f.delivered;
    }
    assert OwnerInv(f', c');
  }

  /** Over every orderly run the watermark never goes back, and a counter delivered twice was delivered by different
      hydrations and lies in the window below the later one's starting watermark. */
  lemma {:induction false} OrderlyRuns(f: Fleet, events: seq<Event>)
    requires Inv(f) && OrderlyRun(f, events)
    ensures Inv(Run(f, events)) && f.head <= Run(f, events).head
  {
    if events != [] {
      var front, e := events[..|events| - 1], events[|events| - 1];
      OrderlyRuns(f, front);
      if e.ServeOn? {
        ServeKeeps(Run(f, front), e);
      }
    }
  }

  lemma DeliveredTwice(events: seq<Event>, j: nat, k: nat)
    requires OrderlyRun(CREATED, events) && j < k < |Run(CREATED, events).delivered|
    ensures RepeatBounded(Run(CREATED, events).delivered[j], Run(CREATED, events).delivered[k])
  {
    OrderlyRuns(CREATED, events);
  }

  // ----- where a repeat's bound comes from -----

  /** The event hydrates its instance: from this watermark, into this epoch. */
  predicate HydratesAt(events: seq<Event>, p: nat, base: int, epoch: nat) {
    p < |events| && events[p].ServeOn? &&
    var f := Run(CREATED, events[..p]);
    events[p].instance !in f.cached && f.head == base && f.epoch + 1 == epoch
  }

  /** The event makes the k-th delivery. */
  predicate DeliversAt(events: seq<Event>, q: nat, k: nat) {
    && q < |events| && events[q].ServeOn?
    && |Run(CREATED, events[..q]).delivered| == k && |Run(CREATED, events[..q + 1]).delivered| == k + 1
  }

  lemma HydratesInFront(events: seq<Event>, p: nat, base: int, epoch: nat)
    requires events != [] && HydratesAt(events[..|events| - 1], p, base, epoch)
    ensures HydratesAt(events, p, base, epoch) && events[p] == events[..|events| - 1][p]
  {
    assert events[..|events| - 1][..p] == events[..p];
  }

  lemma {:induction false} CachedFrom(events: seq<Event>, i: nat) returns (p: nat)
    requires i in Run(CREATED, events).cached
    ensures var c := Run(CREATED, events).cached[i]; HydratesAt(events, p, c.base, c.epoch) && events[p].instance == i
  {
    var front, e := events[..|events| - 1], events[|events| - 1];
    if i in Run(CREATED, front).cached {
      p := CachedFrom(front, i);
      var c := Run(CREATED, front).cached[i];
      HydratesInFront(events, p, c.base, c.epoch);
    } else {
      p := |front|;
    }
  }

  /** Every delivery was made by some event of an instance that some event, no later, hydrated from its base. */
  lemma {:induction false} DeliveredFrom(events: seq<Event>, k: nat) returns (p: nat, q: nat)
    requires k < |Run(CREATED, events).delivered|
    ensures var d := Run(CREATED, events).delivered[k];
            && HydratesAt(events, p, d.base, d.epoch) && DeliversAt(events, q, k)
            && p <= q && events[p].instance == events[q].instance
  {
    var front, e := events[..|events| - 1], events[|events| - 1];
    var f := Run(CREATED, front);
    if k < |f.delivered| {
      p, q := DeliveredFrom(front, k);
      HydratesInFront(events, p, f.delivered[k].base, f.delivered[k].epoch);
      assert front[..q] == events[..q] && front[..q + 1] == events[..q + 1];
    } else {
      q := |front|;
      assert events[..q + 1] == events;
      if e.instance in f.cached {
        p := CachedFrom(front, e.instance);
        HydratesInFront(events, p, f.cached[e.instance].base, f.cached[e.instance].epoch);
      } else {
        p := q;
      }
    }
  }

  lemma {:induction false} DeliveredGrows(events: seq<Event>, p: nat)
    requires p <= |events|
    ensures Run(CREATED, events[..p]).delivered <= Run(CREATED, events).delivered
  {
    if p < |events| {
      var front := events[..|events| - 1];
      assert front[..p] == events[..p];
      DeliveredGrows(front, p);
    } else {
      assert events[..p] == events;
    }
  }

  /** After a hydration every delivery of an orderly run belongs to its epoch or a later one. */
  lemma {:induction false} LaterEpochs(events: seq<Event>, p: nat, base: int, epoch: nat)
    requires OrderlyRun(CREATED, events) && HydratesAt(events, p, base, epoch)
    ensures var f := Run(CREATED, events);
            && epoch <= f.epoch
            && forall j :: |Run(CREATED, events[..p]).delivered| <= j < |f.delivered| ==> epoch <= f.delivered[j].epoch
  {
    var front, e := events[..|events| - 1], events[|events| - 1];
    OrderlyRuns(CREATED, front);
    assert front[..p] == events[..p];
    if p < |front| {
      LaterEpochs(front, p, base, epoch);
    }
  }

  /** A repeat's bound is the watermark at the hydration behind it, which lies between the two deliveries. */
  lemma RepeatFrom(events: seq<Event>, j: nat, k: nat) returns (p: nat, q: nat)
    requires OrderlyRun(CREATED, events) && j < k < |Run(CREATED, events).delivered|
    requires Run(CREATED, events).delivered[j].counter == Run(CREATED, events).delivered[k].counter
    ensures var d := Run(CREATED, events).delivered;
            && HydratesAt(events, p, d[k].base, d[k].epoch) && DeliversAt(events, q, k)
            && p <= q && events[p].instance == events[q].instance
            && j < |Run(CREATED, events[..p]).delivered| <= k
            && d[k].base - WINDOW_BITS < d[k].counter <= d[k].base
  {
    var d := Run(CREATED, events).delivered;
    DeliveredTwice(events, j, k);
    p, q := DeliveredFrom(events, k);
    LaterEpochs(events, p, d[k].base, d[k].epoch);
    assert events[..q][..p] == events[..p];
    DeliveredGrows(events[..q], p);
  }

  /** The bound is met: right after a failover every counter of that window is accepted once more. */
  lemma WindowReopens(f: Fleet, instance: nat, counter: int)
    requires instance !in f.cached && 0 <= counter
    ensures |Step(f, ServeOn(instance, counter, true)).delivered| == |f.delivered| + 1 <==> counter > f.head - WINDOW_BITS
  {
  }

  /** Without the discipline: a delivery moves the watermark back exactly when the serving instance's own watermark and
      the counter are both behind it, and an instance that far behind does deliver again. */
  lemma StaleCache(f: Fleet, i: nat, counter: int)
    requires i in f.cached
    ensures var f' := Step(f, ServeOn(i, counter, true));
            && (|f'.delivered| > |f.delivered| ==>
                  (f'.head < f.head <==> f.cached[i].window.head < f.head && counter < f.head))
            && (0 <= counter && f.cached[i].window.head < counter && counter !in f.cached[i].window.accepted ==>
                  |f'.delivered| > |f.delivered|)
  {
  }

  /** Two instances taking turns with warm caches deliver counter 5 twice and break the bound. */
  lemma WarmHandBack()
    ensures var events := [ServeOn(0, 1, true), ServeOn(1, 5, true), ServeOn(0, 5, true)];
            && !OrderlyRun(CREATED, events)
            && |Run(CREATED, events).delivered| == 3
            && !RepeatBounded(Run(CREATED, events).delivered[1], Run(CREATED, events).delivered[2])
  {
    var a, b, c := ServeOn(0, 1, true), ServeOn(1, 5, true), ServeOn(0, 5, true);
    var f1 := Step(CREATED, a);
    var f2 := Step(f1, b);
    var f3 := Step(f2, c);
    assert [a, b, c][..2] == [a, b] && [a, b][..1] == [a] && [a][..0] == [];
    assert Run(CREATED, [a]) == f1 && Run(CREATED, [a, b]) == f2 && Run(CREATED, [a, b, c]) == f3;
    assert f1.delivered == [Delivery(1, 0, 1)] && f2.delivered == [Delivery(1, 0, 1), Delivery(2, 1, 5)];
    assert f3.delivered == f2.delivered + [Delivery(1, 0, 5)];
    assert !Orderly(f2, c);
  }
}
