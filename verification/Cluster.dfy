/** Runs of several instances, each with its own cache, over one broker, as one session's two fleets see them. */
module Clusters {
  import opened Bytes
  import opened Wire
  import opened Envelopes
  import opened Replay
  import opened Sessions
  import opened Router
  import R = RedisStore
  import F = Failover
  import C = ResponseFailover

  /** Every instance's cache, the shared broker, and one session's delivered and used counters. */
  datatype Cluster = Cluster(caches: map<nat, Table>, kv: R.Broker, delivered: seq<int>, used: seq<nat>)

  datatype Arrival =
    | Arrive(instance: nat, log: SealLog, req: Request, schema: bytes -> bool, clock: Clock)
    | Answer(instance: nat)
    | Reboot(instance: nat)

  function StateOf(c: Cluster, i: nat): R.State {
    R.State(if i in c.caches then c.caches[i] else map[], c.kv)
  }

  predicate Holds(c: Cluster, i: nat, id: SessionId) {
    i in c.caches && id in c.caches[i]
  }

  function Step(c: Cluster, id: SessionId, a: Arrival, ttlFloor: int): Cluster {
    match a
    case Reboot(i) => c.(caches := c.caches - {i})
    case Answer(i) =>
      if !Holds(c, i, id) then c
      else c.(caches := c.caches[i := Bump(c.caches[i], id)], used := c.used + [c.caches[i][id].s2cCounter + 1])
    case Arrive(i, log, req, schema, clock) =>
      var (outcome, st) := R.Serve(StateOf(c, i), log, req, schema, clock, ttlFloor);
      Cluster(c.caches[i := st.cache], st.kv,
              c.delivered + (if outcome.Delivered? && outcome.id == id then [outcome.counter] else []), c.used)
  }

  function Run(c: Cluster, id: SessionId, arrivals: seq<Arrival>, ttlFloor: int): Cluster {
    if arrivals == [] then c
    else Step(Run(c, id, arrivals[..|arrivals| - 1], ttlFloor), id, arrivals[|arrivals| - 1], ttlFloor)
  }

  /** The request names this session. */
  predicate Names(req: Request, id: SessionId) {
    |req.raw| >= MIN_ENVELOPE && Unpack(req.raw).Ok? && Unpack(req.raw).value.sessionId == id.raw
  }

  /** The AEAD and the schema accept the request under the session's keys as this instance has them. */
  predicate Opens(st: R.State, id: SessionId, log: SealLog, req: Request, schema: bytes -> bool) {
    id in st.kv &&
    var s := if id in st.cache then st.cache[id] else R.Deserialize(st.kv[id].blob);
    var unsealed := Open(log, s.c2s, id, req.method_, req.path, req.raw);
    unsealed.Ok? && schema(unsealed.value.1)
  }

  /** The session is live whenever a request for it arrives. */
  predicate LiveStep(c: Cluster, id: SessionId, a: Arrival) {
    a.Arrive? && Names(a.req, id) ==> F.Live(StateOf(c, a.instance), id, a.clock)
  }

  predicate LiveRun(c: Cluster, id: SessionId, arrivals: seq<Arrival>, ttlFloor: int) {
    arrivals == [] ||
    (var front := arrivals[..|arrivals| - 1];
     LiveRun(c, id, front, ttlFloor) && LiveStep(Run(c, id, front, ttlFloor), id, arrivals[|arrivals| - 1]))
  }

  // ----- other sessions -----

  ghost predicate Keyed(st: R.State) {
    WellKeyed(st.cache) && forall k :: k in st.kv ==> st.kv[k].blob.id == k
  }

  /** A step of the store that concerns another session. */
  ghost predicate LeavesAlone(st: R.State, st': R.State, id: SessionId) {
    && Keyed(st')
    && (id in st'.cache <==> id in st.cache) && (id in st.cache ==> st'.cache[id] == st.cache[id])
    && (id in st'.kv <==> id in st.kv) && (id in st.kv ==> st'.kv[id] == st.kv[id])
  }

  lemma LookupOther(st: R.State, other: SessionId, now: real, id: SessionId)
    requires Keyed(st) && other != id
    ensures var (found, st') := R.Lookup(st, other, now); LeavesAlone(st, st', id) && (found.Some? ==> found.value.id == other)
  {
  }

  lemma HydrateOther(st: R.State, other: SessionId, now: real, id: SessionId)
    requires Keyed(st) && other != id
    ensures var (found, st') := R.Hydrate(st, other, now); LeavesAlone(st, st', id) && (found.Some? ==> found.value.id == other)
  {
  }

  lemma ResolveOther(st: R.State, other: SessionId, clock: Clock, id: SessionId)
    requires Keyed(st) && other != id
    ensures var (found, st') := R.Resolve(st, other, clock); LeavesAlone(st, st', id) && (found.Some? ==> found.value.id == other)
  {
    LookupOther(st, other, clock.lookup, id);
    var (local, st1) := R.Lookup(st, other, clock.lookup);
    HydrateOther(st1, other, clock.hydrate, id);
  }

  lemma FoundOther(st: R.State, s: SessionState, log: SealLog, counter: nat, req: Request, schema: bytes -> bool, now: real,
                   ttlFloor: int, id: SessionId)
    requires Keyed(st) && s.id != id
    ensures var (outcome, st') := R.ServeFound(st, Admit(s, log, counter, req, schema, now), ttlFloor, now);
            LeavesAlone(st, st', id) && (outcome.Delivered? ==> outcome.id != id)
  {
  }

  /** Requests for other sessions leave this one alone. */
  lemma OtherUntouched(st: R.State, log: SealLog, req: Request, schema: bytes -> bool, clock: Clock, ttlFloor: int, id: SessionId)
    requires Keyed(st) && !Names(req, id)
    ensures var (outcome, st') := R.Serve(st, log, req, schema, clock, ttlFloor);
            LeavesAlone(st, st', id) && (outcome.Delivered? ==> outcome.id != id)
  {
    if |req.raw| >= MIN_ENVELOPE && Unpack(req.raw).Ok? {
      var other: SessionId := Identifier(Unpack(req.raw).value.sessionId);
      assert other != id;
      ResolveOther(st, other, clock, id);
      var (found, st1) := R.Resolve(st, other, clock);
      if found.Some? {
        FoundOther(st1, found.value, log, Unpack(req.raw).value.counter, req, schema, clock.touch, ttlFloor, id);
      }
    }
  }

  /** A request for the session itself keeps every entry under its own id. */
  lemma ServeKeyed(st: R.State, log: SealLog, req: Request, schema: bytes -> bool, clock: Clock, ttlFloor: int, id: SessionId)
    requires Keyed(st) && Names(req, id) && F.Live(st, id, clock)
    ensures var (outcome, st') := R.Serve(st, log, req, schema, clock, ttlFloor);
            Keyed(st') && (outcome.Delivered? ==> outcome.id == id && outcome.counter == Unpack(req.raw).value.counter)
  {
    var s := if id in st.cache then st.cache[id] else R.Deserialize(st.kv[id].blob);
    assert Identifier(Unpack(req.raw).value.sessionId) == id;
    var (found, st1) := R.Resolve(st, id, clock);
    assert found == Some(s) && st1.kv == st.kv && s.id == id;
  }

  ghost predicate Sound(c: Cluster, id: SessionId) {
    (forall i :: i in c.caches ==> WellKeyed(c.caches[i])) && (forall k :: k in c.kv ==> c.kv[k].blob.id == k) && id in c.kv
  }

  /** A step that leaves the session as it was on every instance and in the broker. */
  ghost predicate Idles(c: Cluster, d: Cluster, id: SessionId) {
    && Sound(d, id) && d.delivered == c.delivered && d.used == c.used && id in c.kv && d.kv[id] == c.kv[id]
    && (forall k :: Holds(d, k, id) <==> Holds(c, k, id))
    && (forall k :: Holds(c, k, id) && Holds(d, k, id) ==> d.caches[k][id] == c.caches[k][id])
  }

  lemma OtherIdles(c: Cluster, id: SessionId, a: Arrival, ttlFloor: int)
    requires Sound(c, id) && a.Arrive? && !Names(a.req, id)
    ensures Idles(c, Step(c, id, a, ttlFloor), id)
  {
    var st := StateOf(c, a.instance);
    OtherUntouched(st, a.log, a.req, a.schema, a.clock, ttlFloor, id);
    assert c.delivered + [] == c.delivered;
  }

  // ----- the window fleet -----

  ghost predicate Windows(c: Cluster, f: F.Fleet, id: SessionId) {
    && Sound(c, id) && c.kv[id].blob.replayHigh == f.head
    && (forall i :: i in f.cached <==> Holds(c, i, id))
    && (forall i :: i in f.cached ==> f.cached[i].window == c.caches[i][id].window)
    && |f.delivered| == |c.delivered|
    && (forall k :: 0 <= k < |f.delivered| ==> f.delivered[k].counter == c.delivered[k])
  }

  /** What an arrival is to the window: nothing, a restart, or a request on its counter. */
  function WindowEvent(c: Cluster, id: SessionId, a: Arrival): seq<F.Event> {
    match a
    case Reboot(i) => [F.Restart(i)]
    case Answer(_) => []
    case Arrive(i, log, req, schema, _) =>
      if Names(req, id) then [F.ServeOn(i, Unpack(req.raw).value.counter, Opens(StateOf(c, i), id, log, req, schema))] else []
  }

  function WindowEvents(c: Cluster, id: SessionId, arrivals: seq<Arrival>, ttlFloor: int): seq<F.Event> {
    if arrivals == [] then []
    else
      var front := arrivals[..|arrivals| - 1];
      WindowEvents(c, id, front, ttlFloor) + WindowEvent(Run(c, id, front, ttlFloor), id, arrivals[|arrivals| - 1])
  }

  function Applied(f: F.Fleet, e: seq<F.Event>): F.Fleet
    requires |e| <= 1
  {
    if e == [] then f else F.Step(f, e[0])
  }

  /** One instance's new state and verdict, as the window fleet sees them. */
  lemma InstanceWindows(c: Cluster, f: F.Fleet, id: SessionId, i: nat, st: R.State, delivered: bool, counter: int, opens: bool)
    requires Windows(c, f, id) && Keyed(st) && id in st.cache && id in st.kv
    requires (delivered, st.cache[id].window, st.kv[id].blob.replayHigh)
             == F.ServeCounter(if i in f.cached then Some(f.cached[i].window) else None, f.head, counter, opens)
    ensures Windows(Cluster(c.caches[i := st.cache], st.kv, c.delivered + (if delivered then [counter] else []), c.used),
                    F.Step(f, F.ServeOn(i, counter, opens)), id)
  {
  }

  lemma ArrivalWindows(c: Cluster, f: F.Fleet, id: SessionId, a: Arrival, ttlFloor: int)
    requires Windows(c, f, id) && a.Arrive? && Names(a.req, id) && F.Live(StateOf(c, a.instance), id, a.clock)
    ensures Windows(Step(c, id, a, ttlFloor), Applied(f, WindowEvent(c, id, a)), id)
  {
    var st, counter := StateOf(c, a.instance), Unpack(a.req.raw).value.counter;
    ServeKeyed(st, a.log, a.req, a.schema, a.clock, ttlFloor, id);
    F.ServeIsServeCounter(st, a.log, a.req, a.schema, a.clock, ttlFloor);
    assert Identifier(Unpack(a.req.raw).value.sessionId) == id;
    var (outcome, st') := R.Serve(st, a.log, a.req, a.schema, a.clock, ttlFloor);
    InstanceWindows(c, f, id, a.instance, st', outcome.Delivered?, counter, Opens(st, id, a.log, a.req, a.schema));
  }

  lemma StepWindows(c: Cluster, f: F.Fleet, id: SessionId, a: Arrival, ttlFloor: int)
    requires Windows(c, f, id) && LiveStep(c, id, a)
    ensures Windows(Step(c, id, a, ttlFloor), Applied(f, WindowEvent(c, id, a)), id)
  {
    if a.Arrive? {
      if Names(a.req, id) {
        ArrivalWindows(c, f, id, a, ttlFloor);
      } else {
        OtherIdles(c, id, a, ttlFloor);
      }
    }
  }

  lemma RunApplied(f: F.Fleet, events: seq<F.Event>, e: seq<F.Event>)
    requires |e| <= 1
    ensures F.Run(f, events + e) == Applied(F.Run(f, events), e)
  {
    if e == [] {
      assert events + e == events;
    } else {
      assert (events + e)[..|events|] == events;
    }
  }

  /** Every run of the instances over their broker is, for a live session, a run of its window fleet. */
  lemma {:induction false} WindowsSimulate(c: Cluster, f: F.Fleet, id: SessionId, arrivals: seq<Arrival>, ttlFloor: int)
    requires Windows(c, f, id) && LiveRun(c, id, arrivals, ttlFloor)
    ensures Windows(Run(c, id, arrivals, ttlFloor), F.Run(f, WindowEvents(c, id, arrivals, ttlFloor)), id)
  {
    if arrivals != [] {
      var front, a := arrivals[..|arrivals| - 1], arrivals[|arrivals| - 1];
      WindowsSimulate(c, f, id, front, ttlFloor);
      var m := Run(c, id, front, ttlFloor);
      StepWindows(m, F.Run(f, WindowEvents(c, id, front, ttlFloor)), id, a, ttlFloor);
      RunApplied(f, WindowEvents(c, id, front, ttlFloor), WindowEvent(m, id, a));
    }
  }

  /** The a-th arrival is behind the e-th event. */
  predicate Behind(c: Cluster, id: SessionId, arrivals: seq<Arrival>, ttlFloor: int, e: nat, a: nat) {
    var events := WindowEvents(c, id, arrivals, ttlFloor);
    && e < |events| && a < |arrivals|
    && WindowEvents(c, id, arrivals[..a], ttlFloor) == events[..e]
    && WindowEvent(Run(c, id, arrivals[..a], ttlFloor), id, arrivals[a]) == [events[e]]
    && WindowEvents(c, id, arrivals[..a + 1], ttlFloor) == events[..e + 1]
  }

  lemma BehindLast(c: Cluster, id: SessionId, arrivals: seq<Arrival>, ttlFloor: int, e: nat)
    requires arrivals != [] && e < |WindowEvents(c, id, arrivals, ttlFloor)|
    requires e >= |WindowEvents(c, id, arrivals[..|arrivals| - 1], ttlFloor)|
    ensures Behind(c, id, arrivals, ttlFloor, e, |arrivals| - 1)
  {
    var front := arrivals[..|arrivals| - 1];
    LastEvent(WindowEvents(c, id, front, ttlFloor), WindowEvent(Run(c, id, front, ttlFloor), id, arrivals[|front|]), e);
    assert arrivals[..|arrivals| - 1 + 1] == arrivals;
  }

  lemma BehindEarlier(c: Cluster, id: SessionId, arrivals: seq<Arrival>, ttlFloor: int, e: nat, a: nat)
    requires arrivals != [] && Behind(c, id, arrivals[..|arrivals| - 1], ttlFloor, e, a)
    ensures Behind(c, id, arrivals, ttlFloor, e, a)
  {
    var front := arrivals[..|arrivals| - 1];
    LastEvent(WindowEvents(c, id, front, ttlFloor), WindowEvent(Run(c, id, front, ttlFloor), id, arrivals[|front|]), e);
    assert front[..a] == arrivals[..a] && front[..a + 1] == arrivals[..a + 1] && front[a] == arrivals[a];
  }

  lemma {:induction false} ArrivalOf(c: Cluster, id: SessionId, arrivals: seq<Arrival>, ttlFloor: int, e: nat) returns (a: nat)
    requires e < |WindowEvents(c, id, arrivals, ttlFloor)|
    ensures Behind(c, id, arrivals, ttlFloor, e, a)
  {
    var front := arrivals[..|arrivals| - 1];
    if e < |WindowEvents(c, id, front, ttlFloor)| {
      a := ArrivalOf(c, id, front, ttlFloor, e);
      BehindEarlier(c, id, arrivals, ttlFloor, e, a);
    } else {
      a := |front|;
      BehindLast(c, id, arrivals, ttlFloor, e);
    }
  }

  lemma LastEvent(before: seq<F.Event>, last: seq<F.Event>, e: nat)
    requires e < |before + last| && |last| <= 1
    ensures var events := before + last;
            if e < |before| then events[..e] == before[..e] && events[..e + 1] == before[..e + 1] && events[e] == before[e]
            else events[..e] == before && events[..e + 1] == events && last == [events[e]]
  {
  }

  lemma {:induction false} LivePrefix(c: Cluster, id: SessionId, arrivals: seq<Arrival>, ttlFloor: int, a: nat)
    requires LiveRun(c, id, arrivals, ttlFloor) && a <= |arrivals|
    ensures LiveRun(c, id, arrivals[..a], ttlFloor)
  {
    if a < |arrivals| {
      assert arrivals[..|arrivals| - 1][..a] == arrivals[..a];
      LivePrefix(c, id, arrivals[..|arrivals| - 1], ttlFloor, a);
    } else {
      assert arrivals[..a] == arrivals;
    }
  }

  /** The cluster before the arrival behind an event, as the fleet sees it. */
  lemma Before(c: Cluster, id: SessionId, arrivals: seq<Arrival>, ttlFloor: int, e: nat) returns (a: nat)
    requires Windows(c, F.CREATED, id) && LiveRun(c, id, arrivals, ttlFloor)
    requires e < |WindowEvents(c, id, arrivals, ttlFloor)|
    ensures var events := WindowEvents(c, id, arrivals, ttlFloor);
            && a < |arrivals|
            && WindowEvents(c, id, arrivals[..a], ttlFloor) == events[..e]
            && WindowEvent(Run(c, id, arrivals[..a], ttlFloor), id, arrivals[a]) == [events[e]]
            && Windows(Run(c, id, arrivals[..a], ttlFloor), F.Run(F.CREATED, events[..e]), id)
            && Windows(Run(c, id, arrivals[..a + 1], ttlFloor), F.Run(F.CREATED, events[..e + 1]), id)
  {
    a := ArrivalOf(c, id, arrivals, ttlFloor, e);
    LivePrefix(c, id, arrivals, ttlFloor, a);
    LivePrefix(c, id, arrivals, ttlFloor, a + 1);
    WindowsSimulate(c, F.CREATED, id, arrivals[..a], ttlFloor);
    WindowsSimulate(c, F.CREATED, id, arrivals[..a + 1], ttlFloor);
  }

  /** The arrival finds its instance without the session, so it is hydrated from this watermark of the broker. */
  ghost predicate HydratesFrom(c: Cluster, id: SessionId, arrivals: seq<Arrival>, ttlFloor: int, p: nat, base: int) {
    p < |arrivals| && arrivals[p].Arrive? && Names(arrivals[p].req, id) &&
    var m := Run(c, id, arrivals[..p], ttlFloor);
    !Holds(m, arrivals[p].instance, id) && id in m.kv && m.kv[id].blob.replayHigh == base
  }

  /** The arrival makes the k-th delivery. */
  predicate Delivers(c: Cluster, id: SessionId, arrivals: seq<Arrival>, ttlFloor: int, q: nat, k: nat) {
    && q < |arrivals| && arrivals[q].Arrive? && Names(arrivals[q].req, id)
    && |Run(c, id, arrivals[..q], ttlFloor).delivered| == k && |Run(c, id, arrivals[..q + 1], ttlFloor).delivered| == k + 1
  }

  /**
   * With one owner at a time, a counter is delivered twice only around a hydration: after the first delivery and no
   * later than the second, the instance that makes the second found the session missing from its cache, and the counter
   * lies within one window below the watermark that the broker had just then.
   */
  lemma DeliversTwice(c: Cluster, id: SessionId, arrivals: seq<Arrival>, ttlFloor: int, j: nat, k: nat)
    returns (p: nat, q: nat, base: int)
    requires Windows(c, F.CREATED, id) && LiveRun(c, id, arrivals, ttlFloor)
    requires F.OrderlyRun(F.CREATED, WindowEvents(c, id, arrivals, ttlFloor))
    requires var n := Run(c, id, arrivals, ttlFloor); j < k < |n.delivered| && n.delivered[j] == n.delivered[k]
    ensures HydratesFrom(c, id, arrivals, ttlFloor, p, base) && Delivers(c, id, arrivals, ttlFloor, q, k)
    ensures p <= q && arrivals[p].instance == arrivals[q].instance
    ensures j < |Run(c, id, arrivals[..p], ttlFloor).delivered| <= k
    ensures base - WINDOW_BITS < Run(c, id, arrivals, ttlFloor).delivered[k] <= base
  {
    var events := WindowEvents(c, id, arrivals, ttlFloor);
    WindowsSimulate(c, F.CREATED, id, arrivals, ttlFloor);
    var ep, eq := F.RepeatFrom(events, j, k);
    base := F.Run(F.CREATED, events).delivered[k].base;
    p := Before(c, id, arrivals, ttlFloor, ep);
    q := Before(c, id, arrivals, ttlFloor, eq);
    if q < p {
      EventsBefore(c, id, arrivals, ttlFloor, q, p);
    }
  }

  lemma EventsBefore(c: Cluster, id: SessionId, arrivals: seq<Arrival>, ttlFloor: int, q: nat, p: nat)
    requires q < p <= |arrivals|
    ensures |WindowEvents(c, id, arrivals[..q], ttlFloor)| + |WindowEvent(Run(c, id, arrivals[..q], ttlFloor), id, arrivals[q])|
            <= |WindowEvents(c, id, arrivals[..p], ttlFloor)|
  {
    assert arrivals[..p][..q + 1] == arrivals[..q + 1] && arrivals[..q + 1][..q] == arrivals[..q];
    MoreEvents(c, id, arrivals[..p], ttlFloor, q + 1);
  }

  lemma {:induction false} MoreEvents(c: Cluster, id: SessionId, arrivals: seq<Arrival>, ttlFloor: int, q: nat)
    requires q <= |arrivals|
    ensures |WindowEvents(c, id, arrivals[..q], ttlFloor)| <= |WindowEvents(c, id, arrivals, ttlFloor)|
  {
    if q < |arrivals| {
      assert arrivals[..|arrivals| - 1][..q] == arrivals[..q];
      MoreEvents(c, id, arrivals[..|arrivals| - 1], ttlFloor, q);
    } else {
      assert arrivals[..q] == arrivals;
    }
  }

  /** And the broker's watermark never goes back. */
  lemma WatermarkRises(c: Cluster, id: SessionId, arrivals: seq<Arrival>, ttlFloor: int)
    requires Windows(c, F.CREATED, id) && LiveRun(c, id, arrivals, ttlFloor)
    requires F.OrderlyRun(F.CREATED, WindowEvents(c, id, arrivals, ttlFloor))
    ensures var n := Run(c, id, arrivals, ttlFloor); id in n.kv && c.kv[id].blob.replayHigh <= n.kv[id].blob.replayHigh
  {
    WindowsSimulate(c, F.CREATED, id, arrivals, ttlFloor);
    F.OrderlyRuns(F.CREATED, WindowEvents(c, id, arrivals, ttlFloor));
  }

  // ----- the counter fleet -----

  ghost predicate Counters(c: Cluster, f: C.Fleet, id: SessionId) {
    && Sound(c, id) && c.kv[id].blob.s2cCounter == f.persisted && c.used == f.used
    && (forall i :: i in f.cached <==> Holds(c, i, id))
    && (forall i :: i in f.cached ==> f.cached[i].counter == c.caches[i][id].s2cCounter)
  }

  /** What an arrival is to the response counter. */
  function CounterEvent(c: Cluster, id: SessionId, a: Arrival, ttlFloor: int): seq<C.Event> {
    match a
    case Reboot(i) => [C.Restart(i)]
    case Answer(i) => [C.Reply(i)]
    case Arrive(i, log, req, schema, clock) =>
      if Names(req, id) then [C.Serve(i, R.Serve(StateOf(c, i), log, req, schema, clock, ttlFloor).0.Delivered?)] else []
  }

  function CounterEvents(c: Cluster, id: SessionId, arrivals: seq<Arrival>, ttlFloor: int): seq<C.Event> {
    if arrivals == [] then []
    else
      var front := arrivals[..|arrivals| - 1];
      CounterEvents(c, id, front, ttlFloor) + CounterEvent(Run(c, id, front, ttlFloor), id, arrivals[|arrivals| - 1], ttlFloor)
  }

  lemma ArrivalCounters(c: Cluster, f: C.Fleet, id: SessionId, a: Arrival, ttlFloor: int)
    requires Counters(c, f, id) && a.Arrive? && Names(a.req, id) && F.Live(StateOf(c, a.instance), id, a.clock)
    ensures Counters(Step(c, id, a, ttlFloor), C.Step(f, CounterEvent(c, id, a, ttlFloor)[0]), id)
  {
    var st := StateOf(c, a.instance);
    ServeKeyed(st, a.log, a.req, a.schema, a.clock, ttlFloor, id);
    C.ServeCounters(st, a.log, a.req, a.schema, a.clock, ttlFloor);
    assert Identifier(Unpack(a.req.raw).value.sessionId) == id;
    var (outcome, st') := R.Serve(st, a.log, a.req, a.schema, a.clock, ttlFloor);
    InstanceCounters(c, f, id, a.instance, st', outcome.Delivered?,
                     c.delivered + (if outcome.Delivered? && outcome.id == id then [outcome.counter] else []));
  }

  lemma InstanceCounters(c: Cluster, f: C.Fleet, id: SessionId, i: nat, st: R.State, delivers: bool, delivered: seq<int>)
    requires Counters(c, f, id) && Keyed(st) && id in st.cache && id in st.kv
    requires st.cache[id].s2cCounter == C.Resolved(f, i).counter
    requires st.kv[id].blob.s2cCounter == if delivers then C.Resolved(f, i).counter else f.persisted
    ensures Counters(Cluster(c.caches[i := st.cache], st.kv, delivered, c.used), C.Step(f, C.Serve(i, delivers)), id)
  {
  }

  lemma StepCounters(c: Cluster, f: C.Fleet, id: SessionId, a: Arrival, ttlFloor: int)
    requires Counters(c, f, id) && LiveStep(c, id, a)
    ensures var e := CounterEvent(c, id, a, ttlFloor);
            Counters(Step(c, id, a, ttlFloor), if e == [] then f else C.Step(f, e[0]), id)
  {
    match a
    case Reboot(_) =>
    case Answer(i) =>
    case Arrive(_, _, req, _, _) =>
      if Names(req, id) {
        ArrivalCounters(c, f, id, a, ttlFloor);
      } else {
        OtherIdles(c, id, a, ttlFloor);
      }
  }

  /** And, for the same session, a run of its counter fleet. */
  lemma {:induction false} CountersSimulate(c: Cluster, id: SessionId, arrivals: seq<Arrival>, ttlFloor: int)
    requires Counters(c, C.CREATED, id) && LiveRun(c, id, arrivals, ttlFloor)
    ensures Counters(Run(c, id, arrivals, ttlFloor), C.Run(CounterEvents(c, id, arrivals, ttlFloor)), id)
  {
    if arrivals != [] {
      var front, a := arrivals[..|arrivals| - 1], arrivals[|arrivals| - 1];
      CountersSimulate(c, id, front, ttlFloor);
      var m, events := Run(c, id, front, ttlFloor), CounterEvents(c, id, front, ttlFloor);
      StepCounters(m, C.Run(events), id, a, ttlFloor);
      var e := CounterEvent(m, id, a, ttlFloor);
      if e == [] {
        assert events + e == events;
      } else {
        assert (events + e)[..|events|] == events;
      }
    }
  }

  /**
   * Over every run of the instances with one owner at a time, the session's replies use no counter twice if and only if
   * no instance replies that hydrated a record older than a reply.
   */
  lemma RepliesRepeat(c: Cluster, id: SessionId, arrivals: seq<Arrival>, ttlFloor: int)
    requires Counters(c, C.CREATED, id) && LiveRun(c, id, arrivals, ttlFloor)
    requires C.OrderlyRun(CounterEvents(c, id, arrivals, ttlFloor))
    ensures Unique(Run(c, id, arrivals, ttlFloor).used) <==> C.NeverBehind(CounterEvents(c, id, arrivals, ttlFloor))
  {
    CountersSimulate(c, id, arrivals, ttlFloor);
    C.CountersRepeat(CounterEvents(c, id, arrivals, ttlFloor));
  }
}
