/** Whole runs of the request channel: honest clients, one server, and a network that may deliver any bytes to any endpoint. */
module Channel {
  import opened Bytes
  import opened Wire
  import opened Envelopes
  import opened Sessions
  import opened Router

  /** One request as its sender or its receiver sees it; the method is upper-cased. */
  datatype Message = Message(id: SessionId, counter: nat, method_: bytes, path: bytes, plaintext: bytes)

  datatype Client = Client(c2s: DirectionKeys, counter: nat)

  datatype World = World(
    log: SealLog,
    table: Table,
    clients: map<SessionId, Client>,  // every session ever created
    responseKeys: set<Key>,           // every s2c key ever created
    sent: seq<Message>,
    delivered: seq<Message>)

  const START: World := World(map[], map[], map[], {}, [], [])

  datatype Event =
    | Handshake(material: SessionMaterial, now: real, ttl: int, maxLifetime: int)
    | Send(id: SessionId, method_: bytes, path: bytes, plaintext: bytes)
    | Deliver(req: Request, schema: bytes -> bool, clock: Clock)
    | Respond(id: SessionId, keys: DirectionKeys, counter: nat, method_: bytes, path: bytes, plaintext: bytes)
    | Close(id: SessionId, clock: Clock)
    | ReapAt(now: real)

  /** Session ids are fresh, keys of the two directions are never equal, and a server seals responses only
      under a response key or the zeroed key of a closed session. */
  predicate Admissible(w: World, e: Event) {
    && (e.Handshake? ==> FreshSession(w, e.material))
    && (e.Send? ==> e.id in w.clients)
    && (e.Respond? ==> e.counter < COUNTER_LIMIT && (e.keys.key in w.responseKeys || e.keys.key == ZERO_KEY))
  }

  predicate FreshSession(w: World, m: SessionMaterial) {
    && m.sessionId !in w.clients
    && m.c2s.key != ZERO_KEY && m.c2s.key != m.s2c.key && m.c2s.key !in w.responseKeys
    && forall id :: id in w.clients ==> w.clients[id].c2s.key != m.s2c.key
  }

  function Step(encrypt: RawCipher, w: World, e: Event): World
    requires Admissible(w, e)
  {
    match e
    case Handshake(m, now, ttl, maxLifetime) =>
      World(w.log, w.table[m.sessionId := NewSession(m, now, ttl, maxLifetime)],
            w.clients[m.sessionId := Client(m.c2s, 0)], w.responseKeys + {m.s2c.key}, w.sent, w.delivered)
    case Send(id, method_, path, plaintext) =>
      SendStep(w, id, Upper(method_), path, plaintext,
               Seal(encrypt, w.log, w.clients[id].c2s, NextCounter(w, id), id, Upper(method_), path, plaintext))
    case Deliver(req, schema, clock) =>
      DeliverStep(w, req, Receive(w.table, w.log, req, schema, clock))
    case Respond(id, keys, counter, method_, path, plaintext) =>
      World(Seal(encrypt, w.log, keys, counter, id, method_, path, plaintext).value.1, w.table,
            w.clients, w.responseKeys, w.sent, w.delivered)
    case Close(id, clock) => WithTable(w, TableTerminate(w.table, id, clock).1)
    case ReapAt(now) => WithTable(w, Reap(w.table, now))
  }

  function WithTable(w: World, table: Table): World {
    World(w.log, table, w.clients, w.responseKeys, w.sent, w.delivered)
  }

  function DeliverStep(w: World, req: Request, r: (Outcome, Table)): World {
    World(w.log, r.1, w.clients, w.responseKeys, w.sent,
          w.delivered + if r.0.Delivered?
                        then [Message(r.0.id, r.0.counter, Upper(req.method_), req.path, r.0.plaintext)]
                        else [])
  }

  function NextCounter(w: World, id: SessionId): nat
    requires id in w.clients
  {
    w.clients[id].counter + 1
  }

  /** The client takes the next counter before sealing; a counter past 64 bits sends nothing. */
  function SendStep(w: World, id: SessionId, method_: bytes, path: bytes, plaintext: bytes,
                    sealed: Result<(bytes, SealLog), SealError>): World
    requires id in w.clients
  {
    World(if sealed.Ok? then sealed.value.1 else w.log, w.table,
          w.clients[id := Client(w.clients[id].c2s, NextCounter(w, id))], w.responseKeys,
          w.sent + if sealed.Ok? then [Message(id, NextCounter(w, id), method_, path, plaintext)] else [],
          w.delivered)
  }

  ghost predicate AdmissibleRun(encrypt: RawCipher, w: World, events: seq<Event>)
    decreases |events|
  {
    events == [] || (Admissible(w, events[0]) && AdmissibleRun(encrypt, Step(encrypt, w, events[0]), events[1..]))
  }

  ghost function Run(encrypt: RawCipher, w: World, events: seq<Event>): World
    requires AdmissibleRun(encrypt, w, events)
    decreases |events|
  {
    if events == [] then w else Run(encrypt, Step(encrypt, w, events[0]), events[1..])
  }

  /** The same session, counter and plaintext, and the same bytes after the bar-joined header. */
  predicate Matches(s: Message, d: Message) {
    s.id == d.id && s.counter == d.counter && s.plaintext == d.plaintext
    && s.method_ + [BAR] + s.path == d.method_ + [BAR] + d.path
  }

  predicate Distinct(ms: seq<Message>) {
    forall i, j :: 0 <= i < j < |ms| ==> ms[i].id != ms[j].id || ms[i].counter != ms[j].counter
  }

  predicate SealedFrom(q: Query, plaintext: bytes, s: Message) {
    && s.counter < COUNTER_LIMIT
    && plaintext == s.plaintext
    && q.aad == BuildAad(s.method_, s.path, s.id.raw, s.counter)
    && Upper(s.method_) == s.method_
  }

  ghost predicate WasSent(sent: seq<Message>, d: Message) {
    exists i :: 0 <= i < |sent| && Matches(sent[i], d)
  }

  ghost predicate WasSealed(sent: seq<Message>, q: Query, plaintext: bytes) {
    exists i :: 0 <= i < |sent| && SealedFrom(q, plaintext, sent[i])
  }

  lemma SentGrows(sent: seq<Message>, m: Message)
    ensures forall d :: WasSent(sent, d) ==> WasSent(sent + [m], d)
    ensures forall q, p :: WasSealed(sent, q, p) ==> WasSealed(sent + [m], q, p)
    ensures forall q, p :: SealedFrom(q, p, m) ==> WasSealed(sent + [m], q, p)
  {
    var more := sent + [m];
    assert more[|sent|] == m;
    assert forall i :: 0 <= i < |sent| ==> more[i] == sent[i];
  }

  /** The key sealed requests of some session. */
  ghost predicate RequestKey(w: World, key: Key) {
    exists id :: id in w.clients && w.clients[id].c2s.key == key
  }

  ghost predicate LogInv(w: World) {
    forall q :: q in w.log ==>
      if RequestKey(w, q.key) then WasSealed(w.sent, q, w.log[q]) else q.key in w.responseKeys || q.key == ZERO_KEY
  }

  ghost predicate KeysInv(w: World) {
    && (forall id :: id in w.clients ==> w.clients[id].c2s.key !in w.responseKeys && w.clients[id].c2s.key != ZERO_KEY)
    && (forall id :: id in w.table ==> w.table[id].id == id && id in w.clients && w.table[id].c2s == w.clients[id].c2s)
  }

  ghost predicate SentInv(w: World) {
    && Distinct(w.sent)
    && forall i :: 0 <= i < |w.sent| ==> w.sent[i].id in w.clients && w.sent[i].counter <= w.clients[w.sent[i].id].counter
  }

  ghost predicate DeliveredFrom(w: World, d: Message) {
    && d.id in w.clients
    && (d.id in w.table ==> d.counter in w.table[d.id].window.accepted)
    && WasSent(w.sent, d)
  }

  ghost predicate DeliveredInv(w: World) {
    && Distinct(w.delivered)
    && forall j :: 0 <= j < |w.delivered| ==> DeliveredFrom(w, w.delivered[j])
  }

  ghost predicate Inv(w: World) {
    LogInv(w) && KeysInv(w) && SentInv(w) && DeliveredInv(w)
  }

  /** Earlier deliveries stay accounted for while windows, clients and the sent list only grow. */
  lemma DeliveredKept(w: World, w': World)
    requires DeliveredInv(w) && w'.delivered == w.delivered && w.clients.Keys <= w'.clients.Keys
    requires forall id :: id in w.clients && id in w'.table ==>
               id in w.table && w.table[id].window.accepted <= w'.table[id].window.accepted
    requires forall d :: WasSent(w.sent, d) ==> WasSent(w'.sent, d)
    ensures DeliveredInv(w')
  {
    forall j | 0 <= j < |w'.delivered|
      ensures DeliveredFrom(w', w'.delivered[j])
    {
      assert DeliveredFrom(w, w.delivered[j]);
    }
  }

  /** The world that knows one more session, whoever holds it. */
  function Enlisted(w: World, m: SessionMaterial): World {
    World(w.log, w.table, w.clients[m.sessionId := Client(m.c2s, 0)], w.responseKeys + {m.s2c.key}, w.sent, w.delivered)
  }

  lemma EnlistedLog(w: World, m: SessionMaterial)
    requires LogInv(w) && FreshSession(w, m)
    ensures LogInv(Enlisted(w, m))
  {
    var w' := Enlisted(w, m);
    forall q | q in w.log
      ensures if RequestKey(w', q.key) then WasSealed(w'.sent, q, w'.log[q])
              else q.key in w'.responseKeys || q.key == ZERO_KEY
    {
      if RequestKey(w, q.key) {
        var id :| id in w.clients && w.clients[id].c2s.key == q.key;
        assert id in w'.clients && w'.clients[id].c2s.key == q.key;
      } else {
        NoNewRequestKey(w, m, q.key);
      }
    }
  }

  lemma NoNewRequestKey(w: World, m: SessionMaterial, key: Key)
    requires !RequestKey(w, key) && key != m.c2s.key
    ensures !RequestKey(Enlisted(w, m), key)
  {
  }

  lemma EnlistedKeys(w: World, m: SessionMaterial)
    requires KeysInv(w) && SentInv(w) && FreshSession(w, m)
    ensures KeysInv(Enlisted(w, m)) && SentInv(Enlisted(w, m))
  {
  }

  lemma HandshakeKeeps(encrypt: RawCipher, w: World, e: Event)
    requires Inv(w) && e.Handshake? && Admissible(w, e)
    ensures Inv(Step(encrypt, w, e))
  {
    EnlistedLog(w, e.material);
    EnlistedKeys(w, e.material);
    DeliveredKept(w, Enlisted(w, e.material));
    StoreNew(Enlisted(w, e.material), NewSession(e.material, e.now, e.ttl, e.maxLifetime));
  }

  /** A session of a known client enters the table before anything of its id is delivered. */
  lemma StoreNew(w: World, s: SessionState)
    requires Inv(w) && s.id in w.clients && s.c2s == w.clients[s.id].c2s
    requires forall d :: d in w.delivered ==> d.id != s.id
    ensures Inv(WithTable(w, w.table[s.id := s]))
  {
    var w' := WithTable(w, w.table[s.id := s]);
    assert forall key :: RequestKey(w', key) <==> RequestKey(w, key);
    forall j | 0 <= j < |w'.delivered|
      ensures DeliveredFrom(w', w'.delivered[j])
    {
      assert DeliveredFrom(w, w.delivered[j]) && w.delivered[j] in w.delivered;
    }
  }

  lemma SendKeeps(encrypt: RawCipher, w: World, e: Event)
    requires Inv(w) && e.Send? && Admissible(w, e)
    ensures Inv(Step(encrypt, w, e))
  {
    var w' := Step(encrypt, w, e);
    var c := NextCounter(w, e.id);
    assert w'.clients == w.clients[e.id := Client(w.clients[e.id].c2s, c)];
    RequestKeysKept(w, w');
    if c < COUNTER_LIMIT {
      var m := Message(e.id, c, Upper(e.method_), e.path, e.plaintext);
      var q0 := SealQuery(encrypt, w.clients[e.id].c2s, c, e.id, m.method_, e.path, e.plaintext);
      UpperTwice(e.method_);
      SentGrows(w.sent, m);
      assert SealedFrom(q0, e.plaintext, m);
      LogGrows(w, w', q0, m);
      SentOneMore(w, w', m);
    } else {
      assert w'.sent == w.sent;
    }
    DeliveredKept(w, w');
  }

  lemma RequestKeysKept(w: World, w': World)
    requires w'.clients.Keys == w.clients.Keys
    requires forall id :: id in w.clients ==> w'.clients[id].c2s == w.clients[id].c2s
    ensures forall key :: RequestKey(w', key) <==> RequestKey(w, key)
  {
  }

  lemma LogGrows(w: World, w': World, q0: Query, m: Message)
    requires LogInv(w) && w'.log == w.log[q0 := m.plaintext] && w'.sent == w.sent + [m]
    requires w'.responseKeys == w.responseKeys && forall key :: RequestKey(w', key) <==> RequestKey(w, key)
    requires SealedFrom(q0, m.plaintext, m) && RequestKey(w, q0.key)
    ensures LogInv(w')
  {
    SentGrows(w.sent, m);
  }

  lemma SentOneMore(w: World, w': World, m: Message)
    requires SentInv(w) && m.id in w.clients && m.counter == w.clients[m.id].counter + 1
    requires w'.sent == w.sent + [m] && w'.clients == w.clients[m.id := Client(w.clients[m.id].c2s, m.counter)]
    ensures SentInv(w')
  {
  }

  /** A response is sealed under no request key, so it never opens as a request. */
  lemma RespondKeeps(encrypt: RawCipher, w: World, e: Event)
    requires Inv(w) && e.Respond? && Admissible(w, e)
    ensures Inv(Step(encrypt, w, e))
  {
    var w' := Step(encrypt, w, e);
    assert forall key :: RequestKey(w', key) <==> RequestKey(w, key);
    assert !RequestKey(w, e.keys.key);
    DeliveredKept(w, w');
  }

  /** Only requests leave the table out of `Close` and `ReapAt`. */
  lemma ShrinkKeeps(w: World, table': Table)
    requires Inv(w)
    requires forall id :: id in table' ==> id in w.table && table'[id] == w.table[id]
    ensures Inv(WithTable(w, table'))
  {
    var w' := WithTable(w, table');
    assert forall key :: RequestKey(w', key) <==> RequestKey(w, key);
    DeliveredKept(w, w');
  }

  /** What the server accepts was sent, to that endpoint, and not delivered before. */
  lemma DeliverKeeps(encrypt: RawCipher, w: World, e: Event)
    requires Inv(w) && e.Deliver?
    ensures Inv(Step(encrypt, w, e))
  {
    var w' := Step(encrypt, w, e);
    var env := Unpack(e.req.raw);
    if |e.req.raw| < MIN_ENVELOPE || env.Err? {
      ShrinkKeeps(w, w.table);
      return;
    }
    var id: SessionId := Identifier(env.value.sessionId);
    var (found, t1) := TableLookup(w.table, id, e.clock);
    if found.None? {
      ShrinkKeeps(w, t1);
    } else {
      assert found.value == w.table[id] && t1 == w.table;
      AdmitKeeps(w, found.value, env.value.counter, e.req, e.schema, e.clock.touch);
    }
  }

  lemma AdmitKeeps(w: World, s: SessionState, counter: nat, req: Request, schema: bytes -> bool, now: real)
    requires Inv(w) && s.id in w.table && w.table[s.id] == s
    requires Unpack(req.raw).Ok? && Unpack(req.raw).value.counter == counter
    ensures var r := Admit(s, w.log, counter, req, schema, now);
            Inv(DeliverStep(w, req, (r.0, w.table[s.id := r.1])))
  {
    var (outcome, s') := Admit(s, w.log, counter, req, schema, now);
    assert s'.c2s == s.c2s && s'.id == s.id && s.window.accepted <= s'.window.accepted;
    var w1 := WithTable(w, w.table[s.id := s']);
    UpdateKeeps(w, s');
    if outcome.Delivered? {
      DeliveryWasSent(w, s, req);
      var d := Message(s.id, counter, Upper(req.method_), req.path, outcome.plaintext);
      assert d.counter !in s.window.accepted && d.counter in s'.window.accepted;
      DeliverOnce(w, w1, d);
    } else {
      assert w.delivered + [] == w.delivered;
    }
  }

  /** Moving one session's window forward. */
  lemma UpdateKeeps(w: World, s': SessionState)
    requires Inv(w) && s'.id in w.table && s'.c2s == w.table[s'.id].c2s
    requires w.table[s'.id].window.accepted <= s'.window.accepted
    ensures Inv(WithTable(w, w.table[s'.id := s']))
  {
    var w' := WithTable(w, w.table[s'.id := s']);
    RequestKeysKept(w, w');
    DeliveredKept(w, w');
  }

  /** A delivery whose counter was new to the window before and is in it after. */
  lemma DeliverOnce(w: World, w1: World, d: Message)
    requires Inv(w) && Inv(w1) && w1.delivered == w.delivered && w1.sent == w.sent
    requires d.id in w.table && d.counter !in w.table[d.id].window.accepted
    requires d.id in w1.table && d.counter in w1.table[d.id].window.accepted
    requires WasSent(w.sent, d)
    ensures Inv(World(w1.log, w1.table, w1.clients, w1.responseKeys, w1.sent, w1.delivered + [d]))
  {
    var w' := World(w1.log, w1.table, w1.clients, w1.responseKeys, w1.sent, w1.delivered + [d]);
    RequestKeysKept(w1, w');
    forall j | 0 <= j < |w.delivered|
      ensures DeliveredFrom(w', w.delivered[j])
      ensures w.delivered[j].id != d.id || w.delivered[j].counter != d.counter
    {
      assert DeliveredFrom(w, w.delivered[j]) && DeliveredFrom(w1, w1.delivered[j]);
    }
    assert DeliveredFrom(w', d);
  }

  lemma DeliveryWasSent(w: World, s: SessionState, req: Request)
    requires Inv(w) && s.id in w.table && w.table[s.id] == s
    requires Open(w.log, s.c2s, s.id, req.method_, req.path, req.raw).Ok?
    ensures var (env, plaintext) := Open(w.log, s.c2s, s.id, req.method_, req.path, req.raw).value;
            WasSent(w.sent, Message(s.id, env.counter, Upper(req.method_), req.path, plaintext))
  {
    var (env, plaintext) := Open(w.log, s.c2s, s.id, req.method_, req.path, req.raw).value;
    OpenIsLogged(w.log, s.c2s, s.id, req.method_, req.path, req.raw);
    var q :| q in w.log && w.log[q] == plaintext && q.key == s.c2s.key
             && q.aad == BuildAad(req.method_, req.path, s.id.raw, env.counter);
    assert w.clients[s.id].c2s.key == q.key;
    assert RequestKey(w, q.key);
    var i :| 0 <= i < |w.sent| && SealedFrom(q, w.log[q], w.sent[i]);
    var m := w.sent[i];
    AadInjective(m.method_, m.path, m.id.raw, m.counter, req.method_, req.path, s.id.raw, env.counter);
    assert Matches(m, Message(s.id, env.counter, Upper(req.method_), req.path, plaintext));
  }

  lemma StepKeeps(encrypt: RawCipher, w: World, e: Event)
    requires Inv(w) && Admissible(w, e)
    ensures Inv(Step(encrypt, w, e))
  {
    match e
    case Handshake(_, _, _, _) => HandshakeKeeps(encrypt, w, e);
    case Send(_, _, _, _) => SendKeeps(encrypt, w, e);
    case Deliver(_, _, _) => DeliverKeeps(encrypt, w, e);
    case Respond(_, _, _, _, _, _) => RespondKeeps(encrypt, w, e);
    case Close(id, clock) => ShrinkKeeps(w, TableTerminate(w.table, id, clock).1);
    case ReapAt(now) => ShrinkKeeps(w, Reap(w.table, now));
  }

  lemma {:induction false} RunKeeps(encrypt: RawCipher, w: World, events: seq<Event>)
    requires Inv(w) && AdmissibleRun(encrypt, w, events)
    ensures Inv(Run(encrypt, w, events))
    decreases |events|
  {
    if events != [] {
      StepKeeps(encrypt, w, events[0]);
      RunKeeps(encrypt, Step(encrypt, w, events[0]), events[1..]);
    }
  }

  /** Over every run the delivered requests map one-to-one into the sent ones, each with its session, counter and
      plaintext; method and path agree too unless a method holds the separator. */
  lemma AuthenticAtMostOnce(encrypt: RawCipher, events: seq<Event>) returns (origin: seq<nat>)
    requires AdmissibleRun(encrypt, START, events)
    ensures var w := Run(encrypt, START, events);
            && |origin| == |w.delivered|
            && (forall j, k :: 0 <= j < k < |origin| ==> origin[j] != origin[k])
            && (forall j :: 0 <= j < |origin| ==> origin[j] < |w.sent| && Matches(w.sent[origin[j]], w.delivered[j]))
            && (forall j :: 0 <= j < |origin| && BAR !in w.sent[origin[j]].method_ && BAR !in w.delivered[j].method_ ==>
                  w.sent[origin[j]] == w.delivered[j])
  {
    RunKeeps(encrypt, START, events);
    var w := Run(encrypt, START, events);
    origin := Origins(w, |w.delivered|);
    forall j | 0 <= j < |origin| && BAR !in w.sent[origin[j]].method_ && BAR !in w.delivered[j].method_
      ensures w.sent[origin[j]] == w.delivered[j]
    {
      var s, d := w.sent[origin[j]], w.delivered[j];
      FirstSplit(BAR, s.method_, s.path, d.method_, d.path);
    }
  }

  /**
   * One client call puts one envelope on the wire, or two when it tries again. Its body is delivered at most once unless
   * it tried again and both envelopes were delivered.
   */
  lemma CallDelivered(encrypt: RawCipher, events: seq<Event>, first: nat, second: Option<nat>) returns (origin: seq<nat>)
    requires AdmissibleRun(encrypt, START, events)
    ensures var w := Run(encrypt, START, events);
            && |origin| == |w.delivered|
            && (forall j :: 0 <= j < |origin| ==> origin[j] < |w.sent| && Matches(w.sent[origin[j]], w.delivered[j]))
            && (forall j, k :: 0 <= j < k < |origin| && OfCall(origin[j], first, second) && OfCall(origin[k], first, second) ==>
                  second.Some? && {origin[j], origin[k]} == {first, second.value})
  {
    origin := AuthenticAtMostOnce(encrypt, events);
  }

  predicate OfCall(sent: nat, first: nat, second: Option<nat>) {
    sent == first || second == Some(sent)
  }

  lemma {:induction false} Origins(w: World, n: nat) returns (origin: seq<nat>)
    requires Inv(w) && n <= |w.delivered|
    ensures |origin| == n
    ensures forall j :: 0 <= j < n ==> origin[j] < |w.sent| && Matches(w.sent[origin[j]], w.delivered[j])
    ensures forall j, k :: 0 <= j < k < n ==> origin[j] != origin[k]
  {
    origin := [];
    if n > 0 {
      origin := Origins(w, n - 1);
      assert DeliveredFrom(w, w.delivered[n - 1]);
      var i :| 0 <= i < |w.sent| && Matches(w.sent[i], w.delivered[n - 1]);
      origin := origin + [i];
    }
  }
}
