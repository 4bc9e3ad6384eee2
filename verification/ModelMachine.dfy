/** The model manager as a step machine: one step runs from one suspending await to the next. */
module ModelMachine {
  import opened Bytes
  import opened ModelCache
  import opened ModelLru

  datatype Req = Req(name: SlotName, nCtx: Option<int>)

  /**
   * Where a call is suspended. `Waiting`: on the load lock of its key. `Evicting`: holding that lock, inside the
   * unload of a victim. `Draining`: inside the unload of the first of several slots, holding no lock.
   */
  datatype Task =
    | Waiting(req: Req)
    | Evicting(req: Req, victim: Loaded)
    | Draining(targets: seq<Loaded>)

  /** `made[b]` is the slot that was created with backend `b`; `stopping` are the slots whose unload has begun. */
  datatype Machine = Machine(c: Cache, made: seq<Loaded>, stopping: set<nat>, closing: bool, tasks: map<nat, Task>)

  datatype Config = Config(max: nat, nCtxDefault: int)

  /**
   * `ok` says whether loading the model succeeds if this step gets that far. `Queue` is a call that finds the lock free
   * but other calls waiting for it, and waits behind them.
   */
  datatype Action =
    | Call(tid: nat, req: Req, ok: bool)
    | Queue(tid: nat, req: Req)
    | Wake(tid: nat, ok: bool)
    | Drained(tid: nat, ok: bool)
    | Force(tid: nat, tenant: string, model: string)
    | Shutdown(tid: nat)
    | Idle(tid: nat, backend: nat)
    | Cancel(tid: nat)

  function Key(r: Req): string {
    CacheKey(r.name)
  }

  /** The call holds the load lock of its key. */
  predicate Loads(t: Task) {
    t.Evicting?
  }

  ghost predicate Locked(m: Machine, key: string) {
    exists t :: t in m.tasks && Loads(m.tasks[t]) && Key(m.tasks[t].req) == key
  }

  ghost predicate Queued(m: Machine, key: string) {
    exists t :: t in m.tasks && m.tasks[t].Waiting? && Key(m.tasks[t].req) == key
  }

  function Finish(m: Machine, tid: nat): Machine {
    m.(tasks := m.tasks - {tid})
  }

  function Park(m: Machine, tid: nat, t: Task): Machine {
    m.(tasks := m.tasks[tid := t])
  }

  function Made(m: Machine, r: Req, g: Config): Loaded {
    Loaded(Key(r), r.name, m.c.next, WantedCtx(r.nCtx, g.nCtxDefault))
  }

  /** The eviction loop with the lock held: unload the oldest slot, or load and insert with no suspension between. */
  function Proceed(m: Machine, tid: nat, r: Req, ok: bool, g: Config): Machine
    requires g.max >= 1
  {
    if |m.c.loaded| >= g.max then
      var victim := m.c.loaded[0];
      Park(m, tid, Evicting(r, victim)).(stopping := m.stopping + {victim.backend})
    else if ok then
      Finish(m, tid).(c := Insert(m.c, r.name, WantedCtx(r.nCtx, g.nCtxDefault)), made := m.made + [Made(m, r, g)])
    else Finish(m, tid)
  }

  /** Begin to unload a list of slots; an empty list ends at once. */
  function Drain(m: Machine, tid: nat, targets: seq<Loaded>): Machine {
    if targets == [] then Finish(m, tid)
    else Park(m, tid, Draining(targets)).(stopping := m.stopping + {targets[0].backend})
  }

  function AfterUnload(m: Machine, l: Loaded): Machine {
    m.(c := Unload(m.c, l))
  }

  ghost function Step(m: Machine, a: Action, g: Config): Machine
    requires g.max >= 1
  {
    match a
    case Call(tid, r, ok) =>
      if tid in m.tasks then m
      else if Hit(m.c, Key(r), r.nCtx) then m.(c := MoveToEnd(m.c, Key(r)))
      else if Locked(m, Key(r)) then Park(m, tid, Waiting(r))
      else Proceed(m, tid, r, ok, g)
    case Queue(tid, r) =>
      if tid in m.tasks || Hit(m.c, Key(r), r.nCtx) || Locked(m, Key(r)) || !Queued(m, Key(r)) then m
      else Park(m, tid, Waiting(r))
    case Wake(tid, ok) =>
      if tid !in m.tasks || !m.tasks[tid].Waiting? || Locked(m, Key(m.tasks[tid].req)) then m
      else if Hit(m.c, Key(m.tasks[tid].req), m.tasks[tid].req.nCtx) then Finish(m, tid)
      else Proceed(m, tid, m.tasks[tid].req, ok, g)
    case Drained(tid, ok) =>
      if tid !in m.tasks then m
      else (match m.tasks[tid]
        case Waiting(_) => m
        case Evicting(r, victim) => Proceed(AfterUnload(m, victim), tid, r, ok, g)
        case Draining(targets) =>
          if targets == [] then m else Drain(AfterUnload(m, targets[0]), tid, targets[1..]))
    case Force(tid, tenant, model) =>
      if tid in m.tasks then m else Drain(m, tid, Selected(m.c.loaded, Prefix(tenant, model)))
    case Shutdown(tid) =>
      if tid in m.tasks then m else Drain(m, tid, m.c.loaded).(closing := true)
    case Idle(tid, b) =>
      if tid in m.tasks || m.closing || b >= |m.made| || b in m.stopping then m else Drain(m, tid, [m.made[b]])
    case Cancel(tid) => Finish(m, tid)
  }

  ghost function RunFrom(m: Machine, acts: seq<Action>, g: Config): Machine
    requires g.max >= 1
  {
    if acts == [] then m else Step(RunFrom(m, acts[..|acts| - 1], g), acts[|acts| - 1], g)
  }

  const START := Machine(Cache([], 0, []), [], {}, false, map[])

  // ----- what every step keeps -----

  predicate Known(made: seq<Loaded>, l: Loaded) {
    l.backend < |made| && made[l.backend] == l
  }

  predicate TaskKnown(made: seq<Loaded>, t: Task) {
    match t
    case Waiting(_) => true
    case Evicting(_, victim) => Known(made, victim)
    case Draining(targets) => forall l :: l in targets ==> Known(made, l)
  }

  /** Every slot that the map or a suspended call can name was made once, under the key its name spells. */
  ghost predicate Recorded(m: Machine) {
    && |m.made| == m.c.next
    && (forall b :: 0 <= b < |m.made| ==> m.made[b].backend == b && m.made[b].key == CacheKey(m.made[b].name))
    && (forall l :: l in m.c.loaded ==> Known(m.made, l))
    && (forall t :: t in m.tasks ==> TaskKnown(m.made, m.tasks[t]))
  }

  /** At most one call loads a key. */
  ghost predicate Exclusive(m: Machine) {
    forall t, u :: t in m.tasks && u in m.tasks && Loads(m.tasks[t]) && Loads(m.tasks[u]) && t != u ==>
      Key(m.tasks[t].req) != Key(m.tasks[u].req)
  }

  /** A call that loads with the default context still misses its key. */
  ghost predicate Missing(m: Machine) {
    forall t :: t in m.tasks && Loads(m.tasks[t]) && m.tasks[t].req.nCtx.None? ==>
      Key(m.tasks[t].req) !in Keys(m.c.loaded)
  }

  ghost predicate Inv(m: Machine, g: Config) {
    Sound(m.c, g.max) && Recorded(m) && Exclusive(m) && Missing(m)
  }

  lemma KeysMember(loaded: seq<Loaded>, key: string)
    ensures key in Keys(loaded) <==> exists l :: l in loaded && l.key == key
  {
    if key in Keys(loaded) {
      var i :| 0 <= i < |loaded| && Keys(loaded)[i] == key;
      assert loaded[i] in loaded;
    }
    if l :| l in loaded && l.key == key {
      var i :| 0 <= i < |loaded| && loaded[i] == l;
      assert Keys(loaded)[i] == key;
    }
  }

  /** A map that only lost or reordered slots. */
  predicate Shrunk(c: Cache, d: Cache, max: nat) {
    Sound(d, max) && d.next == c.next && forall l :: l in d.loaded ==> l in c.loaded
  }

  lemma MoveShrinks(c: Cache, key: string, max: nat)
    requires Sound(c, max) && IndexOf(c.loaded, key) < |c.loaded|
    ensures Shrunk(c, MoveToEnd(c, key), max)
  {
    var i := IndexOf(c.loaded, key);
    MovedLists(c.loaded, i);
    MoveUnique(Keys(c.loaded), i);
    MoveMembers(c.loaded, i);
  }

  lemma MoveMembers<X>(xs: seq<X>, i: nat)
    requires i < |xs|
    ensures |RemoveAt(xs, i) + [xs[i]]| == |xs| && forall x :: x in RemoveAt(xs, i) + [xs[i]] ==> x in xs
  {
  }

  lemma RemoveShrinks<X>(xs: seq<X>, i: nat)
    requires i < |xs|
    ensures Unique(xs) ==> Unique(RemoveAt(xs, i))
    ensures forall x :: x in RemoveAt(xs, i) ==> x in xs
  {
  }

  lemma UnloadShrinks(c: Cache, l: Loaded, max: nat)
    requires Sound(c, max)
    ensures Shrunk(c, Unload(c, l), max)
  {
    var i := IndexOf(c.loaded, l.key);
    if i < |c.loaded| {
      KeysRemoveAt(c.loaded, i);
      RemoveShrinks(Keys(c.loaded), i);
      RemoveShrinks(c.loaded, i);
    }
  }

  lemma ShrinkKeeps(m: Machine, d: Cache, g: Config)
    requires Inv(m, g) && Shrunk(m.c, d, g.max)
    ensures Inv(m.(c := d), g)
  {
    forall key | key in Keys(d.loaded)
      ensures key in Keys(m.c.loaded)
    {
      KeysMember(d.loaded, key);
      KeysMember(m.c.loaded, key);
    }
  }

  lemma FinishKeeps(m: Machine, tid: nat, g: Config)
    requires Inv(m, g)
    ensures Inv(Finish(m, tid), g)
  {
  }

  lemma ParkKeeps(m: Machine, tid: nat, t: Task, stopping: set<nat>, g: Config)
    requires Inv(m, g) && !Loads(t) && TaskKnown(m.made, t)
    ensures Inv(Park(m, tid, t).(stopping := stopping), g)
  {
  }

  lemma DrainKeeps(m: Machine, tid: nat, targets: seq<Loaded>, g: Config)
    requires Inv(m, g) && forall l :: l in targets ==> Known(m.made, l)
    ensures Inv(Drain(m, tid, targets), g)
  {
    if targets == [] {
      FinishKeeps(m, tid, g);
    } else {
      ParkKeeps(m, tid, Draining(targets), m.stopping + {targets[0].backend}, g);
    }
  }

  /** The caller holds the lock of its key or finds it free, and has looked for the key in the map. */
  ghost predicate MayLoad(m: Machine, tid: nat, r: Req) {
    && (forall t :: t in m.tasks && t != tid && Loads(m.tasks[t]) ==> Key(m.tasks[t].req) != Key(r))
    && (r.nCtx.None? ==> Key(r) !in Keys(m.c.loaded))
  }

  lemma InsertKeys(c: Cache, name: SlotName, nCtx: int, max: nat)
    requires |c.loaded| < max && Unique(Keys(c.loaded))
    ensures Sound(Insert(c, name, nCtx), max)
    ensures forall k :: k in Keys(Insert(c, name, nCtx).loaded) ==> k in Keys(c.loaded) || k == CacheKey(name)
    ensures forall l :: l in Insert(c, name, nCtx).loaded ==>
              l in c.loaded || l == Loaded(CacheKey(name), name, c.next, nCtx)
  {
    var i, l := IndexOf(c.loaded, CacheKey(name)), Loaded(CacheKey(name), name, c.next, nCtx);
    HitIffResident(c, CacheKey(name));
    if i == |c.loaded| {
      KeysConcat(c.loaded, [l]);
    } else {
      assert Keys(c.loaded[i := l]) == Keys(c.loaded);
    }
  }

  lemma InsertKeeps(m: Machine, tid: nat, r: Req, g: Config)
    requires g.max >= 1 && Inv(m, g) && MayLoad(m, tid, r) && |m.c.loaded| < g.max
    ensures Inv(Proceed(m, tid, r, true, g), g)
  {
    var n := Proceed(m, tid, r, true, g);
    InsertKeys(m.c, r.name, WantedCtx(r.nCtx, g.nCtxDefault), g.max);
    assert forall b :: 0 <= b < |m.made| ==> n.made[b] == m.made[b];
    forall t | t in n.tasks
      ensures TaskKnown(n.made, n.tasks[t])
    {
      assert t in m.tasks && TaskKnown(m.made, m.tasks[t]);
    }
  }

  lemma ProceedKeeps(m: Machine, tid: nat, r: Req, ok: bool, g: Config)
    requires g.max >= 1 && Inv(m, g) && MayLoad(m, tid, r)
    ensures Inv(Proceed(m, tid, r, ok, g), g)
  {
    if |m.c.loaded| >= g.max {
      assert m.c.loaded[0] in m.c.loaded;
    } else if ok {
      InsertKeeps(m, tid, r, g);
    } else {
      FinishKeeps(m, tid, g);
    }
  }

  lemma MissedMayLoad(m: Machine, tid: nat, r: Req)
    requires !Locked(m, Key(r)) && !Hit(m.c, Key(r), r.nCtx)
    ensures MayLoad(m, tid, r)
  {
    HitIffResident(m.c, Key(r));
  }

  lemma AfterUnloadKeeps(m: Machine, l: Loaded, g: Config)
    requires Inv(m, g)
    ensures Inv(AfterUnload(m, l), g)
    ensures forall k :: k in Keys(AfterUnload(m, l).c.loaded) ==> k in Keys(m.c.loaded)
  {
    UnloadShrinks(m.c, l, g.max);
    ShrinkKeeps(m, Unload(m.c, l), g);
    forall k | k in Keys(AfterUnload(m, l).c.loaded)
      ensures k in Keys(m.c.loaded)
    {
      KeysMember(Unload(m.c, l).loaded, k);
      KeysMember(m.c.loaded, k);
    }
  }

  /** Whatever the calls, the loads' outcomes and the order of wake-ups, one step keeps the cap and the locks. */
  lemma StepKeeps(m: Machine, a: Action, g: Config)
    requires g.max >= 1 && Inv(m, g)
    ensures Inv(Step(m, a, g), g)
  {
    match a
    case Call(tid, r, ok) =>
      if tid !in m.tasks {
        if Hit(m.c, Key(r), r.nCtx) {
          MoveShrinks(m.c, Key(r), g.max);
          ShrinkKeeps(m, MoveToEnd(m.c, Key(r)), g);
        } else if Locked(m, Key(r)) {
          ParkKeeps(m, tid, Waiting(r), m.stopping, g);
        } else {
          MissedMayLoad(m, tid, r);
          ProceedKeeps(m, tid, r, ok, g);
        }
      }
    case Queue(tid, r) =>
      ParkKeeps(m, tid, Waiting(r), m.stopping, g);
    case Wake(tid, ok) =>
      if tid in m.tasks && m.tasks[tid].Waiting? && !Locked(m, Key(m.tasks[tid].req)) {
        var r := m.tasks[tid].req;
        if Hit(m.c, Key(r), r.nCtx) {
          FinishKeeps(m, tid, g);
        } else {
          MissedMayLoad(m, tid, r);
          ProceedKeeps(m, tid, r, ok, g);
        }
      }
    case Drained(tid, ok) =>
      if tid in m.tasks {
        DrainedKeeps(m, tid, ok, g);
      }
    case Force(tid, tenant, model) =>
      SelectedHavePrefix(m.c.loaded, Prefix(tenant, model));
      DrainKeeps(m, tid, Selected(m.c.loaded, Prefix(tenant, model)), g);
    case Shutdown(tid) =>
      DrainKeeps(m, tid, m.c.loaded, g);
    case Idle(tid, b) =>
      if b < |m.made| {
        DrainKeeps(m, tid, [m.made[b]], g);
      }
    case Cancel(tid) =>
      FinishKeeps(m, tid, g);
  }

  lemma DrainedKeeps(m: Machine, tid: nat, ok: bool, g: Config)
    requires g.max >= 1 && Inv(m, g) && tid in m.tasks
    ensures Inv(Step(m, Drained(tid, ok), g), g)
  {
    match m.tasks[tid]
    case Waiting(_) =>
    case Evicting(r, victim) =>
      AfterUnloadKeeps(m, victim, g);
      assert Loads(m.tasks[tid]);
      ProceedKeeps(AfterUnload(m, victim), tid, r, ok, g);
    case Draining(targets) =>
      if targets != [] {
        AfterUnloadKeeps(m, targets[0], g);
        assert forall l :: l in targets[1..] ==> l in targets;
        assert TaskKnown(m.made, m.tasks[tid]);
        DrainKeeps(AfterUnload(m, targets[0]), tid, targets[1..], g);
      }
  }

  /** The cap, the unique keys and the exclusive loads hold in every reachable state. */
  lemma {:induction false} ReachableKeeps(acts: seq<Action>, g: Config)
    requires g.max >= 1
    ensures Inv(RunFrom(START, acts, g), g)
  {
    if acts != [] {
      ReachableKeeps(acts[..|acts| - 1], g);
      StepKeeps(RunFrom(START, acts[..|acts| - 1], g), acts[|acts| - 1], g);
    }
  }

  // ----- names in reachable maps -----

  predicate PlainName(n: SlotName) {
    ':' !in n.tenant && ':' !in n.model
  }

  predicate CallsFor(p: SlotName -> bool, a: Action) {
    a.Call? || a.Queue? ==> p(a.req.name)
  }

  /** Every slot ever made and every waiting call has a name of this kind. */
  ghost predicate Named(p: SlotName -> bool, m: Machine) {
    && (forall l :: l in m.made ==> p(l.name))
    && (forall t :: t in m.tasks && !m.tasks[t].Draining? ==> p(m.tasks[t].req.name))
  }

  lemma ProceedNamed(p: SlotName -> bool, m: Machine, tid: nat, r: Req, ok: bool, g: Config)
    requires g.max >= 1 && Named(p, m) && p(r.name)
    ensures Named(p, Proceed(m, tid, r, ok, g))
  {
  }

  lemma DrainNamed(p: SlotName -> bool, m: Machine, tid: nat, targets: seq<Loaded>)
    requires Named(p, m)
    ensures Named(p, Drain(m, tid, targets))
  {
  }

  lemma StepNamed(p: SlotName -> bool, m: Machine, a: Action, g: Config)
    requires g.max >= 1 && Named(p, m) && CallsFor(p, a)
    ensures Named(p, Step(m, a, g))
  {
    match a
    case Call(tid, r, ok) => ProceedNamed(p, m, tid, r, ok, g);
    case Queue(_, _) =>
    case Wake(tid, ok) =>
      if tid in m.tasks && m.tasks[tid].Waiting? {
        ProceedNamed(p, m, tid, m.tasks[tid].req, ok, g);
      }
    case Drained(tid, ok) =>
      if tid in m.tasks {
        match m.tasks[tid]
        case Waiting(_) =>
        case Evicting(r, victim) => ProceedNamed(p, AfterUnload(m, victim), tid, r, ok, g);
        case Draining(targets) =>
          if targets != [] {
            DrainNamed(p, AfterUnload(m, targets[0]), tid, targets[1..]);
          }
      }
    case Force(tid, tenant, model) => DrainNamed(p, m, tid, Selected(m.c.loaded, Prefix(tenant, model)));
    case Shutdown(tid) => DrainNamed(p, m, tid, m.c.loaded);
    case Idle(tid, b) =>
      if b < |m.made| {
        DrainNamed(p, m, tid, [m.made[b]]);
      }
    case Cancel(_) =>
  }

  lemma {:induction false} RunNamed(p: SlotName -> bool, acts: seq<Action>, g: Config)
    requires g.max >= 1 && forall i :: 0 <= i < |acts| ==> CallsFor(p, acts[i])
    ensures Named(p, RunFrom(START, acts, g))
  {
    if acts != [] {
      RunNamed(p, acts[..|acts| - 1], g);
      StepNamed(p, RunFrom(START, acts[..|acts| - 1], g), acts[|acts| - 1], g);
    }
  }

  /** A call for a plain name that hits gets a slot of exactly that name, adapters included. */
  lemma HitIsNamed(m: Machine, r: Req, g: Config)
    requires Inv(m, g) && Named(Spelled, m) && Spelled(r.name) && Hit(m.c, Key(r), r.nCtx)
    ensures m.c.loaded[IndexOf(m.c.loaded, Key(r))].name == r.name
  {
    var l := m.c.loaded[IndexOf(m.c.loaded, Key(r))];
    assert Known(m.made, l) && l in m.made;
    CacheKeyInjective(l.name, r.name);
  }

  /** In every map reached by calls for ids without a colon the prefix selects exactly the slots of its pair. */
  lemma ReachablePairs(acts: seq<Action>, g: Config, tenant: string, model: string)
    requires g.max >= 1 && (forall i :: 0 <= i < |acts| ==> CallsFor(PlainName, acts[i]))
    requires ':' !in tenant && ':' !in model
    ensures var loaded := RunFrom(START, acts, g).c.loaded;
            && (forall l :: l in Selected(loaded, Prefix(tenant, model)) <==>
                  l in loaded && l.name.tenant == tenant && l.name.model == model)
            && (FirstMatch(loaded, tenant, model).Some? <==>
                  exists l :: l in loaded && l.name.tenant == tenant && l.name.model == model)
  {
    var m := RunFrom(START, acts, g);
    ReachableKeeps(acts, g);
    RunNamed(PlainName, acts, g);
    forall l | l in m.c.loaded
      ensures l.key == CacheKey(l.name) && PlainName(l.name)
    {
      assert Known(m.made, l) && m.made[l.backend] in m.made;
    }
    PairExactly(m.c.loaded, tenant, model);
  }
}
