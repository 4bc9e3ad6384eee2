/** What a cancelled unload leaves behind: a slot that is marked as unloading and that nobody unloads. */
module ModelStranded {
  import opened Bytes
  import opened ModelCache
  import opened ModelLru
  import opened ModelMachine
  import opened ModelBooks
  import S = ModelService

  /** Resident, its unload begun, and no unload of it under way. */
  ghost predicate Stranded(m: Machine, l: Loaded) {
    l in m.c.loaded && l.backend in m.stopping && !Targeted(m, l.backend)
  }

  /** In runs with default contexts that keep the books, a slot is stranded by a cancellation only. */
  lemma NoneStranded(acts: seq<Action>, g: Config, l: Loaded)
    requires g.max >= 1 && DefaultCalls(acts) && NoCancel(acts) && NeverStale(acts, g)
    ensures !Stranded(RunFrom(START, acts, g), l)
  {
    var m := RunFrom(START, acts, g);
    ReachableKeeps(acts, g);
    RunBooks(acts, g);
    StoppingOnce(acts, g);
    if l in m.c.loaded {
      assert Known(m.made, l);
      ResidentOrClosed(m, l);
    }
  }

  /** Cancelling a call strands a slot it was unloading exactly when no other call is unloading it. */
  lemma CancelStrands(m: Machine, tid: nat, l: Loaded, g: Config)
    requires g.max >= 1 && Inv(m, g) && l in m.c.loaded && l.backend in m.stopping
    requires tid in m.tasks && Targets(m.tasks[tid], l.backend)
    ensures Stranded(Step(m, Cancel(tid), g), l) <==>
              forall t :: t in m.tasks && t != tid ==> !Targets(m.tasks[t], l.backend)
  {
    var n := Step(m, Cancel(tid), g);
    assert forall t :: t in n.tasks <==> t in m.tasks && t != tid;
    assert forall t :: t in n.tasks ==> n.tasks[t] == m.tasks[t];
  }

  /** An unload of another slot that ends under the same key pops this one. */
  predicate Pops(m: Machine, a: Action, l: Loaded) {
    && a.Drained? && a.tid in m.tasks && Target(m.tasks[a.tid]).Some?
    && Target(m.tasks[a.tid]).value.key == l.key && Target(m.tasks[a.tid]).value.backend != l.backend
  }

  lemma OthersStay<X>(xs: seq<X>, i: nat, x: X)
    requires i < |xs| && x in xs && x != xs[i]
    ensures x in RemoveAt(xs, i) && x in RemoveAt(xs, i) + [xs[i]]
  {
    var j :| 0 <= j < |xs| && xs[j] == x;
    assert RemoveAt(xs, i)[if j < i then j else j - 1] == x;
  }

  lemma MoveStays(c: Cache, key: string, l: Loaded)
    requires IndexOf(c.loaded, key) < |c.loaded| && l in c.loaded
    ensures l in MoveToEnd(c, key).loaded
  {
    var i := IndexOf(c.loaded, key);
    if l != c.loaded[i] {
      OthersStay(c.loaded, i, l);
    } else {
      assert MoveToEnd(c, key).loaded[|c.loaded| - 1] == l;
    }
  }

  lemma UnloadStays(c: Cache, t: Loaded, l: Loaded)
    requires l in c.loaded && t.key != l.key
    ensures l in Unload(c, t).loaded
  {
    var i := IndexOf(c.loaded, t.key);
    if i < |c.loaded| {
      OthersStay(c.loaded, i, l);
    }
  }

  lemma InsertStays(c: Cache, name: SlotName, nCtx: int, l: Loaded)
    requires l in c.loaded && CacheKey(name) !in Keys(c.loaded)
    ensures l in Insert(c, name, nCtx).loaded
  {
    HitIffResident(c, CacheKey(name));
  }

  /** What a step by another call can do to a stranded slot: begin a new unload of it, or nothing. */
  ghost predicate StaysOrRestarts(n: Machine, l: Loaded) {
    l in n.c.loaded && l.backend in n.stopping && (Targeted(n, l.backend) || Stranded(n, l))
  }

  lemma ProceedStays(m: Machine, tid: nat, r: Req, ok: bool, l: Loaded, g: Config)
    requires g.max >= 1 && MayLoad(m, tid, r) && r.nCtx.None? && l in m.c.loaded && l.backend in m.stopping
    ensures StaysOrRestarts(Proceed(m, tid, r, ok, g), l)
  {
    if |m.c.loaded| < g.max && ok {
      InsertStays(m.c, r.name, WantedCtx(r.nCtx, g.nCtxDefault), l);
    }
  }

  lemma DrainStays(m: Machine, tid: nat, targets: seq<Loaded>, l: Loaded)
    requires l in m.c.loaded && l.backend in m.stopping
    ensures StaysOrRestarts(Drain(m, tid, targets), l)
  {
  }

  lemma DrainedStays(m: Machine, tid: nat, ok: bool, l: Loaded, g: Config)
    requires g.max >= 1 && Inv(m, g) && DefaultTasks(m) && Stranded(m, l) && !Pops(m, Drained(tid, ok), l)
    requires tid in m.tasks && Target(m.tasks[tid]).Some?
    ensures StaysOrRestarts(Step(m, Drained(tid, ok), g), l)
  {
    var t := Target(m.tasks[tid]).value;
    assert Targets(m.tasks[tid], t.backend) && t.backend != l.backend;
    UnloadStays(m.c, t, l);
    AfterUnloadKeeps(m, t, g);
    match m.tasks[tid] {
      case Waiting(_) =>
      case Evicting(r, _) =>
        assert Loads(m.tasks[tid]);
        ProceedStays(AfterUnload(m, t), tid, r, ok, l, g);
      case Draining(targets) =>
        DrainStays(AfterUnload(m, t), tid, targets[1..], l);
    }
  }

  /**
   * A stranded slot leaves the map, or is unloaded again, in two ways only: a new eviction, forced unload or shutdown
   * begins on it, or an unload of an older slot with its key ends. The idle timer never frees it.
   */
  lemma StrandedStays(m: Machine, a: Action, l: Loaded, g: Config)
    requires g.max >= 1 && Inv(m, g) && DefaultTasks(m) && DefaultCall(a) && Stranded(m, l) && !Pops(m, a, l)
    ensures StaysOrRestarts(Step(m, a, g), l)
    ensures a.Idle? || a.Cancel? || a.Queue? ==> Stranded(Step(m, a, g), l)
  {
    assert Known(m.made, l);
    match a
    case Call(tid, r, ok) =>
      if tid !in m.tasks && Hit(m.c, Key(r), r.nCtx) {
        MoveStays(m.c, Key(r), l);
      } else if tid !in m.tasks && !Locked(m, Key(r)) {
        MissedMayLoad(m, tid, r);
        ProceedStays(m, tid, r, ok, l, g);
      }
    case Queue(_, _) => QuietStays(m, a, l, g);
    case Wake(tid, ok) =>
      if tid in m.tasks && m.tasks[tid].Waiting? && !Locked(m, Key(m.tasks[tid].req)) {
        var r := m.tasks[tid].req;
        if !Hit(m.c, Key(r), r.nCtx) {
          MissedMayLoad(m, tid, r);
          ProceedStays(m, tid, r, ok, l, g);
        }
      }
    case Drained(tid, ok) =>
      if tid in m.tasks && Target(m.tasks[tid]).Some? {
        DrainedStays(m, tid, ok, l, g);
      }
    case Force(tid, tenant, model) => DrainStays(m, tid, Selected(m.c.loaded, Prefix(tenant, model)), l);
    case Shutdown(tid) => DrainStays(m, tid, m.c.loaded, l);
    case Idle(_, _) => QuietStays(m, a, l, g);
    case Cancel(_) => QuietStays(m, a, l, g);
  }

  lemma QuietStays(m: Machine, a: Action, l: Loaded, g: Config)
    requires g.max >= 1 && Inv(m, g) && Stranded(m, l) && (a.Idle? || a.Cancel? || a.Queue?)
    ensures Stranded(Step(m, a, g), l)
  {
    var n := Step(m, a, g);
    assert Known(m.made, l);
    forall t | t in n.tasks
      ensures !Targets(n.tasks[t], l.backend)
    {
      if t in m.tasks && n.tasks[t] == m.tasks[t] {
        assert !Targets(m.tasks[t], l.backend);
      }
    }
  }

  /** Meanwhile every call for its key with the default context gets it. */
  lemma StrandedHandsOut(m: Machine, l: Loaded, tid: nat, ok: bool, g: Config)
    requires g.max >= 1 && Inv(m, g) && Stranded(m, l) && tid !in m.tasks
    ensures var r := Req(l.name, None); var n := Step(m, Call(tid, r, ok), g);
            && Hit(m.c, Key(r), None) && S.Slot(m, r) == l
            && n.tasks == m.tasks && n.c.loaded != [] && n.c.loaded[|n.c.loaded| - 1] == l && Stranded(n, l)
  {
    assert Known(m.made, l) && l.key == CacheKey(l.name);
    OneOfKey(m.c.loaded, l);
    S.HitReturnsAtOnce(m, tid, Req(l.name, None), ok, g);
    var n := Step(m, Call(tid, Req(l.name, None), ok), g);
    assert n.c.loaded[|n.c.loaded| - 1] in n.c.loaded;
  }

  /** A run from the start: load, begin a forced unload, cancel it. */
  lemma StrandedFromStart(x: SlotName, g: Config)
    requires g.max >= 1
    ensures var m := RunFrom(START, [Call(0, Req(x, None), true), Force(1, x.tenant, x.model)] + [Cancel(1)], g);
            m.tasks == map[] && Stranded(m, S.First(x, g))
  {
    var a, b, l := Call(0, Req(x, None), true), Force(1, x.tenant, x.model), S.First(x, g);
    RunTwo(START, a, b, g);
    RunSnoc(START, [a, b], Cancel(1), g);
    var m1 := Step(START, a, g);
    assert m1.c == Cache([l], 1, []) && m1.tasks == map[];
    S.PairSelected(l);
    var m2 := Step(m1, b, g);
    assert m2 == Drain(m1, 1, [l]);
    assert m2.c == m1.c && m2.tasks == map[1 := Draining([l])] && l.backend in m2.stopping;
    var m3 := Step(m2, Cancel(1), g);
    assert m3.tasks == map[] && l in m3.c.loaded;
  }
}
