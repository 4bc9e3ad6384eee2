/** What the cancellation of an unload leaves behind when it takes the slot's worker with it: a slot that never leaves. */
module ModelStuck {
  import opened Bytes
  import opened ModelCache
  import opened ModelLru
  import opened ModelMachine
  import opened ModelBooks
  import opened ModelStranded
  import S = ModelService
  import W = Worker

  /** The call is to unload this slot, now or later. */
  predicate Names(t: Task, x: Loaded) {
    match t
    case Waiting(_) => false
    case Evicting(_, victim) => x == victim
    case Draining(targets) => x in targets
  }

  /** Resident, not closed, and no older slot with its key is unloaded now or can be later. */
  ghost predicate Sole(m: Machine, l: Loaded) {
    && l in m.c.loaded && l.backend !in m.c.closed
    && (forall x :: x in m.made && x.key == l.key && x != l ==> x.backend in m.stopping)
    && (forall t, x :: t in m.tasks && Names(m.tasks[t], x) && x.key == l.key ==> x == l)
  }

  lemma OneWithKey(c: Cache, x: Loaded, l: Loaded)
    requires Unique(Keys(c.loaded)) && x in c.loaded && l in c.loaded && x.key == l.key
    ensures x == l
  {
    OneOfKey(c.loaded, x);
    OneOfKey(c.loaded, l);
  }

  lemma FinishSole(m: Machine, tid: nat, l: Loaded)
    requires Sole(m, l)
    ensures Sole(Finish(m, tid), l)
  {
    var n := Finish(m, tid);
    assert forall t :: t in n.tasks ==> t in m.tasks && n.tasks[t] == m.tasks[t];
  }

  lemma ParkSole(m: Machine, tid: nat, t: Task, stopping: set<nat>, l: Loaded)
    requires Sole(m, l) && m.stopping <= stopping
    requires forall x :: Names(t, x) && x.key == l.key ==> x == l
    ensures Sole(Park(m, tid, t).(stopping := stopping), l)
  {
    var n := Park(m, tid, t).(stopping := stopping);
    assert forall u :: u in n.tasks && u != tid ==> u in m.tasks && n.tasks[u] == m.tasks[u];
  }

  lemma DrainSole(m: Machine, tid: nat, targets: seq<Loaded>, l: Loaded)
    requires Sole(m, l) && forall x :: x in targets && x.key == l.key ==> x == l
    ensures Sole(Drain(m, tid, targets), l) && Drain(m, tid, targets).made == m.made
  {
    if targets == [] {
      FinishSole(m, tid, l);
    } else {
      ParkSole(m, tid, Draining(targets), m.stopping + {targets[0].backend}, l);
    }
  }

  lemma InsertSole(m: Machine, tid: nat, r: Req, l: Loaded, g: Config)
    requires g.max >= 1 && Inv(m, g) && Sole(m, l) && |m.c.loaded| < g.max && Key(r) !in Keys(m.c.loaded)
    ensures Sole(Proceed(m, tid, r, true, g), l)
  {
    var n := Proceed(m, tid, r, true, g);
    InsertStays(m.c, r.name, WantedCtx(r.nCtx, g.nCtxDefault), l);
    KeysMember(m.c.loaded, l.key);
    FinishSole(m, tid, l);
    assert n.tasks == Finish(m, tid).tasks;
    forall x | x in n.made && x.key == l.key && x != l
      ensures x.backend in n.stopping
    {
      assert x in m.made;
    }
  }

  lemma ProceedSole(m: Machine, tid: nat, r: Req, ok: bool, l: Loaded, g: Config)
    requires g.max >= 1 && Inv(m, g) && MayLoad(m, tid, r) && r.nCtx.None? && Sole(m, l)
    ensures Sole(Proceed(m, tid, r, ok, g), l)
    ensures g.max == 1 ==> Proceed(m, tid, r, ok, g).made == m.made
  {
    if |m.c.loaded| >= g.max {
      var victim := m.c.loaded[0];
      if victim.key == l.key {
        OneWithKey(m.c, victim, l);
      }
      ParkSole(m, tid, Evicting(r, victim), m.stopping + {victim.backend}, l);
    } else if ok {
      InsertSole(m, tid, r, l, g);
    } else {
      FinishSole(m, tid, l);
    }
  }

  lemma AfterUnloadSole(m: Machine, x: Loaded, l: Loaded, g: Config)
    requires Inv(m, g) && Sole(m, l) && x.key != l.key && Known(m.made, x)
    ensures Sole(AfterUnload(m, x), l) && Inv(AfterUnload(m, x), g)
  {
    AfterUnloadKeeps(m, x, g);
    UnloadStays(m.c, x, l);
    assert Known(m.made, l);
  }

  /** The step does not end an unload of this slot. */
  predicate Spares(m: Machine, a: Action, l: Loaded) {
    a.Drained? && a.tid in m.tasks ==> !Targets(m.tasks[a.tid], l.backend)
  }

  lemma EvictedMayLoad(m: Machine, tid: nat, g: Config)
    requires Inv(m, g) && DefaultTasks(m) && tid in m.tasks && m.tasks[tid].Evicting?
    ensures var t := m.tasks[tid]; t.req.nCtx.None? && MayLoad(AfterUnload(m, t.victim), tid, t.req)
  {
    AfterUnloadKeeps(m, m.tasks[tid].victim, g);
    assert Loads(m.tasks[tid]);
  }

  lemma EvictedSole(m: Machine, tid: nat, ok: bool, l: Loaded, g: Config)
    requires g.max >= 1 && Inv(m, g) && DefaultTasks(m) && Sole(m, l) && Spares(m, Drained(tid, ok), l)
    requires tid in m.tasks && m.tasks[tid].Evicting?
    ensures var n := Step(m, Drained(tid, ok), g); Sole(n, l) && (g.max == 1 ==> n.made == m.made)
  {
    var r, x := m.tasks[tid].req, m.tasks[tid].victim;
    assert TaskKnown(m.made, m.tasks[tid]) && Names(m.tasks[tid], x);
    AfterUnloadSole(m, x, l, g);
    EvictedMayLoad(m, tid, g);
    ProceedSole(AfterUnload(m, x), tid, r, ok, l, g);
  }

  lemma OthersNamed(m: Machine, tid: nat, l: Loaded)
    requires Recorded(m) && Sole(m, l) && tid in m.tasks && m.tasks[tid].Draining? && m.tasks[tid].targets != []
    requires m.tasks[tid].targets[0].backend != l.backend
    ensures m.tasks[tid].targets[0].key != l.key && Known(m.made, m.tasks[tid].targets[0])
    ensures forall y :: y in m.tasks[tid].targets[1..] && y.key == l.key ==> y == l
  {
    var targets := m.tasks[tid].targets;
    assert TaskKnown(m.made, m.tasks[tid]) && Names(m.tasks[tid], targets[0]);
    forall y | y in targets[1..] && y.key == l.key
      ensures y == l
    {
      assert Names(m.tasks[tid], y);
    }
  }

  lemma DrainedSole(m: Machine, tid: nat, ok: bool, l: Loaded, g: Config)
    requires g.max >= 1 && Inv(m, g) && Sole(m, l) && Spares(m, Drained(tid, ok), l)
    requires tid in m.tasks && m.tasks[tid].Draining?
    ensures var n := Step(m, Drained(tid, ok), g); Sole(n, l) && n.made == m.made
  {
    var targets := m.tasks[tid].targets;
    if targets != [] {
      OthersNamed(m, tid, l);
      AfterUnloadSole(m, targets[0], l, g);
      DrainSole(AfterUnload(m, targets[0]), tid, targets[1..], l);
    }
  }

  lemma HitSole(m: Machine, key: string, l: Loaded)
    requires Sole(m, l) && IndexOf(m.c.loaded, key) < |m.c.loaded|
    ensures Sole(m.(c := MoveToEnd(m.c, key)), l)
  {
    MoveStays(m.c, key, l);
  }

  lemma CallSole(m: Machine, tid: nat, r: Req, ok: bool, l: Loaded, g: Config)
    requires g.max >= 1 && Inv(m, g) && DefaultTasks(m) && Sole(m, l) && r.nCtx.None?
    ensures var n := Step(m, Call(tid, r, ok), g); Sole(n, l) && (g.max == 1 ==> n.made == m.made)
  {
    if tid !in m.tasks {
      if Hit(m.c, Key(r), r.nCtx) {
        HitSole(m, Key(r), l);
      } else if Locked(m, Key(r)) {
        ParkSole(m, tid, Waiting(r), m.stopping, l);
      } else {
        MissedMayLoad(m, tid, r);
        ProceedSole(m, tid, r, ok, l, g);
      }
    }
  }

  lemma WakeSole(m: Machine, tid: nat, ok: bool, l: Loaded, g: Config)
    requires g.max >= 1 && Inv(m, g) && DefaultTasks(m) && Sole(m, l)
    ensures var n := Step(m, Wake(tid, ok), g); Sole(n, l) && (g.max == 1 ==> n.made == m.made)
  {
    if tid in m.tasks && m.tasks[tid].Waiting? && !Locked(m, Key(m.tasks[tid].req)) {
      var r := m.tasks[tid].req;
      if Hit(m.c, Key(r), r.nCtx) {
        FinishSole(m, tid, l);
      } else {
        MissedMayLoad(m, tid, r);
        ProceedSole(m, tid, r, ok, l, g);
      }
    }
  }

  lemma IdleSole(m: Machine, tid: nat, b: nat, l: Loaded, g: Config)
    requires g.max >= 1 && Inv(m, g) && Sole(m, l)
    ensures var n := Step(m, Idle(tid, b), g); Sole(n, l) && n.made == m.made
  {
    if tid !in m.tasks && !m.closing && b < |m.made| && b !in m.stopping {
      assert m.made[b] in m.made;
      DrainSole(m, tid, [m.made[b]], l);
    }
  }

  lemma SoleStep(m: Machine, a: Action, l: Loaded, g: Config)
    requires g.max >= 1 && Inv(m, g) && DefaultTasks(m) && DefaultCall(a) && Sole(m, l) && Spares(m, a, l)
    ensures var n := Step(m, a, g); Sole(n, l) && (g.max == 1 ==> n.made == m.made)
  {
    match a
    case Call(tid, r, ok) => CallSole(m, tid, r, ok, l, g);
    case Queue(tid, r) => ParkSole(m, tid, Waiting(r), m.stopping, l);
    case Wake(tid, ok) => WakeSole(m, tid, ok, l, g);
    case Drained(tid, ok) =>
      if tid in m.tasks && m.tasks[tid].Evicting? {
        EvictedSole(m, tid, ok, l, g);
      } else if tid in m.tasks && m.tasks[tid].Draining? {
        DrainedSole(m, tid, ok, l, g);
      }
    case Force(tid, tenant, model) =>
      SelectedHavePrefix(m.c.loaded, Prefix(tenant, model));
      SnapshotSole(m, tid, Selected(m.c.loaded, Prefix(tenant, model)), l, g);
    case Shutdown(tid) => SnapshotSole(m, tid, m.c.loaded, l, g);
    case Idle(tid, b) => IdleSole(m, tid, b, l, g);
    case Cancel(tid) => FinishSole(m, tid, l);
  }

  lemma SnapshotSole(m: Machine, tid: nat, targets: seq<Loaded>, l: Loaded, g: Config)
    requires Inv(m, g) && Sole(m, l) && forall x :: x in targets ==> x in m.c.loaded
    ensures Sole(Drain(m, tid, targets), l) && Drain(m, tid, targets).made == m.made
  {
    forall x | x in targets && x.key == l.key
      ensures x == l
    {
      OneWithKey(m.c, x, l);
    }
    DrainSole(m, tid, targets, l);
  }

  // ----- with its worker dead -----

  /** Such a slot, with the stop signal in its queue and its worker cancelled. */
  ghost predicate Stuck(v: S.Service, l: Loaded, g: Config) {
    && Inv(v.m, g) && S.Linked(v) && DefaultTasks(v.m) && Sole(v.m, l) && l.backend in v.dead
    && l.backend < |v.slots| && S.StopSent(v.slots[l.backend])
  }

  predicate DefaultEvent(e: S.Event) {
    e.Act? ==> DefaultCall(e.a)
  }

  ghost predicate MovesOn(v: S.Service, n: S.Service, l: Loaded, g: Config) {
    Sole(n.m, l) && DefaultTasks(n.m) && v.dead <= n.dead && (g.max == 1 ==> n.m.made == v.m.made)
  }

  lemma ActedSole(v: S.Service, a: Action, l: Loaded, g: Config, depth: nat)
    requires g.max >= 1 && Inv(v.m, g) && DefaultTasks(v.m) && Sole(v.m, l) && DefaultCall(a) && Spares(v.m, a, l)
    ensures MovesOn(v, S.Acted(v, a, g, depth), l, g)
  {
    SoleStep(v.m, a, l, g);
    StepDefault(v.m, a, g);
  }

  lemma AdvanceSole(v: S.Service, a: Action, l: Loaded, g: Config, depth: nat)
    requires g.max >= 1 && Stuck(v, l, g) && DefaultCall(a)
    ensures MovesOn(v, S.Advance(v, a, g, depth), l, g)
  {
    assert !Spares(v.m, a, l) && a.tid !in v.waiting ==> S.Awaits(v, a.tid, l.backend);
    if a.Cancel? {
      ActedSole(S.Kill(v, a.tid), a, l, g, depth);
    } else if a.Drained? && S.AwaitsDead(v, a.tid) {
      ActedSole(v, Cancel(a.tid), l, g, depth);
    } else if !(a.Drained? && a.tid in v.waiting) {
      ActedSole(v, a, l, g, depth);
    }
  }

  lemma LiveSpares(v: S.Service, tid: nat, ok: bool, l: Loaded, g: Config)
    requires Stuck(v, l, g) && S.AwaitsLive(v, tid)
    ensures Spares(v.m, Drained(tid, ok), l)
  {
    var b: nat :| S.Awaits(v, tid, b) && b !in v.dead && W.Stop !in v.slots[b].taken;
    assert Targets(v.m.tasks[tid], b) && b != l.backend;
  }

  lemma ExpireSole(v: S.Service, tid: nat, ok: bool, l: Loaded, g: Config, depth: nat)
    requires g.max >= 1 && Stuck(v, l, g)
    ensures MovesOn(v, S.Next(v, S.Expire(tid, ok), g, depth), l, g)
  {
    if S.AwaitsLive(v, tid) {
      LiveSpares(v, tid, ok, l, g);
      ActedSole(S.Kill(v, tid), Drained(tid, ok), l, g, depth);
    }
  }

  lemma StuckStep(v: S.Service, e: S.Event, l: Loaded, g: Config, depth: nat)
    requires g.max >= 1 && Stuck(v, l, g) && DefaultEvent(e)
    ensures Stuck(S.Next(v, e, g, depth), l, g) && MovesOn(v, S.Next(v, e, g, depth), l, g)
  {
    S.NextKeeps(v, e, g, depth);
    match e
    case Act(a) => AdvanceSole(v, a, l, g, depth);
    case Ask(tid, r, job) =>
      if tid !in v.m.tasks && Hit(v.m.c, Key(r), r.nCtx) {
        HitSole(v.m, Key(r), l);
      }
    case Expire(tid, ok) => ExpireSole(v, tid, ok, l, g, depth);
    case Submit(_, _) =>
    case Work(_, _) =>
    case Abandon(_, _) =>
    case PutStop(_) =>
  }

  /**
   * No later run of calls with the default context, unloads, cancellations and time limits frees it: it is never closed
   * and stays resident. With a cap of one no other model is ever loaded.
   */
  lemma {:induction false} StuckForever(v: S.Service, later: seq<S.Event>, l: Loaded, g: Config, depth: nat)
    requires g.max >= 1 && Stuck(v, l, g) && forall i :: 0 <= i < |later| ==> DefaultEvent(later[i])
    ensures var n := S.Run(v, later, g, depth);
            && Stuck(n, l, g) && l in n.m.c.loaded && l.backend !in n.m.c.closed
            && (g.max == 1 ==> n.m.made == v.m.made)
  {
    if later != [] {
      var front := later[..|later| - 1];
      assert forall i :: 0 <= i < |front| ==> front[i] == later[i];
      StuckForever(v, front, l, g, depth);
      StuckStep(S.Run(v, front, g, depth), later[|later| - 1], l, g, depth);
    }
  }

  /**
   * Cancelling a call inside the unload of a slot takes the slot's worker with it exactly when the call is past its stop
   * signal and the worker has neither returned nor died; the slot is then stuck.
   */
  lemma CancelSticks(v: S.Service, tid: nat, l: Loaded, g: Config, depth: nat)
    requires g.max >= 1 && Inv(v.m, g) && S.Linked(v) && DefaultTasks(v.m) && Sole(v.m, l)
    requires tid in v.m.tasks && Targets(v.m.tasks[tid], l.backend) && l.backend !in v.dead
    ensures l.backend < |v.slots|
    ensures var n := S.Next(v, S.Act(Cancel(tid)), g, depth);
            && (Stuck(n, l, g) <==> l.backend in n.dead)
            && (l.backend in n.dead <==> tid !in v.waiting && W.Stop !in v.slots[l.backend].taken)
  {
    assert Known(v.m.made, l);
    var n := S.Next(v, S.Act(Cancel(tid)), g, depth);
    S.NextKeeps(v, S.Act(Cancel(tid)), g, depth);
    ActedSole(S.Kill(v, tid), Cancel(tid), l, g, depth);
    if tid !in v.waiting && W.Stop !in v.slots[l.backend].taken {
      assert S.Awaits(v, tid, l.backend);
      assert W.History(v.slots[l.backend]) <= W.History(n.slots[l.backend]);
    }
  }

  /** Every call for its key with the default context gets it, and none of their jobs is ever run or answered. */
  lemma StuckHandsOut(v: S.Service, tid: nat, job: W.Job, later: seq<S.Event>, l: Loaded, g: Config, depth: nat)
    requires g.max >= 1 && Stuck(v, l, g) && tid !in v.m.tasks && !W.Full(v.slots[l.backend])
    ensures var r, id := Req(l.name, None), |v.slots[l.backend].jobs|;
            && Hit(v.m.c, Key(r), None) && S.Slot(v.m, r) == l
            && var n := S.Run(S.Next(v, S.Ask(tid, r, job), g, depth), later, g, depth);
               l.backend < |n.slots| && id < |n.slots[l.backend].jobs| && n.slots[l.backend].jobs[id] == job
               && W.Untouched(n.slots[l.backend], id)
  {
    assert Known(v.m.made, l) && l.key == CacheKey(l.name);
    OneOfKey(v.m.c.loaded, l);
    S.AskedJob(v, tid, Req(l.name, None), job, later, g, depth);
  }

  lemma OneDraining(m: Machine, l: Loaded)
    requires m.c == Cache([l], 1, []) && m.made == [l] && m.tasks == map[1 := Task.Draining([l])]
    ensures Sole(m, l) && DefaultTasks(m)
  {
  }

  /** A stuck slot exists: load, begin a forced unload, cancel it. */
  lemma StuckFromStart(x: SlotName, g: Config, depth: nat)
    requires g.max >= 1
    ensures var v1 := S.Next(S.START, S.Act(Call(0, Req(x, None), true)), g, depth);
            var v2 := S.Next(v1, S.Act(Force(1, x.tenant, x.model)), g, depth);
            Stuck(S.Next(v2, S.Act(Cancel(1)), g, depth), S.First(x, g), g)
  {
    var l := S.First(x, g);
    S.LoadFirst(x, g, depth);
    var v1 := S.Next(S.START, S.Act(Call(0, Req(x, None), true)), g, depth);
    S.ForceFirst(v1, x, g, depth);
    var v2 := S.Next(v1, S.Act(Force(1, x.tenant, x.model)), g, depth);
    OneDraining(v2.m, l);
    assert Targets(v2.m.tasks[1], l.backend) && v2.slots[0].taken == [];
    CancelSticks(v2, 1, l, g, depth);
  }
}
