/** When the step machine closes every backend once, when it does not, and how it extends completed calls. */
module ModelBooks {
  import opened Bytes
  import opened ModelCache
  import opened ModelLru
  import opened ModelMachine

  // ----- counting -----

  lemma {:induction false} UniqueBelow(xs: seq<nat>, n: nat)
    requires Unique(xs) && forall x :: x in xs ==> x < n
    ensures |xs| <= n
    decreases n
  {
    if xs == [] {
      return;
    }
    assert xs[0] in xs;
    if n - 1 in xs {
      var i :| 0 <= i < |xs| && xs[i] == n - 1;
      RemoveShrinks(xs, i);
      assert forall x :: x in RemoveAt(xs, i) ==> x < n - 1;
      UniqueBelow(RemoveAt(xs, i), n - 1);
    } else {
      UniqueBelow(xs, n - 1);
    }
  }

  lemma UniqueCovers(xs: seq<nat>, n: nat, b: nat)
    requires Unique(xs) && |xs| == n && (forall x :: x in xs ==> x < n) && b < n
    ensures b in xs
  {
    if b !in xs {
      UniqueBelow(xs + [b], n);
    }
  }

  /** A slot that was made is in the map exactly when its backend is among the resident ones. */
  lemma ResidentBackend(m: Machine, l: Loaded)
    requires Recorded(m) && Known(m.made, l)
    ensures l in m.c.loaded <==> l.backend in Backends(m.c.loaded)
  {
    if l.backend in Backends(m.c.loaded) {
      var i :| 0 <= i < |m.c.loaded| && Backends(m.c.loaded)[i] == l.backend;
      assert m.c.loaded[i] in m.c.loaded && m.c.loaded[i] == l;
    }
    if l in m.c.loaded {
      var i :| 0 <= i < |m.c.loaded| && m.c.loaded[i] == l;
      assert Backends(m.c.loaded)[i] == l.backend;
    }
  }

  lemma UniqueHalves(a: seq<nat>, b: seq<nat>, x: nat)
    requires Unique(a + b) && x in a
    ensures x !in b
  {
    var i :| 0 <= i < |a| && a[i] == x;
    forall j | 0 <= j < |b|
      ensures b[j] != x
    {
      assert (a + b)[i] != (a + b)[|a| + j];
    }
  }

  /** With the books kept, a slot that was made is in the map exactly when its backend is not closed. */
  lemma ResidentOrClosed(m: Machine, l: Loaded)
    requires Recorded(m) && Accounted(m.c) && Known(m.made, l)
    ensures l in m.c.loaded <==> l.backend !in m.c.closed
  {
    UniqueCovers(m.c.closed + Backends(m.c.loaded), m.c.next, l.backend);
    ResidentBackend(m, l);
    if l.backend in m.c.closed {
      UniqueHalves(m.c.closed, Backends(m.c.loaded), l.backend);
    }
  }

  // ----- one step -----

  /** The slot whose unload a suspended call is waiting for. */
  function Target(t: Task): Option<Loaded> {
    match t
    case Waiting(_) => None
    case Evicting(_, victim) => Some(victim)
    case Draining(targets) => if targets == [] then None else Some(targets[0])
  }

  /** The step ends an unload of a slot that another unload has closed already. */
  predicate Stale(m: Machine, a: Action) {
    && a.Drained? && a.tid in m.tasks
    && Target(m.tasks[a.tid]).Some? && Target(m.tasks[a.tid]).value.backend in m.c.closed
  }

  ghost predicate DefaultTasks(m: Machine) {
    forall t :: t in m.tasks && !m.tasks[t].Draining? ==> m.tasks[t].req.nCtx.None?
  }

  predicate DefaultCall(a: Action) {
    a.Call? || a.Queue? ==> a.req.nCtx.None?
  }

  lemma UnloadResident(c: Cache, l: Loaded)
    requires Unique(Keys(c.loaded)) && Accounted(c) && l in c.loaded
    ensures Accounted(Unload(c, l))
  {
    var j :| 0 <= j < |c.loaded| && c.loaded[j] == l;
    var i := IndexOf(c.loaded, l.key);
    assert Keys(c.loaded)[j] == Keys(c.loaded)[i] == l.key;
    assert i == j;
    KeysRemoveAt(c.loaded, i);
    UniqueMove(c.closed, Backends(c.loaded), i);
  }

  /** Ending an unload keeps the books exactly when nobody else ended it before. */
  lemma UnloadBooks(m: Machine, l: Loaded, g: Config)
    requires Inv(m, g) && Accounted(m.c) && Known(m.made, l)
    ensures Accounted(Unload(m.c, l)) <==> l.backend !in m.c.closed
    ensures l.backend in m.c.closed ==> !Unique(Unload(m.c, l).closed)
  {
    ResidentOrClosed(m, l);
    if l in m.c.loaded {
      UnloadResident(m.c, l);
    } else {
      var i :| 0 <= i < |m.c.closed| && m.c.closed[i] == l.backend;
      var closed := Unload(m.c, l).closed;
      assert closed[i] == closed[|m.c.closed|];
      TwiceClosed(Unload(m.c, l));
    }
  }

  lemma TwiceClosed(c: Cache)
    requires !Unique(c.closed)
    ensures !Accounted(c)
  {
    var i, j :| 0 <= i < j < |c.closed| && c.closed[i] == c.closed[j];
    var all := c.closed + Backends(c.loaded);
    assert all[i] == all[j];
  }

  lemma ProceedBooks(m: Machine, tid: nat, r: Req, ok: bool, g: Config)
    requires g.max >= 1 && Inv(m, g) && MayLoad(m, tid, r) && r.nCtx.None?
    ensures Accounted(m.c) ==> Accounted(Proceed(m, tid, r, ok, g).c)
    ensures Proceed(m, tid, r, ok, g).c.closed == m.c.closed
  {
    if Accounted(m.c) && |m.c.loaded| < g.max && ok {
      HitIffResident(m.c, Key(r));
      InsertAccounted(m.c, r.name, WantedCtx(r.nCtx, g.nCtxDefault), g.max);
    }
  }

  lemma DrainedBooks(m: Machine, tid: nat, ok: bool, g: Config)
    requires g.max >= 1 && Inv(m, g) && DefaultTasks(m) && Accounted(m.c) && tid in m.tasks
    ensures Accounted(Step(m, Drained(tid, ok), g).c) <==> !Stale(m, Drained(tid, ok))
    ensures Stale(m, Drained(tid, ok)) ==> !Unique(Step(m, Drained(tid, ok), g).c.closed)
  {
    var task := m.tasks[tid];
    assert TaskKnown(m.made, task);
    match task
    case Waiting(_) =>
    case Evicting(r, victim) =>
      UnloadBooks(m, victim, g);
      AfterUnloadKeeps(m, victim, g);
      assert Loads(task) && r.nCtx.None?;
      ProceedBooks(AfterUnload(m, victim), tid, r, ok, g);
      if Stale(m, Drained(tid, ok)) {
        TwiceClosed(Step(m, Drained(tid, ok), g).c);
      }
    case Draining(targets) =>
      if targets != [] {
        UnloadBooks(m, targets[0], g);
      }
  }

  /** With default contexts a step keeps the books exactly when it is not stale. */
  lemma StepBooks(m: Machine, a: Action, g: Config)
    requires g.max >= 1 && Inv(m, g) && DefaultTasks(m) && DefaultCall(a) && Accounted(m.c)
    ensures DefaultTasks(Step(m, a, g))
    ensures Accounted(Step(m, a, g).c) <==> !Stale(m, a)
    ensures Stale(m, a) ==> !Unique(Step(m, a, g).c.closed)
  {
    StepDefault(m, a, g);
    match a
    case Call(tid, r, ok) =>
      if tid !in m.tasks {
        if Hit(m.c, Key(r), r.nCtx) {
          HitAccounted(m.c, Key(r), g.max);
        } else if !Locked(m, Key(r)) {
          MissedMayLoad(m, tid, r);
          ProceedBooks(m, tid, r, ok, g);
        }
      }
    case Queue(_, _) =>
    case Wake(tid, ok) =>
      if tid in m.tasks && m.tasks[tid].Waiting? && !Locked(m, Key(m.tasks[tid].req)) {
        var r := m.tasks[tid].req;
        if !Hit(m.c, Key(r), r.nCtx) {
          MissedMayLoad(m, tid, r);
          ProceedBooks(m, tid, r, ok, g);
        }
      }
    case Drained(tid, ok) =>
      if tid in m.tasks {
        DrainedBooks(m, tid, ok, g);
      }
    case Force(_, _, _) =>
    case Shutdown(_) =>
    case Idle(_, _) =>
    case Cancel(_) =>
  }

  lemma StepDefault(m: Machine, a: Action, g: Config)
    requires g.max >= 1 && DefaultTasks(m) && DefaultCall(a)
    ensures DefaultTasks(Step(m, a, g))
  {
    var n := Step(m, a, g);
    forall t | t in n.tasks && !n.tasks[t].Draining?
      ensures n.tasks[t].req.nCtx.None?
    {
      if t != a.tid {
        assert t in m.tasks && m.tasks[t] == n.tasks[t];
      }
    }
  }

  lemma ClosedGrows(m: Machine, a: Action, g: Config)
    requires g.max >= 1
    ensures m.c.closed <= Step(m, a, g).c.closed
  {
  }

  lemma StaysTwiceClosed(c: seq<nat>, d: seq<nat>)
    requires !Unique(c) && c <= d
    ensures !Unique(d)
  {
    var i, j :| 0 <= i < j < |c| && c[i] == c[j];
    assert d[i] == d[j];
  }

  // ----- whole runs -----

  predicate DefaultCalls(acts: seq<Action>) {
    forall i :: 0 <= i < |acts| ==> DefaultCall(acts[i])
  }

  ghost predicate NeverStale(acts: seq<Action>, g: Config)
    requires g.max >= 1
  {
    acts == [] ||
    (var front := acts[..|acts| - 1];
     NeverStale(front, g) && !Stale(RunFrom(START, front, g), acts[|acts| - 1]))
  }

  /** Over a run with default contexts every backend is resident or closed once, exactly when no unload ends twice. */
  lemma {:induction false} RunBooks(acts: seq<Action>, g: Config)
    requires g.max >= 1 && DefaultCalls(acts)
    ensures DefaultTasks(RunFrom(START, acts, g))
    ensures Accounted(RunFrom(START, acts, g).c) <==> NeverStale(acts, g)
    ensures !NeverStale(acts, g) ==> !Unique(RunFrom(START, acts, g).c.closed)
  {
    if acts != [] {
      var front, a := acts[..|acts| - 1], acts[|acts| - 1];
      var m := RunFrom(START, front, g);
      RunBooks(front, g);
      ReachableKeeps(front, g);
      if NeverStale(front, g) {
        StepBooks(m, a, g);
      } else {
        StepDefault(m, a, g);
        ClosedGrows(m, a, g);
        StaysTwiceClosed(m.c.closed, Step(m, a, g).c.closed);
        TwiceClosed(Step(m, a, g).c);
      }
    }
  }

  // ----- the guard that the idle timer has and the other unloads lack -----

  /** The step begins to unload a slot whose unload has begun before: what the state test of the idle timer refuses. */
  ghost predicate Restarts(m: Machine, a: Action, g: Config)
    requires g.max >= 1
  {
    var n := Step(m, a, g);
    && n != m && a.tid in n.tasks
    && Target(n.tasks[a.tid]).Some? && Target(n.tasks[a.tid]).value.backend in m.stopping
  }

  /** Unloads under way are of distinct slots, none of them closed. */
  ghost predicate Guarded(m: Machine) {
    && (forall b :: b in m.c.closed ==> b in m.stopping)
    && (forall t :: t in m.tasks ==> Underway(m, m.tasks[t]))
    && (forall t, u :: t in m.tasks && u in m.tasks && t != u ==> Apart(m.tasks[t], m.tasks[u]))
  }

  predicate Underway(m: Machine, t: Task) {
    Target(t).Some? ==> Target(t).value.backend in m.stopping && Target(t).value.backend !in m.c.closed
  }

  predicate Apart(t: Task, u: Task) {
    Target(t).Some? && Target(u).Some? ==> Target(t).value.backend != Target(u).value.backend
  }

  lemma BeginGuarded(m: Machine, tid: nat, t: Task)
    requires Guarded(Finish(m, tid)) && Target(t).Some? && Target(t).value.backend !in m.stopping
    ensures Guarded(Park(m, tid, t).(stopping := m.stopping + {Target(t).value.backend}))
  {
    var n := Park(m, tid, t).(stopping := m.stopping + {Target(t).value.backend});
    forall u | u in n.tasks
      ensures Underway(n, n.tasks[u]) && (u != tid ==> Apart(n.tasks[u], t) && Apart(t, n.tasks[u]))
    {
      if u != tid {
        assert u in Finish(m, tid).tasks;
      }
    }
    forall u, v | u in n.tasks && v in n.tasks && u != v
      ensures Apart(n.tasks[u], n.tasks[v])
    {
      if u != tid && v != tid {
        assert u in Finish(m, tid).tasks && v in Finish(m, tid).tasks;
      }
    }
  }

  lemma FinishGuarded(m: Machine, tid: nat)
    requires Guarded(m)
    ensures Guarded(Finish(m, tid))
  {
  }

  lemma DrainGuarded(m: Machine, tid: nat, targets: seq<Loaded>)
    requires Guarded(Finish(m, tid)) && (targets != [] ==> targets[0].backend !in m.stopping)
    ensures Guarded(Drain(m, tid, targets))
  {
    if targets != [] {
      BeginGuarded(m, tid, Draining(targets));
    }
  }

  lemma ProceedGuarded(m: Machine, tid: nat, r: Req, ok: bool, g: Config)
    requires g.max >= 1 && Guarded(Finish(m, tid))
    requires |m.c.loaded| >= g.max ==> m.c.loaded[0].backend !in m.stopping
    ensures Guarded(Proceed(m, tid, r, ok, g))
  {
    if |m.c.loaded| >= g.max {
      BeginGuarded(m, tid, Evicting(r, m.c.loaded[0]));
    }
  }

  /** Ending the unload of one's own target leaves the others' unloads as they were. */
  lemma UnloadGuarded(m: Machine, tid: nat, l: Loaded)
    requires Guarded(m) && tid in m.tasks && Target(m.tasks[tid]) == Some(l)
    ensures Guarded(Finish(AfterUnload(m, l), tid))
  {
    var n := Finish(AfterUnload(m, l), tid);
    assert Underway(m, m.tasks[tid]);
    forall u | u in n.tasks
      ensures Underway(n, n.tasks[u])
    {
      assert Underway(m, m.tasks[u]) && Apart(m.tasks[u], m.tasks[tid]);
    }
  }

  lemma StepGuarded(m: Machine, a: Action, g: Config)
    requires g.max >= 1 && Guarded(m) && !Restarts(m, a, g)
    ensures Guarded(Step(m, a, g)) && !Stale(m, a)
  {
    FinishGuarded(m, a.tid);
    match a
    case Call(tid, r, ok) =>
      if tid !in m.tasks && !Hit(m.c, Key(r), r.nCtx) && !Locked(m, Key(r)) {
        ProceedGuarded(m, tid, r, ok, g);
      }
    case Queue(_, _) =>
    case Wake(tid, ok) =>
      if tid in m.tasks && m.tasks[tid].Waiting? && !Locked(m, Key(m.tasks[tid].req)) {
        if !Hit(m.c, Key(m.tasks[tid].req), m.tasks[tid].req.nCtx) {
          ProceedGuarded(m, tid, m.tasks[tid].req, ok, g);
        }
      }
    case Drained(tid, ok) =>
      if tid in m.tasks && Target(m.tasks[tid]).Some? {
        assert Underway(m, m.tasks[tid]);
        UnloadGuarded(m, tid, Target(m.tasks[tid]).value);
        DrainedGuarded(m, tid, ok, g);
      }
    case Force(tid, tenant, model) =>
      if tid !in m.tasks {
        DrainGuarded(m, tid, Selected(m.c.loaded, Prefix(tenant, model)));
      }
    case Shutdown(tid) =>
      if tid !in m.tasks {
        DrainGuarded(m, tid, m.c.loaded);
      }
    case Idle(tid, b) =>
      if tid !in m.tasks && !m.closing && b < |m.made| && b !in m.stopping {
        DrainGuarded(m, tid, [m.made[b]]);
      }
    case Cancel(_) =>
  }

  lemma DrainedGuarded(m: Machine, tid: nat, ok: bool, g: Config)
    requires g.max >= 1 && tid in m.tasks && Target(m.tasks[tid]).Some? && !Restarts(m, Drained(tid, ok), g)
    requires Guarded(Finish(AfterUnload(m, Target(m.tasks[tid]).value), tid))
    ensures Guarded(Step(m, Drained(tid, ok), g))
  {
    var l := Target(m.tasks[tid]).value;
    match m.tasks[tid]
    case Waiting(_) =>
    case Evicting(r, _) =>
      ProceedGuarded(AfterUnload(m, l), tid, r, ok, g);
    case Draining(targets) =>
      DrainGuarded(AfterUnload(m, l), tid, targets[1..]);
  }

  ghost predicate NeverRestarts(acts: seq<Action>, g: Config)
    requires g.max >= 1
  {
    acts == [] ||
    (var front := acts[..|acts| - 1];
     NeverRestarts(front, g) && !Restarts(RunFrom(START, front, g), acts[|acts| - 1], g))
  }

  /** If no unload begins on a slot that is already unloading, every backend of the run is resident or closed once. */
  lemma {:induction false} GuardedRunBooks(acts: seq<Action>, g: Config)
    requires g.max >= 1 && DefaultCalls(acts) && NeverRestarts(acts, g)
    ensures Guarded(RunFrom(START, acts, g)) && Accounted(RunFrom(START, acts, g).c)
  {
    NeverRestartsNeverStale(acts, g);
    RunBooks(acts, g);
  }

  lemma {:induction false} NeverRestartsNeverStale(acts: seq<Action>, g: Config)
    requires g.max >= 1 && NeverRestarts(acts, g)
    ensures Guarded(RunFrom(START, acts, g)) && NeverStale(acts, g)
  {
    if acts != [] {
      var front := acts[..|acts| - 1];
      NeverRestartsNeverStale(front, g);
      StepGuarded(RunFrom(START, front, g), acts[|acts| - 1], g);
    }
  }

  // ----- the guard is also necessary -----

  predicate Targets(t: Task, b: nat) {
    Target(t).Some? && Target(t).value.backend == b
  }

  ghost predicate Targeted(m: Machine, b: nat) {
    exists t :: t in m.tasks && Targets(m.tasks[t], b)
  }

  ghost predicate TargetedTwice(m: Machine, b: nat) {
    exists t, u :: t in m.tasks && u in m.tasks && t != u && Targets(m.tasks[t], b) && Targets(m.tasks[u], b)
  }

  predicate ClosedTwice(closed: seq<nat>, b: nat) {
    exists i, j :: 0 <= i < j < |closed| && closed[i] == b && closed[j] == b
  }

  /** One unload of the slot has begun: it is over or under way. */
  ghost predicate Once(m: Machine, b: nat) {
    b in m.c.closed || Targeted(m, b)
  }

  /** Two unloads of the slot have begun. */
  ghost predicate Twice(m: Machine, b: nat) {
    ClosedTwice(m.c.closed, b) || (b in m.c.closed && Targeted(m, b)) || TargetedTwice(m, b)
  }

  /** What a step without cancellation does to unloads: the one of its own task may end, by closing, and one may begin. */
  ghost predicate Moves(m: Machine, n: Machine, tid: nat) {
    && (forall t :: t != tid && t in m.tasks ==> t in n.tasks && n.tasks[t] == m.tasks[t])
    && n.c.closed == (if n != m && tid in m.tasks && Target(m.tasks[tid]).Some?
                      then m.c.closed + [Target(m.tasks[tid]).value.backend] else m.c.closed)
    && (forall b :: b in n.stopping ==> b in m.stopping || (tid in n.tasks && Targets(n.tasks[tid], b)))
  }

  /** A step that leaves the closed list alone and begins at most one unload, at its own task. */
  ghost predicate Begins(m: Machine, n: Machine, tid: nat) {
    && (forall t :: t != tid && t in m.tasks ==> t in n.tasks && n.tasks[t] == m.tasks[t])
    && n.c.closed == m.c.closed
    && (forall b :: b in n.stopping ==> b in m.stopping || (tid in n.tasks && Targets(n.tasks[tid], b)))
  }

  lemma ProceedBegins(m: Machine, tid: nat, r: Req, ok: bool, g: Config)
    requires g.max >= 1
    ensures Begins(m, Proceed(m, tid, r, ok, g), tid)
  {
  }

  lemma DrainBegins(m: Machine, tid: nat, targets: seq<Loaded>)
    ensures Begins(m, Drain(m, tid, targets), tid)
  {
  }

  lemma CallMoves(m: Machine, tid: nat, r: Req, ok: bool, g: Config)
    requires g.max >= 1
    ensures Moves(m, Step(m, Call(tid, r, ok), g), tid) && Moves(m, Step(m, Wake(tid, ok), g), tid)
  {
    ProceedBegins(m, tid, r, ok, g);
    if tid in m.tasks && m.tasks[tid].Waiting? {
      ProceedBegins(m, tid, m.tasks[tid].req, ok, g);
    }
  }

  lemma StepMoves(m: Machine, a: Action, g: Config)
    requires g.max >= 1 && !a.Cancel?
    ensures Moves(m, Step(m, a, g), a.tid)
  {
    match a
    case Call(tid, r, ok) =>
      CallMoves(m, tid, r, ok, g);
    case Queue(_, _) =>
    case Wake(tid, ok) =>
      if tid in m.tasks && m.tasks[tid].Waiting? {
        CallMoves(m, tid, m.tasks[tid].req, ok, g);
      }
    case Drained(tid, ok) =>
      if tid in m.tasks && Target(m.tasks[tid]).Some? {
        DrainedMoves(m, tid, ok, g);
      }
    case Force(tid, tenant, model) =>
      DrainBegins(m, tid, Selected(m.c.loaded, Prefix(tenant, model)));
    case Shutdown(tid) =>
      DrainBegins(m, tid, m.c.loaded);
    case Idle(tid, b) =>
      if b < |m.made| {
        DrainBegins(m, tid, [m.made[b]]);
      }
    case Cancel(_) =>
  }

  lemma DrainedMoves(m: Machine, tid: nat, ok: bool, g: Config)
    requires g.max >= 1 && tid in m.tasks && Target(m.tasks[tid]).Some?
    ensures Moves(m, Step(m, Drained(tid, ok), g), tid)
  {
    var l := Target(m.tasks[tid]).value;
    var n := Step(m, Drained(tid, ok), g);
    match m.tasks[tid] {
      case Waiting(_) =>
      case Evicting(r, _) => ProceedBegins(AfterUnload(m, l), tid, r, ok, g);
      case Draining(targets) => DrainBegins(AfterUnload(m, l), tid, targets[1..]);
    }
    assert Begins(AfterUnload(m, l), n, tid);
    assert |n.c.closed| > |m.c.closed|;
  }

  lemma MovesOnce(m: Machine, n: Machine, tid: nat, b: nat)
    requires Moves(m, n, tid) && Once(m, b)
    ensures Once(n, b)
  {
    if b in m.c.closed {
      assert m.c.closed <= n.c.closed;
    } else {
      var t :| t in m.tasks && Targets(m.tasks[t], b);
      if n == m || t != tid {
        assert t in n.tasks && Targets(n.tasks[t], b);
      } else {
        assert n.c.closed[|m.c.closed|] == b;
      }
    }
  }

  lemma ClosedOneMore(closed: seq<nat>, b: nat)
    requires b in closed
    ensures ClosedTwice(closed + [b], b)
  {
    var i :| 0 <= i < |closed| && closed[i] == b;
    assert (closed + [b])[i] == b && (closed + [b])[|closed|] == b;
  }

  lemma MovesTwice(m: Machine, n: Machine, tid: nat, b: nat)
    requires Moves(m, n, tid) && Twice(m, b) && n != m
    ensures Twice(n, b)
  {
    if ClosedTwice(m.c.closed, b) {
      var i, j :| 0 <= i < j < |m.c.closed| && m.c.closed[i] == b && m.c.closed[j] == b;
      assert n.c.closed[i] == b && n.c.closed[j] == b;
    } else if b in m.c.closed && Targeted(m, b) {
      var t :| t in m.tasks && Targets(m.tasks[t], b);
      if t == tid {
        ClosedOneMore(m.c.closed, b);
      } else {
        assert t in n.tasks && b in n.c.closed;
      }
    } else {
      var t, u :| t in m.tasks && u in m.tasks && t != u && Targets(m.tasks[t], b) && Targets(m.tasks[u], b);
      OneOfTwo(m, n, tid, t, u, b);
    }
  }

  lemma OneOfTwo(m: Machine, n: Machine, tid: nat, t: nat, u: nat, b: nat)
    requires Moves(m, n, tid) && n != m && t in m.tasks && u in m.tasks && t != u
    requires Targets(m.tasks[t], b) && Targets(m.tasks[u], b)
    ensures Twice(n, b)
  {
    if t == tid || u == tid {
      var other := if t == tid then u else t;
      assert n.c.closed[|m.c.closed|] == b && other in n.tasks && Targets(n.tasks[other], b);
    } else {
      assert t in n.tasks && u in n.tasks;
    }
  }

  /** A second unload of a slot has begun when the step restarts it. */
  lemma RestartTwice(m: Machine, a: Action, g: Config)
    requires g.max >= 1 && !a.Cancel? && Restarts(m, a, g)
    requires forall b :: b in m.stopping ==> Once(m, b)
    ensures Twice(Step(m, a, g), Target(Step(m, a, g).tasks[a.tid]).value.backend)
  {
    var n := Step(m, a, g);
    var b := Target(n.tasks[a.tid]).value.backend;
    StepMoves(m, a, g);
    assert Targets(n.tasks[a.tid], b) && Once(m, b);
    if b in m.c.closed {
      assert b in n.c.closed;
    } else {
      var t :| t in m.tasks && Targets(m.tasks[t], b);
      if t == a.tid {
        assert n.c.closed[|m.c.closed|] == b;
      } else {
        assert t in n.tasks && Targets(n.tasks[t], b);
      }
    }
  }

  predicate NoCancel(acts: seq<Action>) {
    forall i :: 0 <= i < |acts| ==> !acts[i].Cancel?
  }

  lemma {:induction false} StoppingOnce(acts: seq<Action>, g: Config)
    requires g.max >= 1 && NoCancel(acts)
    ensures forall b :: b in RunFrom(START, acts, g).stopping ==> Once(RunFrom(START, acts, g), b)
  {
    if acts != [] {
      var front, a := acts[..|acts| - 1], acts[|acts| - 1];
      var m, n := RunFrom(START, front, g), RunFrom(START, acts, g);
      StoppingOnce(front, g);
      StepMoves(m, a, g);
      forall b | b in n.stopping
        ensures Once(n, b)
      {
        if b in m.stopping {
          MovesOnce(m, n, a.tid, b);
        }
      }
    }
  }

  lemma {:induction false} RestartedTwice(acts: seq<Action>, g: Config) returns (b: nat)
    requires g.max >= 1 && NoCancel(acts) && !NeverRestarts(acts, g)
    ensures Twice(RunFrom(START, acts, g), b)
  {
    var front, a := acts[..|acts| - 1], acts[|acts| - 1];
    var m := RunFrom(START, front, g);
    if NeverRestarts(front, g) {
      StoppingOnce(front, g);
      RestartTwice(m, a, g);
      b := Target(Step(m, a, g).tasks[a.tid]).value.backend;
    } else {
      b := RestartedTwice(front, g);
      if Step(m, a, g) != m {
        StepMoves(m, a, g);
        MovesTwice(m, Step(m, a, g), a.tid, b);
      }
    }
  }

  /** No unload is under way. */
  ghost predicate Quiet(m: Machine) {
    forall t :: t in m.tasks ==> Target(m.tasks[t]).None?
  }

  /**
   * For runs with default contexts that cancel nothing and end with no unload under way, the guard is exact: every
   * backend is resident or closed once if and only if no unload began on a slot that was already unloading.
   */
  lemma QuietRunBooks(acts: seq<Action>, g: Config)
    requires g.max >= 1 && DefaultCalls(acts) && NoCancel(acts) && Quiet(RunFrom(START, acts, g))
    ensures Accounted(RunFrom(START, acts, g).c) <==> NeverRestarts(acts, g)
  {
    if NeverRestarts(acts, g) {
      GuardedRunBooks(acts, g);
    } else {
      var b := RestartedTwice(acts, g);
      var m := RunFrom(START, acts, g);
      assert !Targeted(m, b) && !TargetedTwice(m, b);
      var i, j :| 0 <= i < j < |m.c.closed| && m.c.closed[i] == b && m.c.closed[j] == b;
      TwiceClosed(m.c);
    }
  }

  // ----- completed calls -----

  /** The steps of one call that no other step comes between. */
  function CallAlone(m: Machine, tid: nat, r: Req, g: Config): seq<Action> {
    if Hit(m.c, Key(r), r.nCtx) || |m.c.loaded| < g.max then [Call(tid, r, true)]
    else [Call(tid, r, true), Drained(tid, true)]
  }

  lemma RunOne(m: Machine, a: Action, g: Config)
    requires g.max >= 1
    ensures RunFrom(m, [a], g) == Step(m, a, g)
  {
    assert [a][..0] == [] && RunFrom(m, [], g) == m;
  }

  /** With room in the map the call ends in its first step. */
  lemma RoomyCall(m: Machine, tid: nat, r: Req, g: Config)
    requires g.max >= 1 && Inv(m, g) && tid !in m.tasks && !Locked(m, Key(r))
    requires Hit(m.c, Key(r), r.nCtx) || |m.c.loaded| < g.max
    ensures var n := Step(m, Call(tid, r, true), g);
            n.c == Ensure(m.c, r.name, r.nCtx, g.max, g.nCtxDefault) && n.tasks == m.tasks
  {
    assert m.tasks - {tid} == m.tasks;
  }

  /** On a full map it evicts the oldest slot and ends when that is drained. */
  lemma FullCall(m: Machine, tid: nat, r: Req, g: Config)
    requires g.max >= 1 && Inv(m, g) && tid !in m.tasks && !Locked(m, Key(r))
    requires !Hit(m.c, Key(r), r.nCtx) && |m.c.loaded| == g.max
    ensures var n := Step(Step(m, Call(tid, r, true), g), Drained(tid, true), g);
            n.c == Ensure(m.c, r.name, r.nCtx, g.max, g.nCtxDefault) && n.tasks == m.tasks
  {
    var victim := m.c.loaded[0];
    var m1 := Step(m, Call(tid, r, true), g);
    assert m1.c == m.c && m1.tasks == m.tasks[tid := Evicting(r, victim)];
    UnloadOldest(m.c, g.max);
    var m2 := AfterUnload(m1, victim);
    assert Step(m1, Drained(tid, true), g) == Proceed(m2, tid, r, true, g);
    assert m2.tasks - {tid} == m.tasks;
  }

  lemma UnloadOldest(c: Cache, max: nat)
    requires max >= 1 && |c.loaded| == max
    ensures Unload(c, c.loaded[0]) == EvictDown(c, max) && |EvictDown(c, max).loaded| < max
  {
    EvictsOldest(c, max);
    assert IndexOf(c.loaded, c.loaded[0].key) == 0;
    RemoveFirst(c.loaded);
  }

  /** An undisturbed call takes the map where the completed load of the cache model takes it. */
  lemma UndisturbedCallIsEnsure(m: Machine, tid: nat, r: Req, g: Config)
    requires g.max >= 1 && Inv(m, g) && tid !in m.tasks && !Locked(m, Key(r))
    ensures var n := RunFrom(m, CallAlone(m, tid, r, g), g);
            n.c == Ensure(m.c, r.name, r.nCtx, g.max, g.nCtxDefault) && n.tasks == m.tasks
  {
    if Hit(m.c, Key(r), r.nCtx) || |m.c.loaded| < g.max {
      RoomyCall(m, tid, r, g);
      RunOne(m, Call(tid, r, true), g);
    } else {
      FullCall(m, tid, r, g);
      RunTwo(m, Call(tid, r, true), Drained(tid, true), g);
    }
  }

  /** A load that fails leaves the map and every other call as they were. */
  lemma FailedLoadEnds(m: Machine, tid: nat, r: Req, g: Config)
    requires g.max >= 1 && tid !in m.tasks && !Locked(m, Key(r)) && !Hit(m.c, Key(r), r.nCtx) && |m.c.loaded| < g.max
    ensures Step(m, Call(tid, r, false), g) == m
  {
    assert m.tasks - {tid} == m.tasks;
  }

  /** A second call for a key that is being loaded waits for the first. */
  lemma SecondWaits(m: Machine, t: nat, u: nat, r: Req, g: Config)
    requires g.max >= 1 && |m.c.loaded| == g.max && t !in m.tasks && u !in m.tasks && t != u
    requires !Locked(m, Key(r)) && !Hit(m.c, Key(r), r.nCtx)
    ensures var n := Step(Step(m, Call(t, r, true), g), Call(u, r, true), g);
            n.c == m.c && n.made == m.made && n.tasks == m.tasks[t := Evicting(r, m.c.loaded[0])][u := Waiting(r)]
  {
    var m1 := Step(m, Call(t, r, true), g);
    assert m1.c == m.c && m1.tasks == m.tasks[t := Evicting(r, m.c.loaded[0])];
    assert t in m1.tasks && Loads(m1.tasks[t]);
    assert Locked(m1, Key(r));
  }

  /** And gets its slot: two calls for one missing key on a full map evict one slot, load one backend and both return. */
  lemma LoadedOnce(m: Machine, t: nat, u: nat, r: Req, g: Config)
    requires g.max >= 1 && Inv(m, g) && |m.c.loaded| == g.max && t !in m.tasks && u !in m.tasks && t != u
    requires !Locked(m, Key(r)) && !Hit(m.c, Key(r), r.nCtx) && r.nCtx.None?
    ensures var two := Step(Step(m, Call(t, r, true), g), Call(u, r, true), g);
            var n := Step(Step(two, Drained(t, true), g), Wake(u, true), g);
            && n.tasks == m.tasks && |n.made| == |m.made| + 1 && n.c.closed == m.c.closed + [m.c.loaded[0].backend]
            && Hit(n.c, Key(r), None)
  {
    SecondWaits(m, t, u, r, g);
    var two := Step(Step(m, Call(t, r, true), g), Call(u, r, true), g);
    FirstLoads(m, two, t, u, r, g);
    var three := Step(two, Drained(t, true), g);
    assert !Locked(three, Key(r));
    assert three.tasks - {u} == m.tasks;
  }

  lemma FirstLoads(m: Machine, two: Machine, t: nat, u: nat, r: Req, g: Config)
    requires g.max >= 1 && Inv(m, g) && |m.c.loaded| == g.max && t !in m.tasks && u !in m.tasks && t != u
    requires !Hit(m.c, Key(r), r.nCtx) && r.nCtx.None? && two.c == m.c && two.made == m.made
    requires two.tasks == m.tasks[t := Evicting(r, m.c.loaded[0])][u := Waiting(r)]
    ensures var three := Step(two, Drained(t, true), g);
            && three.tasks == m.tasks[u := Waiting(r)] && |three.made| == |m.made| + 1
            && three.c.closed == m.c.closed + [m.c.loaded[0].backend] && Hit(three.c, Key(r), None)
  {
    var victim := m.c.loaded[0];
    UnloadOldest(m.c, g.max);
    var after := AfterUnload(two, victim);
    assert Step(two, Drained(t, true), g) == Proceed(after, t, r, true, g);
    HitIffResident(after.c, Key(r));
    assert after.tasks - {t} == m.tasks[u := Waiting(r)];
    var n := Insert(after.c, r.name, WantedCtx(r.nCtx, g.nCtxDefault));
    HitIffResident(n, Key(r));
    InsertedResident(after.c, r.name, WantedCtx(r.nCtx, g.nCtxDefault));
  }

  lemma InsertedResident(c: Cache, name: SlotName, nCtx: int)
    ensures CacheKey(name) in Keys(Insert(c, name, nCtx).loaded)
  {
    var n, i := Insert(c, name, nCtx), IndexOf(c.loaded, CacheKey(name));
    assert Keys(n.loaded)[i] == CacheKey(name);
  }

  // ----- two families of runs that lose count -----

  lemma RunSnoc(m: Machine, acts: seq<Action>, a: Action, g: Config)
    requires g.max >= 1
    ensures RunFrom(m, acts + [a], g) == Step(RunFrom(m, acts, g), a, g)
  {
    assert (acts + [a])[..|acts|] == acts;
  }

  lemma RunTwo(m: Machine, a: Action, b: Action, g: Config)
    requires g.max >= 1
    ensures RunFrom(m, [a, b], g) == Step(Step(m, a, g), b, g)
  {
    RunOne(m, a, g);
    RunSnoc(m, [a], b, g);
    assert [a] + [b] == [a, b];
  }

  /** Both calls come to wait for the same victim. */
  lemma BothEvict(m: Machine, t: nat, r: Req, u: nat, q: Req, ok: bool, g: Config)
    requires g.max >= 1 && |m.c.loaded| == g.max && t !in m.tasks && u !in m.tasks && t != u
    requires !Hit(m.c, Key(r), r.nCtx) && !Hit(m.c, Key(q), q.nCtx) && Key(r) != Key(q)
    requires !Locked(m, Key(r)) && !Locked(m, Key(q))
    ensures var n, victim := Step(Step(m, Call(t, r, ok), g), Call(u, q, ok), g), m.c.loaded[0];
            n.c == m.c && n.tasks == m.tasks[t := Evicting(r, victim)][u := Evicting(q, victim)]
  {
    var m1 := Step(m, Call(t, r, ok), g);
    assert m1.c == m.c && m1.tasks == m.tasks[t := Evicting(r, m.c.loaded[0])];
    assert !Locked(m1, Key(q));
  }

  lemma DrainedCloses(m: Machine, t: nat, ok: bool, r: Req, victim: Loaded, g: Config)
    requires g.max >= 1 && t in m.tasks && m.tasks[t] == Evicting(r, victim)
    ensures var n := Step(m, Drained(t, ok), g);
            n.c.closed == m.c.closed + [victim.backend]
            && forall u :: u != t && u in m.tasks ==> u in n.tasks && n.tasks[u] == m.tasks[u]
  {
  }

  /** On a full map, two calls for different missing keys unload the same slot and close its backend twice. */
  lemma EvictedTwice(m: Machine, t: nat, r: Req, u: nat, q: Req, ok: bool, g: Config)
    requires g.max >= 1 && |m.c.loaded| == g.max && t !in m.tasks && u !in m.tasks && t != u
    requires !Hit(m.c, Key(r), r.nCtx) && !Hit(m.c, Key(q), q.nCtx) && Key(r) != Key(q)
    requires !Locked(m, Key(r)) && !Locked(m, Key(q))
    ensures var acts := [Call(t, r, ok), Call(u, q, ok)] + [Drained(t, ok)] + [Drained(u, ok)];
            RunFrom(m, acts, g).c.closed == m.c.closed + [m.c.loaded[0].backend] + [m.c.loaded[0].backend]
  {
    var victim, calls := m.c.loaded[0], [Call(t, r, ok), Call(u, q, ok)];
    RunTwo(m, Call(t, r, ok), Call(u, q, ok), g);
    BothEvict(m, t, r, u, q, ok, g);
    var m2 := RunFrom(m, calls, g);
    RunSnoc(m, calls, Drained(t, ok), g);
    DrainedCloses(m2, t, ok, r, victim, g);
    RunSnoc(m, calls + [Drained(t, ok)], Drained(u, ok), g);
    DrainedCloses(Step(m2, Drained(t, ok), g), u, ok, q, victim, g);
  }

  /** A slot in a map with unique keys is gone once its key is popped. */
  lemma PoppedIsGone(c: Cache, k: Loaded)
    requires Unique(Keys(c.loaded)) && k in c.loaded
    ensures IndexOf(c.loaded, k.key) < |c.loaded| && k !in RemoveAt(c.loaded, IndexOf(c.loaded, k.key))
  {
    var i := IndexOf(c.loaded, k.key);
    var j :| 0 <= j < |c.loaded| && c.loaded[j] == k;
    assert Keys(c.loaded)[i] == Keys(c.loaded)[j];
    forall p | 0 <= p < |c.loaded| && p != i
      ensures c.loaded[p] != k
    {
      assert Keys(c.loaded)[p] != Keys(c.loaded)[i];
    }
  }

  /** A stale unload whose key has been loaded again drops the new slot from the map without closing it. */
  lemma StaleUnloadLeaks(m: Machine, l: Loaded, k: Loaded, g: Config)
    requires Inv(m, g) && Accounted(m.c) && Known(m.made, l) && l.backend in m.c.closed
    requires k in m.c.loaded && k.key == l.key
    ensures k !in Unload(m.c, l).loaded && k.backend !in Unload(m.c, l).closed
  {
    ResidentOrClosed(m, k);
    ResidentOrClosed(m, l);
    PoppedIsGone(m.c, k);
  }

  /** Forced unload, idle timer, its end, a call, and the forced unload's two ends. */
  function Overtaken(a: Loaded, t: nat, u: nat, v: nat): seq<Action> {
    [Force(t, a.name.tenant, a.name.model), Idle(u, a.backend)] + [Drained(u, true)]
    + [Call(v, Req(a.name, None), true)] + [Drained(t, true)] + [Drained(t, true)]
  }

  /**
   * Such runs exist: while a forced unload of slots `e` and `a` drains `e`, the idle timer closes `a` and a call
   * loads it again; the forced unload then ends on the old `a` and drops the new one, which nothing has closed.
   */
  lemma ForcedUnloadLeaks(m: Machine, e: Loaded, a: Loaded, t: nat, u: nat, v: nat, g: Config)
    requires g.max >= 2 && Inv(m, g) && m.c.loaded == [e, a] && m.tasks == map[] && !m.closing
    requires e.name.tenant == a.name.tenant && e.name.model == a.name.model && a.backend !in m.stopping
    requires Accounted(m.c) && t != u && t != v && u != v
    ensures var n := RunFrom(m, Overtaken(a, t, u, v), g);
            n.c.loaded == [] && n.c.next == m.c.next + 1 && m.c.next !in n.c.closed
  {
    var r := Req(a.name, None);
    assert Known(m.made, e) && Known(m.made, a);
    assert m.c.next !in m.c.closed + Backends(m.c.loaded);
    var a1, a2 := Force(t, a.name.tenant, a.name.model), Idle(u, a.backend);
    TwoKeys(m, e, a);
    var m2 := ForceThenIdle(m, e, a, t, u, g);
    RunSnoc(m, [a1, a2], Drained(u, true), g);
    var m3 := Step(m2, Drained(u, true), g);
    assert m3.c == Cache([e], m.c.next, m.c.closed + [a.backend]) && m3.tasks == map[t := Draining([e, a])];
    RunSnoc(m, [a1, a2] + [Drained(u, true)], Call(v, r, true), g);
    var again := Loaded(a.key, a.name, m.c.next, g.nCtxDefault);
    var m4 := Step(m3, Call(v, r, true), g);
    assert m4.c == Cache([e, again], m.c.next + 1, m3.c.closed) && m4.tasks == m3.tasks;
    DrainBoth(m4, e, again, a, t, g);
    RunSnoc(m, [a1, a2] + [Drained(u, true)] + [Call(v, r, true)], Drained(t, true), g);
    RunSnoc(m, [a1, a2] + [Drained(u, true)] + [Call(v, r, true)] + [Drained(t, true)], Drained(t, true), g);
  }

  lemma TwoKeys(m: Machine, e: Loaded, a: Loaded)
    requires Unique(Keys(m.c.loaded)) && Recorded(m) && m.c.loaded == [e, a]
    ensures e.key != a.key && e.key == CacheKey(e.name) && a.key == CacheKey(a.name)
  {
    assert Keys(m.c.loaded)[0] == e.key && Keys(m.c.loaded)[1] == a.key;
    assert e in m.c.loaded && a in m.c.loaded;
  }

  lemma ForceThenIdle(m: Machine, e: Loaded, a: Loaded, t: nat, u: nat, g: Config) returns (n: Machine)
    requires g.max >= 2 && Inv(m, g) && m.c.loaded == [e, a] && m.tasks == map[] && !m.closing
    requires e.name.tenant == a.name.tenant && e.name.model == a.name.model
    requires t != u && e.backend != a.backend && a.backend !in m.stopping
    ensures n == RunFrom(m, [Force(t, a.name.tenant, a.name.model), Idle(u, a.backend)], g)
    ensures n.c == m.c && n.tasks == map[t := Draining([e, a]), u := Draining([a])]
  {
    TwoKeys(m, e, a);
    var prefix := Prefix(a.name.tenant, a.name.model);
    assert e.key == prefix + (e.name.mode + [':'] + e.name.loras);
    assert a.key == prefix + (a.name.mode + [':'] + a.name.loras);
    assert [e, a][1..] == [a] && [a][1..] == [];
    assert Selected([a], prefix) == [a] && Selected([e, a], prefix) == [e] + [a];
    RunTwo(m, Force(t, a.name.tenant, a.name.model), Idle(u, a.backend), g);
    assert a in m.c.loaded && Known(m.made, a);
    var m1 := Step(m, Force(t, a.name.tenant, a.name.model), g);
    assert Selected(m.c.loaded, prefix) == [e, a];
    assert m1 == Drain(m, t, [e, a]);
    assert m1.c == m.c && m1.tasks == map[t := Draining([e, a])] && m1.stopping == m.stopping + {e.backend};
    n := Step(m1, Idle(u, a.backend), g);
  }

  lemma DrainBoth(m: Machine, e: Loaded, again: Loaded, a: Loaded, t: nat, g: Config)
    requires g.max >= 1 && m.c.loaded == [e, again] && again.key == a.key != e.key && m.tasks == map[t := Draining([e, a])]
    ensures var n := Step(Step(m, Drained(t, true), g), Drained(t, true), g);
            n.c == Cache([], m.c.next, m.c.closed + [e.backend] + [a.backend])
  {
    var m1 := Step(m, Drained(t, true), g);
    assert m1.c == Cache([again], m.c.next, m.c.closed + [e.backend]);
    assert m1.tasks[t] == Draining([a]);
  }

  // ----- from the start -----

  lemma {:induction false} RunConcat(m: Machine, a: seq<Action>, b: seq<Action>, g: Config)
    requires g.max >= 1
    ensures RunFrom(m, a + b, g) == RunFrom(RunFrom(m, a, g), b, g)
    decreases |b|
  {
    if b == [] {
      assert a + b == a;
    } else {
      var front := b[..|b| - 1];
      assert (a + b)[..|a + b| - 1] == a + front;
      RunConcat(m, a, front, g);
    }
  }

  /** Two calls for different slots from the start leave both resident and nothing else going on. */
  lemma TwoLoads(x: SlotName, y: SlotName, g: Config)
    requires g.max >= 2 && CacheKey(x) != CacheKey(y)
    ensures var m := RunFrom(START, [Call(0, Req(x, None), true), Call(1, Req(y, None), true)], g);
            && m.c == Cache([Loaded(CacheKey(x), x, 0, g.nCtxDefault), Loaded(CacheKey(y), y, 1, g.nCtxDefault)], 2, [])
            && m.tasks == map[] && !m.closing && m.stopping == {}
  {
    var a, b := Call(0, Req(x, None), true), Call(1, Req(y, None), true);
    RunTwo(START, a, b, g);
    var m1 := Step(START, a, g);
    assert m1.c == Cache([Loaded(CacheKey(x), x, 0, g.nCtxDefault)], 1, []);
    assert m1.tasks == map[];
  }

  /** So a backend can be lost from the start, by slots of one model that differ in mode or adapters. */
  lemma LeakFromStart(x: SlotName, y: SlotName, g: Config) returns (acts: seq<Action>)
    requires g.max >= 2 && CacheKey(x) != CacheKey(y) && x.tenant == y.tenant && x.model == y.model
    ensures DefaultCalls(acts) && NoCancel(acts)
    ensures var c := RunFrom(START, acts, g).c; c.loaded == [] && c.next == 3 && 2 !in c.closed
  {
    var loads := [Call(0, Req(x, None), true), Call(1, Req(y, None), true)];
    var m := RunFrom(START, loads, g);
    TwoLoads(x, y, g);
    ReachableKeeps(loads, g);
    RunBooksOfLoads(x, y, g);
    var e, a := m.c.loaded[0], m.c.loaded[1];
    ForcedUnloadLeaks(m, e, a, 2, 3, 4, g);
    RunConcat(START, loads, Overtaken(a, 2, 3, 4), g);
    acts := loads + Overtaken(a, 2, 3, 4);
    OvertakenPlain(loads, a);
  }

  lemma OvertakenPlain(loads: seq<Action>, a: Loaded)
    requires DefaultCalls(loads) && NoCancel(loads)
    ensures DefaultCalls(loads + Overtaken(a, 2, 3, 4)) && NoCancel(loads + Overtaken(a, 2, 3, 4))
  {
  }

  lemma RunBooksOfLoads(x: SlotName, y: SlotName, g: Config)
    requires g.max >= 2 && CacheKey(x) != CacheKey(y)
    ensures Accounted(RunFrom(START, [Call(0, Req(x, None), true), Call(1, Req(y, None), true)], g).c)
  {
    TwoLoads(x, y, g);
  }

  /** A second call with a larger context overwrites the slot: its backend is neither resident nor closed. */
  lemma OverwrittenFromStart(x: SlotName, g: Config)
    requires g.max >= 2
    ensures var c := RunFrom(START, [Call(0, Req(x, None), true), Call(1, Req(x, Some(g.nCtxDefault + 1)), true)], g).c;
            0 !in Backends(c.loaded) && 0 !in c.closed && c.next == 2
  {
    var a, b := Call(0, Req(x, None), true), Call(1, Req(x, Some(g.nCtxDefault + 1)), true);
    RunTwo(START, a, b, g);
    var m1 := Step(START, a, g);
    assert m1.c == Cache([Loaded(CacheKey(x), x, 0, g.nCtxDefault)], 1, []) && m1.tasks == map[];
    var m2 := Step(m1, b, g);
    assert |m2.c.loaded| == 1 && m2.c.loaded[0].backend == 1 && m2.c.closed == [];
  }
}
