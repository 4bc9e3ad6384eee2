/** The map of models and its workers together: one job queue and one worker beside every slot that was made. */
module ModelService {
  import opened Bytes
  import opened ModelCache
  import opened ModelMachine
  import B = ModelBooks
  import W = Worker

  /**
   * `slots[b]` belongs to backend `b`, whose worker was cancelled if `b` is in `dead`; `waiting` are the calls whose stop
   * signal finds its queue full.
   */
  datatype Service = Service(m: Machine, slots: seq<W.Slot>, waiting: set<nat>, dead: set<nat>)

  const START := Service(ModelMachine.START, [], {}, {})

  /**
   * `Ask` is a request whose model is loaded: it gets its slot and queues its job in one step. `Expire` is the time limit
   * on an unload's wait for the worker.
   */
  datatype Event =
    | Act(a: Action)
    | Ask(tid: nat, r: Req, job: W.Job)
    | Submit(b: nat, job: W.Job)
    | Work(b: nat, cancelAt: Option<nat>)
    | Abandon(b: nat, id: nat)
    | PutStop(tid: nat)
    | Expire(tid: nat, ok: bool)

  /** The call is inside the unload of this slot and past its stop signal. */
  predicate Awaits(v: Service, tid: nat, b: nat) {
    tid in v.m.tasks && B.Targets(v.m.tasks[tid], b) && tid !in v.waiting && b < |v.slots|
  }

  /** It awaits a worker that runs. */
  ghost predicate AwaitsLive(v: Service, tid: nat) {
    exists b: nat :: Awaits(v, tid, b) && b !in v.dead && W.Stop !in v.slots[b].taken
  }

  /** It awaits a worker that was cancelled, which raises the cancellation in the call. */
  ghost predicate AwaitsDead(v: Service, tid: nat) {
    exists b: nat :: Awaits(v, tid, b) && b in v.dead
  }

  /** The worker that goes with a call that is cancelled or gives up its wait. */
  ghost function Killed(v: Service, tid: nat): set<nat> {
    if AwaitsLive(v, tid) then {B.Target(v.m.tasks[tid]).value.backend} else {}
  }

  function Sent(v: Service, b: nat, e: W.Event): Service {
    if b < |v.slots| then v.(slots := v.slots[b := W.Happen(v.slots[b], e)]) else v
  }

  /** Begin an unload: the stop signal goes into the slot's queue, or its sender waits for room. */
  function Stopping(v: Service, tid: nat, b: nat): Service {
    if b < |v.slots| && W.Full(v.slots[b]) then v.(waiting := v.waiting + {tid})
    else Sent(v, b, W.SendStop).(waiting := v.waiting - {tid})
  }

  /** A step of the map, with a new queue for a slot that it made. */
  ghost function Moved(v: Service, a: Action, g: Config, depth: nat): Service
    requires g.max >= 1
  {
    var n := Step(v.m, a, g);
    v.(m := n, slots := if |n.made| > |v.m.made| then v.slots + [W.Fresh(depth)] else v.slots)
  }

  /** And the stop signal of an unload that it began. */
  ghost function Acted(v: Service, a: Action, g: Config, depth: nat): Service
    requires g.max >= 1
  {
    var w := Moved(v, a, g, depth);
    if a.tid in w.m.tasks && B.Target(w.m.tasks[a.tid]).Some?
    then Stopping(w, a.tid, B.Target(w.m.tasks[a.tid]).value.backend)
    else w.(waiting := w.waiting - {a.tid})
  }

  function Slot(m: Machine, r: Req): Loaded
    requires Hit(m.c, Key(r), r.nCtx)
  {
    m.c.loaded[IndexOf(m.c.loaded, Key(r))]
  }

  /** An unload ends when its worker has returned; a worker that was cancelled cancels the call that waits for it. */
  ghost function Advance(v: Service, a: Action, g: Config, depth: nat): Service
    requires g.max >= 1
  {
    if a.Drained? && (a.tid in v.waiting || AwaitsLive(v, a.tid)) then v
    else if a.Drained? && AwaitsDead(v, a.tid) then Acted(v, Cancel(a.tid), g, depth)
    else if a.Cancel? then Acted(Kill(v, a.tid), a, g, depth)
    else if Step(v.m, a, g) == v.m then v
    else Acted(v, a, g, depth)
  }

  /** A call and its worker are cancelled together. */
  ghost function Kill(v: Service, tid: nat): Service {
    v.(dead := v.dead + Killed(v, tid))
  }

  ghost function Next(v: Service, e: Event, g: Config, depth: nat): Service
    requires g.max >= 1
  {
    match e
    case Act(a) => Advance(v, a, g, depth)
    case Ask(tid, r, job) =>
      if tid in v.m.tasks || !Hit(v.m.c, Key(r), r.nCtx) then v
      else Sent(v, Slot(v.m, r).backend, W.Submit(job)).(m := Step(v.m, Call(tid, r, true), g))
    case Submit(b, job) => Sent(v, b, W.Submit(job))
    case Abandon(b, id) => Sent(v, b, W.CancelFuture(id))
    case Work(b, cancelAt) =>
      if b < |v.slots| && b !in v.dead && W.Good(v.slots[b]) && W.Stop !in v.slots[b].taken
      then v.(slots := v.slots[b := W.Turn(v.slots[b], W.Moment([], cancelAt)).0]) else v
    case PutStop(tid) =>
      if tid in v.waiting && tid in v.m.tasks && B.Target(v.m.tasks[tid]).Some?
      then Stopping(v, tid, B.Target(v.m.tasks[tid]).value.backend) else v
    case Expire(tid, ok) =>
      if AwaitsLive(v, tid) then Acted(Kill(v, tid), Drained(tid, ok), g, depth) else v
  }

  ghost function Run(v: Service, events: seq<Event>, g: Config, depth: nat): Service
    requires g.max >= 1
  {
    if events == [] then v else Next(Run(v, events[..|events| - 1], g, depth), events[|events| - 1], g, depth)
  }

  // ----- what every step keeps -----

  ghost predicate SlotOk(s: W.Slot) {
    W.Good(s) && (W.Stop in s.taken ==> W.Stopped(s.taken))
  }

  predicate StopSent(s: W.Slot) {
    W.Stop in W.History(s)
  }

  /** Every slot is in order, and an unload whose sender does not wait has put its stop signal into its slot. */
  ghost predicate Linked(v: Service) {
    && |v.slots| == |v.m.made|
    && (forall b :: 0 <= b < |v.slots| ==> SlotOk(v.slots[b]))
    && (forall t :: t in v.m.tasks && t !in v.waiting && B.Target(v.m.tasks[t]).Some? ==>
          var b := B.Target(v.m.tasks[t]).value.backend; b < |v.slots| && StopSent(v.slots[b]))
  }

  /** A slot later on. */
  ghost predicate Evolves(s: W.Slot, n: W.Slot) {
    SlotOk(n) && W.History(s) <= W.History(n) && s.jobs <= n.jobs
  }

  ghost predicate AllEvolve(v: Service, n: Service) {
    |v.slots| <= |n.slots| && forall b :: 0 <= b < |v.slots| ==> Evolves(v.slots[b], n.slots[b])
  }

  lemma HappenEvolves(s: W.Slot, e: W.Event)
    requires SlotOk(s)
    ensures Evolves(s, W.Happen(s, e))
  {
    W.HappenGood(s, e);
    assert W.History(W.Happen(s, e))[..|W.History(s)|] == W.History(s);
  }

  lemma TurnEvolves(s: W.Slot, cancelAt: Option<nat>)
    requires SlotOk(s) && W.Stop !in s.taken
    ensures Evolves(s, W.Turn(s, W.Moment([], cancelAt)).0)
  {
    var moment := W.Moment([], cancelAt);
    W.TurnGood(s, moment);
    W.TurnLater(s, moment);
    W.LoopHistory(s, [moment]);
    assert [moment][1..] == [];
    assert W.Loop(s, [moment]).0 == W.Turn(s, moment).0;
  }

  lemma EvolvesStop(s: W.Slot, n: W.Slot)
    requires Evolves(s, n) && StopSent(s)
    ensures StopSent(n)
  {
    var i :| 0 <= i < |W.History(s)| && W.History(s)[i] == W.Stop;
    assert W.History(n)[i] == W.Stop;
  }

  /** The map may stand still while slots go on. */
  lemma LinkedLater(v: Service, n: Service)
    requires Linked(v) && AllEvolve(v, n) && n.m == v.m && n.waiting == v.waiting && |n.slots| == |v.slots|
    ensures Linked(n)
  {
    forall b | 0 <= b < |n.slots|
      ensures SlotOk(n.slots[b]) && (StopSent(v.slots[b]) ==> StopSent(n.slots[b]))
    {
      assert Evolves(v.slots[b], n.slots[b]);
      if StopSent(v.slots[b]) {
        EvolvesStop(v.slots[b], n.slots[b]);
      }
    }
  }

  lemma OneEvolves(v: Service, b: nat, s: W.Slot)
    requires Linked(v) && b < |v.slots| && Evolves(v.slots[b], s)
    ensures var n := v.(slots := v.slots[b := s]); Linked(n) && AllEvolve(v, n)
  {
    var n := v.(slots := v.slots[b := s]);
    forall c | 0 <= c < |v.slots|
      ensures Evolves(v.slots[c], n.slots[c])
    {
    }
    LinkedLater(v, n);
  }

  lemma SentKeeps(v: Service, b: nat, e: W.Event)
    requires Linked(v)
    ensures Linked(Sent(v, b, e)) && AllEvolve(v, Sent(v, b, e))
  {
    if b < |v.slots| {
      HappenEvolves(v.slots[b], e);
      OneEvolves(v, b, W.Happen(v.slots[b], e));
    }
  }

  lemma StopNow(s: W.Slot)
    requires !W.Full(s)
    ensures StopSent(W.Happen(s, W.SendStop))
  {
    assert W.History(W.Happen(s, W.SendStop))[|W.History(s)|] == W.Stop;
  }

  /** Once its stop signal is in the queue, a call does not wait for room. */
  lemma RoomFound(x: Service, tid: nat, b: nat)
    requires Linked(x) && b < |x.slots| && StopSent(x.slots[b]) && tid in x.m.tasks && B.Targets(x.m.tasks[tid], b)
    ensures Linked(x.(waiting := x.waiting - {tid})) && AllEvolve(x, x.(waiting := x.waiting - {tid}))
  {
  }

  lemma StoppingKeeps(v: Service, tid: nat, b: nat)
    requires b < |v.slots| && tid in v.m.tasks && B.Targets(v.m.tasks[tid], b)
    requires Linked(v.(waiting := v.waiting + {tid}))
    ensures Linked(Stopping(v, tid, b)) && AllEvolve(v, Stopping(v, tid, b))
  {
    var w := v.(waiting := v.waiting + {tid});
    if W.Full(v.slots[b]) {
      StayKeeps(w);
    } else {
      var x := Sent(w, b, W.SendStop);
      SentKeeps(w, b, W.SendStop);
      StopNow(w.slots[b]);
      RoomFound(x, tid, b);
      assert v.waiting - {tid} == x.waiting - {tid};
      assert Stopping(v, tid, b) == x.(waiting := x.waiting - {tid});
    }
  }

  lemma StayKeeps(v: Service)
    requires Linked(v)
    ensures AllEvolve(v, v)
  {
  }

  lemma MadeGrows(m: Machine, a: Action, g: Config)
    requires g.max >= 1
    ensures var n := Step(m, a, g); n.made == m.made || |n.made| == |m.made| + 1
  {
  }

  lemma OthersWait(m: Machine, a: Action, g: Config)
    requires g.max >= 1
    ensures forall t :: t in Step(m, a, g).tasks && t != a.tid ==> t in m.tasks && Step(m, a, g).tasks[t] == m.tasks[t]
  {
  }

  lemma FreshOk(depth: nat)
    ensures SlotOk(W.Fresh(depth))
  {
  }

  lemma MovedKeeps(v: Service, a: Action, g: Config, depth: nat)
    requires g.max >= 1 && Linked(v)
    ensures var w := Moved(v, a, g, depth);
            && AllEvolve(v, w) && |w.slots| == |w.m.made| && (forall b :: 0 <= b < |w.slots| ==> SlotOk(w.slots[b]))
            && Linked(w.(waiting := w.waiting + {a.tid}))
  {
    MadeGrows(v.m, a, g);
    OthersWait(v.m, a, g);
    FreshOk(depth);
  }

  lemma TargetKnown(m: Machine, tid: nat)
    requires Recorded(m) && tid in m.tasks && B.Target(m.tasks[tid]).Some?
    ensures B.Target(m.tasks[tid]).value.backend < |m.made|
    ensures B.Targets(m.tasks[tid], B.Target(m.tasks[tid]).value.backend)
  {
    assert TaskKnown(m.made, m.tasks[tid]);
    match m.tasks[tid]
    case Waiting(_) =>
    case Evicting(_, _) =>
    case Draining(targets) => assert targets[0] in targets;
  }

  lemma ActedKeeps(v: Service, a: Action, g: Config, depth: nat)
    requires g.max >= 1 && Inv(v.m, g) && Linked(v)
    ensures Inv(Acted(v, a, g, depth).m, g) && Linked(Acted(v, a, g, depth)) && AllEvolve(v, Acted(v, a, g, depth))
  {
    StepKeeps(v.m, a, g);
    MovedKeeps(v, a, g, depth);
    var w := Moved(v, a, g, depth);
    if a.tid in w.m.tasks && B.Target(w.m.tasks[a.tid]).Some? {
      var b := B.Target(w.m.tasks[a.tid]).value.backend;
      TargetKnown(w.m, a.tid);
      StoppingKeeps(w, a.tid, b);
      EvolveTrans(v, w, Stopping(w, a.tid, b));
    }
  }

  lemma EvolveTrans(a: Service, b: Service, c: Service)
    requires AllEvolve(a, b) && AllEvolve(b, c)
    ensures AllEvolve(a, c)
  {
    forall k | 0 <= k < |a.slots|
      ensures Evolves(a.slots[k], c.slots[k])
    {
      assert Evolves(a.slots[k], b.slots[k]) && Evolves(b.slots[k], c.slots[k]);
    }
  }

  lemma KillKeeps(v: Service, tid: nat, a: Action, g: Config, depth: nat)
    requires g.max >= 1 && Inv(v.m, g) && Linked(v)
    ensures var n := Acted(Kill(v, tid), a, g, depth); Inv(n.m, g) && Linked(n) && AllEvolve(v, n)
  {
    ActedKeeps(Kill(v, tid), a, g, depth);
  }

  lemma AdvanceKeeps(v: Service, a: Action, g: Config, depth: nat)
    requires g.max >= 1 && Inv(v.m, g) && Linked(v)
    ensures var n := Advance(v, a, g, depth); Inv(n.m, g) && Linked(n) && AllEvolve(v, n)
  {
    StayKeeps(v);
    ActedKeeps(v, a, g, depth);
    ActedKeeps(v, Cancel(a.tid), g, depth);
    KillKeeps(v, a.tid, a, g, depth);
  }

  lemma AskKeeps(v: Service, tid: nat, r: Req, job: W.Job, g: Config)
    requires g.max >= 1 && Inv(v.m, g) && Linked(v) && tid !in v.m.tasks && Hit(v.m.c, Key(r), r.nCtx)
    ensures var n := Sent(v, Slot(v.m, r).backend, W.Submit(job)).(m := Step(v.m, Call(tid, r, true), g));
            Inv(n.m, g) && Linked(n) && AllEvolve(v, n)
  {
    StepKeeps(v.m, Call(tid, r, true), g);
    SentKeeps(v, Slot(v.m, r).backend, W.Submit(job));
  }

  lemma NextKeeps(v: Service, e: Event, g: Config, depth: nat)
    requires g.max >= 1 && Inv(v.m, g) && Linked(v)
    ensures var n := Next(v, e, g, depth); Inv(n.m, g) && Linked(n) && AllEvolve(v, n)
  {
    match e
    case Act(a) => AdvanceKeeps(v, a, g, depth);
    case Ask(tid, r, job) =>
      if tid !in v.m.tasks && Hit(v.m.c, Key(r), r.nCtx) {
        AskKeeps(v, tid, r, job, g);
      }
    case Submit(b, job) => SentKeeps(v, b, W.Submit(job));
    case Abandon(b, id) => SentKeeps(v, b, W.CancelFuture(id));
    case Work(b, cancelAt) =>
      if b < |v.slots| && W.Stop !in v.slots[b].taken {
        TurnEvolves(v.slots[b], cancelAt);
        OneEvolves(v, b, W.Turn(v.slots[b], W.Moment([], cancelAt)).0);
      }
    case PutStop(tid) =>
      if tid in v.waiting && tid in v.m.tasks && B.Target(v.m.tasks[tid]).Some? {
        TargetKnown(v.m, tid);
        assert v.waiting + {tid} == v.waiting;
        StoppingKeeps(v, tid, B.Target(v.m.tasks[tid]).value.backend);
      }
    case Expire(tid, ok) => KillKeeps(v, tid, Drained(tid, ok), g, depth);
  }

  lemma {:induction false} RunKeeps(v: Service, events: seq<Event>, g: Config, depth: nat)
    requires g.max >= 1 && Inv(v.m, g) && Linked(v)
    ensures var n := Run(v, events, g, depth); Inv(n.m, g) && Linked(n) && AllEvolve(v, n)
  {
    if events != [] {
      RunKeeps(v, events[..|events| - 1], g, depth);
      NextKeeps(Run(v, events[..|events| - 1], g, depth), events[|events| - 1], g, depth);
    }
  }

  // ----- which jobs are served -----

  /** A call that finds its slot gets it at once, whether or not the slot is being unloaded. */
  lemma HitReturnsAtOnce(m: Machine, tid: nat, r: Req, ok: bool, g: Config)
    requires g.max >= 1 && Inv(m, g) && tid !in m.tasks && Hit(m.c, Key(r), r.nCtx)
    ensures var n := Step(m, Call(tid, r, ok), g);
            && n.tasks == m.tasks && n.stopping == m.stopping && n.c.loaded != []
            && n.c.loaded[|n.c.loaded| - 1] == Slot(m, r) && Slot(m, r).backend < |m.made|
    ensures Named(Spelled, m) && Spelled(r.name) ==> Slot(m, r).name == r.name
  {
    assert Slot(m, r) in m.c.loaded;
    if Named(Spelled, m) && Spelled(r.name) {
      HitIsNamed(m, r, g);
    }
  }

  predicate AsksFor(p: SlotName -> bool, e: Event) {
    (e.Act? ==> CallsFor(p, e.a)) && (e.Ask? ==> p(e.r.name))
  }

  lemma ActedNamed(v: Service, a: Action, g: Config, depth: nat)
    requires g.max >= 1 && Named(Spelled, v.m) && CallsFor(Spelled, a)
    ensures Named(Spelled, Acted(v, a, g, depth).m)
  {
    StepNamed(Spelled, v.m, a, g);
  }

  lemma NextNamed(v: Service, e: Event, g: Config, depth: nat)
    requires g.max >= 1 && Named(Spelled, v.m) && AsksFor(Spelled, e)
    ensures Named(Spelled, Next(v, e, g, depth).m)
  {
    match e
    case Act(a) =>
      ActedNamed(v, a, g, depth);
      ActedNamed(v, Cancel(a.tid), g, depth);
      ActedNamed(Kill(v, a.tid), a, g, depth);
    case Ask(tid, r, _) => StepNamed(Spelled, v.m, Call(tid, r, true), g);
    case Expire(tid, ok) => ActedNamed(Kill(v, tid), Drained(tid, ok), g, depth);
    case Submit(_, _) =>
    case Work(_, _) =>
    case Abandon(_, _) =>
    case PutStop(_) =>
  }

  /** In every state that calls for plain names reach, whoever gets a slot gets the one of exactly the name asked for. */
  lemma {:induction false} SlotIsNamed(events: seq<Event>, r: Req, g: Config, depth: nat)
    requires g.max >= 1 && Spelled(r.name) && forall i :: 0 <= i < |events| ==> AsksFor(Spelled, events[i])
    ensures var m := Run(START, events, g, depth).m;
            Named(Spelled, m) && (Hit(m.c, Key(r), r.nCtx) ==> Slot(m, r).name == r.name)
  {
    if events != [] {
      SlotIsNamed(events[..|events| - 1], r, g, depth);
      NextNamed(Run(START, events[..|events| - 1], g, depth), events[|events| - 1], g, depth);
    }
    RunKeeps(START, events, g, depth);
    var m := Run(START, events, g, depth).m;
    if Hit(m.c, Key(r), r.nCtx) {
      HitIsNamed(m, r, g);
    }
  }

  /**
   * A request whose slot has its stop signal already is accepted, and whatever happens afterwards its job is never run
   * or answered; a request whose slot has none is answered by the time the slot's worker returns.
   */
  lemma AskedJob(v: Service, tid: nat, r: Req, job: W.Job, later: seq<Event>, g: Config, depth: nat)
    requires g.max >= 1 && Inv(v.m, g) && Linked(v) && tid !in v.m.tasks && Hit(v.m.c, Key(r), r.nCtx)
    requires var b := Slot(v.m, r).backend; b < |v.slots| && !W.Full(v.slots[b])
    ensures var b := Slot(v.m, r).backend;
            var id, n := |v.slots[b].jobs|, Run(Next(v, Ask(tid, r, job), g, depth), later, g, depth);
            && b < |n.slots| && id < |n.slots[b].jobs| && n.slots[b].jobs[id] == job
            && (StopSent(v.slots[b]) ==> W.Untouched(n.slots[b], id))
            && (!StopSent(v.slots[b]) && W.Stop in n.slots[b].taken ==> W.Answered(n.slots[b], id))
  {
    HitReturnsAtOnce(v.m, tid, r, true, g);
    var b := Slot(v.m, r).backend;
    var id, v1 := |v.slots[b].jobs|, Next(v, Ask(tid, r, job), g, depth);
    NextKeeps(v, Ask(tid, r, job), g, depth);
    RunKeeps(v1, later, g, depth);
    var s, n := v.slots[b], Run(v1, later, g, depth).slots[b];
    W.SubmitHistory(s, job);
    assert v1.slots[b] == W.Happen(s, W.Submit(job)) && Evolves(v1.slots[b], n);
    assert v1.slots[b].jobs[id] == job;
    if StopSent(s) {
      assert W.History(s) <= W.History(v1.slots[b]);
      W.NothingBeyondStop(n, W.History(s), id);
    } else if W.Stop in n.taken {
      W.AllBeforeStop(n, W.History(v1.slots[b]), id);
    }
  }

  function First(x: SlotName, g: Config): Loaded {
    Loaded(CacheKey(x), x, 0, g.nCtxDefault)
  }

  lemma FirstCall(x: SlotName, g: Config)
    requires g.max >= 1
    ensures var m := Step(ModelMachine.START, Call(0, Req(x, None), true), g);
            m == Machine(Cache([First(x, g)], 1, []), [First(x, g)], {}, false, map[])
  {
    var m := Step(ModelMachine.START, Call(0, Req(x, None), true), g);
    assert m.c == Cache([First(x, g)], 1, []) && m.tasks == map[];
  }

  lemma LoadFirst(x: SlotName, g: Config, depth: nat)
    requires g.max >= 1
    ensures var v := Next(START, Act(Call(0, Req(x, None), true)), g, depth);
            && v.m == Machine(Cache([First(x, g)], 1, []), [First(x, g)], {}, false, map[])
            && v.slots == [W.Fresh(depth)] && v.waiting == {} && v.dead == {} && Inv(v.m, g) && Linked(v)
  {
    FirstCall(x, g);
    NextKeeps(START, Act(Call(0, Req(x, None), true)), g, depth);
  }

  lemma ForceFirst(v: Service, x: SlotName, g: Config, depth: nat)
    requires g.max >= 1 && Inv(v.m, g) && Linked(v)
    requires v.m.c == Cache([First(x, g)], 1, []) && v.m.tasks == map[] && v.slots == [W.Fresh(depth)] && v.waiting == {}
    ensures var n := Next(v, Act(Force(1, x.tenant, x.model)), g, depth);
            && n.m.c == v.m.c && n.m.made == v.m.made && n.m.tasks == map[1 := Task.Draining([First(x, g)])]
            && n.slots == [W.Happen(W.Fresh(depth), W.SendStop)] && n.waiting == {} && n.dead == v.dead
            && Inv(n.m, g) && Linked(n)
  {
    PairSelected(First(x, g));
    NextKeeps(v, Act(Force(1, x.tenant, x.model)), g, depth);
    var n := Step(v.m, Force(1, x.tenant, x.model), g);
    assert n == ModelMachine.Drain(v.m, 1, [First(x, g)]);
    assert n.tasks == map[1 := Task.Draining([First(x, g)])] && n.made == v.m.made;
    assert 1 in n.tasks && B.Target(n.tasks[1]) == Some(First(x, g));
  }

  /** Such a request exists: load, begin a forced unload, ask. */
  lemma LateJobFromStart(x: SlotName, job: W.Job, later: seq<Event>, g: Config, depth: nat)
    requires g.max >= 1 && depth != 1
    ensures var r := Req(x, None);
            var v := Next(Next(START, Act(Call(0, r, true)), g, depth), Act(Force(1, x.tenant, x.model)), g, depth);
            && Hit(v.m.c, Key(r), None) && 2 !in v.m.tasks
            && var n := Run(Next(v, Ask(2, r, job), g, depth), later, g, depth);
               |n.slots| > 0 && W.Untouched(n.slots[0], 0) && |n.slots[0].jobs| > 0 && n.slots[0].jobs[0] == job
  {
    var r := Req(x, None);
    LoadFirst(x, g, depth);
    var v1 := Next(START, Act(Call(0, r, true)), g, depth);
    ForceFirst(v1, x, g, depth);
    var v := Next(v1, Act(Force(1, x.tenant, x.model)), g, depth);
    assert W.History(v.slots[0])[0] == W.Stop;
    assert v.m.c.loaded[0] == First(x, g) && IndexOf(v.m.c.loaded, Key(r)) == 0;
    AskedJob(v, 2, r, job, later, g, depth);
  }

  lemma PairSelected(l: Loaded)
    requires l.key == CacheKey(l.name)
    ensures Selected([l], Prefix(l.name.tenant, l.name.model)) == [l]
  {
    assert l.key == Prefix(l.name.tenant, l.name.model) + (l.name.mode + [':'] + l.name.loras);
    assert [l][1..] == [];
  }
}
