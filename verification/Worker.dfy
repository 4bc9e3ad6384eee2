/** One slot's bounded job queue and the single worker that serves it. */
module Worker {
  import opened Bytes

  /** A raw chunk as the backend yields it. */
  datatype Raw = Raw(json: string)

  /** What a streaming backend call yields before it finishes or raises. */
  datatype Generator = Generator(chunks: seq<Raw>, error: Option<string>)

  datatype Kind = Chat | Complete | Embed

  /** What the backend call of a job comes to. */
  datatype Outcome = Returns(value: string) | Raises(error: string)

  datatype Job = Job(kind: Kind, stream: bool, outcome: Outcome, generator: Generator)

  datatype Answer = Value(value: string) | Handle

  datatype Future = Pending | Cancelled | Done(answer: Answer) | Failed(error: string)

  /** Jobs are numbered as they are submitted. */
  datatype Item = Run(id: nat) | Stop

  datatype StreamItem = Chunk(raw: Raw) | EndOfStream

  /** What the worker has put on a stream handle, and the error it left there. */
  datatype Stream = Stream(items: seq<StreamItem>, error: Option<string>)

  const INVALID_STATE := "invalid state"

  datatype Slot = Slot(
    depth: nat,
    jobs: seq<Job>,
    futures: seq<Future>,
    streams: seq<Option<Stream>>,
    queue: seq<Item>,
    taken: seq<Item>,
    ran: seq<nat>,
    settled: seq<nat>,
    lastError: Option<string>)

  function Fresh(depth: nat): Slot {
    Slot(depth, [], [], [], [], [], [], [], None)
  }

  /** A queue of depth zero is unbounded. */
  predicate Full(s: Slot) {
    s.depth > 0 && |s.queue| >= s.depth
  }

  /** What other tasks do to the slot while the worker is suspended. */
  datatype Event = Submit(job: Job) | CancelFuture(id: nat) | SendStop

  /** A refused submission leaves no future behind; a stop signal waits while the queue is full. */
  function Happen(s: Slot, e: Event): Slot {
    match e
    case Submit(job) =>
      if Full(s) then s
      else s.(jobs := s.jobs + [job], futures := s.futures + [Pending], streams := s.streams + [None],
              queue := s.queue + [Run(|s.jobs|)])
    case CancelFuture(id) =>
      if id < |s.futures| && s.futures[id] == Pending then s.(futures := s.futures[id := Cancelled]) else s
    case SendStop =>
      if Full(s) then s else s.(queue := s.queue + [Stop])
  }

  function HappenAll(s: Slot, events: seq<Event>): Slot {
    if events == [] then s else Happen(HappenAll(s, events[..|events| - 1]), events[|events| - 1])
  }

  /** The worker stops before the chunk at which it first sees the cancel event. */
  predicate CutShort(g: Generator, cancelAt: Option<nat>) {
    cancelAt.Some? && cancelAt.value <= |g.chunks|
  }

  function Wrap(chunks: seq<Raw>): (items: seq<StreamItem>)
    ensures |items| == |chunks|
    ensures forall i :: 0 <= i < |items| ==> items[i] == Chunk(chunks[i])
  {
    seq(|chunks|, i requires 0 <= i < |chunks| => Chunk(chunks[i]))
  }

  function Pumped(g: Generator, cancelAt: Option<nat>): Stream {
    if CutShort(g, cancelAt) then Stream(Wrap(g.chunks[..cancelAt.value]) + [EndOfStream], None)
    else Stream(Wrap(g.chunks) + [EndOfStream], g.error)
  }

  predicate Streams(job: Job) {
    job.stream && job.kind != Embed
  }

  /** What the future of a job becomes if its caller has not cancelled it. */
  function Settlement(job: Job): Future {
    match job.outcome
    case Raises(e) => Failed(e)
    case Returns(v) => if Streams(job) then Done(Handle) else Done(Value(v))
  }

  function FirstError(a: Option<string>, b: Option<string>): Option<string> {
    if a.Some? then a else b
  }

  /** `str(e)[:200]`. */
  function Clip(error: string): string {
    if |error| <= 200 then error else error[..200]
  }

  /** The error a served job leaves in the slot: setting the result of a cancelled future raises too. */
  function ErrorOf(job: Job, future: Future, cancelAt: Option<nat>): Option<string> {
    match job.outcome
    case Raises(e) => Some(Clip(e))
    case Returns(_) =>
      if future != Pending then Some(INVALID_STATE)
      else if Streams(job) && Pumped(job.generator, cancelAt).error.Some? then
        Some(Clip(Pumped(job.generator, cancelAt).error.value))
      else None
  }

  function Serve(s: Slot, id: nat, cancelAt: Option<nat>): Slot
    requires id < |s.jobs| == |s.futures| == |s.streams|
  {
    var job, future := s.jobs[id], s.futures[id];
    var open := future == Pending;
    s.(ran := s.ran + [id],
       futures := if open then s.futures[id := Settlement(job)] else s.futures,
       settled := if open then s.settled + [id] else s.settled,
       streams := if open && Settlement(job) == Done(Handle)
                  then s.streams[id := Some(Pumped(job.generator, cancelAt))] else s.streams,
       lastError := FirstError(ErrorOf(job, future, cancelAt), s.lastError))
  }

  /** One passage of the worker: what happened while it waited, and when the stream it may pump is cancelled. */
  datatype Moment = Moment(events: seq<Event>, cancelAt: Option<nat>)

  function Take(s: Slot): Slot
    requires s.queue != []
  {
    s.(queue := s.queue[1..], taken := s.taken + [s.queue[0]])
  }

  /** One turn of the worker's loop; the flag says that it has returned. */
  function Turn(s: Slot, moment: Moment): (Slot, bool)
    requires Good(s)
  {
    HappenAllGood(s, moment.events);
    var h := HappenAll(s, moment.events);
    if h.queue == [] then (h, false)
    else if h.queue[0].Stop? then (Take(h), true)
    else
      ServeGood(h, moment.cancelAt);
      (Serve(Take(h), h.queue[0].id, moment.cancelAt), false)
  }

  /** The worker's loop over the moments at which it wakes. */
  function Loop(s: Slot, moments: seq<Moment>): (Slot, bool)
    requires Good(s)
    decreases |moments|
  {
    if moments == [] then (s, false)
    else
      TurnGood(s, moments[0]);
      var (n, stopped) := Turn(s, moments[0]);
      if stopped then (n, true) else Loop(n, moments[1..])
  }

  // ----- what every step keeps -----

  function Ids(items: seq<Item>): seq<nat> {
    if items == [] then []
    else Ids(items[..|items| - 1]) + (if items[|items| - 1].Run? then [items[|items| - 1].id] else [])
  }

  predicate Counts(ids: seq<nat>, lo: nat, hi: nat) {
    lo + |ids| == hi && forall i :: 0 <= i < |ids| ==> ids[i] == lo + i
  }

  predicate Increasing(ids: seq<nat>) {
    forall i, j :: 0 <= i < j < |ids| ==> ids[i] < ids[j]
  }

  predicate Settled(f: Future) {
    f.Done? || f.Failed?
  }

  /**
   * Jobs run in the order of submission, `|ran|` of them so far; each of those is settled as its backend call came
   * out unless its caller had cancelled it, each other one is pending or cancelled; nothing is settled twice; every
   * stream handed out has been closed; the queue keeps its bound.
   */
  ghost predicate Good(s: Slot) {
    && |s.jobs| == |s.futures| == |s.streams|
    && (s.depth > 0 ==> |s.queue| <= s.depth)
    && Counts(Ids(s.taken), 0, |s.ran|) && Counts(Ids(s.queue), |s.ran|, |s.jobs|) && Counts(s.ran, 0, |s.ran|)
    && |s.ran| <= |s.jobs|
    && (forall f: nat :: f < |s.futures| ==> FutureGood(s, f))
    && Increasing(s.settled)
    && (forall f: nat :: f in s.settled <==> f < |s.futures| && Settled(s.futures[f]))
  }

  ghost predicate FutureGood(s: Slot, f: nat)
    requires f < |s.futures| && |s.jobs| == |s.futures| == |s.streams|
  {
    && (f < |s.ran| ==> s.futures[f] == Cancelled || s.futures[f] == Settlement(s.jobs[f]))
    && (f >= |s.ran| ==> s.futures[f] == Cancelled || s.futures[f] == Pending)
    && (s.streams[f].Some? <==> s.futures[f] == Done(Handle))
    && (s.streams[f].Some? ==> exists c :: s.streams[f].value == Pumped(s.jobs[f].generator, c))
  }

  lemma IdsSnoc(items: seq<Item>, i: Item)
    ensures Ids(items + [i]) == Ids(items) + (if i.Run? then [i.id] else [])
  {
    assert (items + [i])[..|items|] == items;
  }

  lemma {:induction false} IdsCons(items: seq<Item>)
    requires items != []
    ensures Ids(items) == (if items[0].Run? then [items[0].id] else []) + Ids(items[1..])
  {
    if |items| > 1 {
      var front, rest := items[..|items| - 1], items[1..];
      IdsCons(front);
      assert front[1..] == rest[..|rest| - 1] && rest[|rest| - 1] == items[|items| - 1];
    }
  }

  lemma SubmitFutures(s: Slot, job: Job, f: nat)
    requires Good(s) && !Full(s) && f <= |s.futures|
    ensures var n := Happen(s, Submit(job)); FutureGood(n, f) && (f in n.settled <==> Settled(n.futures[f]))
  {
    if f < |s.futures| {
      assert FutureGood(s, f) && (f in s.settled <==> Settled(s.futures[f]));
    }
  }

  lemma SubmitGood(s: Slot, job: Job)
    requires Good(s) && !Full(s)
    ensures Good(Happen(s, Submit(job)))
  {
    IdsSnoc(s.queue, Run(|s.jobs|));
    var n := Happen(s, Submit(job));
    forall f: nat | f < |n.futures|
      ensures FutureGood(n, f) && (f in n.settled <==> Settled(n.futures[f]))
    {
      SubmitFutures(s, job, f);
    }
  }

  lemma CancelGood(s: Slot, id: nat)
    requires Good(s)
    ensures Good(Happen(s, CancelFuture(id)))
  {
    var n := Happen(s, CancelFuture(id));
    forall f: nat | f < |n.futures|
      ensures FutureGood(n, f) && (f in n.settled <==> Settled(n.futures[f]))
    {
      assert FutureGood(s, f) && (f in s.settled <==> Settled(s.futures[f]));
    }
  }

  lemma SendStopGood(s: Slot)
    requires Good(s) && !Full(s)
    ensures Good(Happen(s, SendStop))
  {
    IdsSnoc(s.queue, Stop);
    var n := Happen(s, SendStop);
    assert Ids(n.queue) == Ids(s.queue);
    forall f: nat | f < |n.futures|
      ensures FutureGood(n, f)
    {
      assert FutureGood(s, f);
    }
  }

  lemma HappenGood(s: Slot, e: Event)
    requires Good(s)
    ensures Good(Happen(s, e))
  {
    match e
    case Submit(job) =>
      if !Full(s) {
        SubmitGood(s, job);
      }
    case CancelFuture(id) => CancelGood(s, id);
    case SendStop =>
      if !Full(s) {
        SendStopGood(s);
      }
  }

  lemma {:induction false} HappenAllGood(s: Slot, events: seq<Event>)
    requires Good(s)
    ensures Good(HappenAll(s, events))
  {
    if events != [] {
      HappenAllGood(s, events[..|events| - 1]);
      HappenGood(HappenAll(s, events[..|events| - 1]), events[|events| - 1]);
    }
  }

  lemma ServeGood(s: Slot, cancelAt: Option<nat>)
    requires Good(s) && s.queue != [] && s.queue[0].Run?
    ensures s.queue[0].id < |s.jobs|
    ensures Good(Serve(Take(s), s.queue[0].id, cancelAt))
  {
    var id := s.queue[0].id;
    IdsCons(s.queue);
    IdsSnoc(s.taken, s.queue[0]);
    assert Ids(s.queue)[0] == id == |s.ran|;
    assert forall i :: 0 <= i < |Ids(s.queue[1..])| ==> Ids(s.queue[1..])[i] == Ids(s.queue)[i + 1];
    var n := Serve(Take(s), id, cancelAt);
    assert FutureGood(s, id);
    forall f: nat | f < |n.futures|
      ensures FutureGood(n, f)
    {
      assert FutureGood(s, f);
    }
    ServeSettled(s, id, n);
  }

  lemma ServeSettled(s: Slot, id: nat, n: Slot)
    requires Good(s) && id == |s.ran| < |s.futures| == |n.futures| && FutureGood(s, id)
    requires n.futures == if s.futures[id] == Pending then s.futures[id := Settlement(s.jobs[id])] else s.futures
    requires n.settled == if s.futures[id] == Pending then s.settled + [id] else s.settled
    ensures Increasing(n.settled) && forall f: nat :: f in n.settled <==> f < |n.futures| && Settled(n.futures[f])
  {
    forall i | 0 <= i < |s.settled|
      ensures s.settled[i] < id
    {
      assert s.settled[i] in s.settled;
      assert FutureGood(s, s.settled[i]);
    }
    if s.futures[id] == Pending {
      forall f: nat
        ensures f in n.settled <==> f < |n.futures| && Settled(n.futures[f])
      {
        assert f in n.settled <==> f in s.settled || f == id;
        assert f < |n.futures| && f != id ==> n.futures[f] == s.futures[f];
      }
    }
  }

  lemma StopGood(s: Slot)
    requires Good(s) && s.queue != [] && s.queue[0].Stop?
    ensures Good(Take(s))
  {
    IdsCons(s.queue);
    IdsSnoc(s.taken, s.queue[0]);
    var n := Take(s);
    assert Ids(n.queue) == Ids(s.queue) && Ids(n.taken) == Ids(s.taken);
    forall f: nat | f < |n.futures|
      ensures FutureGood(n, f)
    {
      assert FutureGood(s, f);
    }
  }

  // ----- whole runs -----

  /** Futures that are no longer pending keep their state, and jobs keep their numbers. */
  predicate Later(s: Slot, n: Slot) {
    && s.jobs <= n.jobs && |s.futures| <= |n.futures|
    && forall f: nat :: f < |s.futures| && s.futures[f] != Pending ==> n.futures[f] == s.futures[f]
  }

  lemma {:induction false} HappenAllLater(s: Slot, events: seq<Event>)
    ensures Later(s, HappenAll(s, events)) && HappenAll(s, events).taken == s.taken
  {
    if events != [] {
      HappenAllLater(s, events[..|events| - 1]);
    }
  }

  lemma ServeLater(s: Slot, cancelAt: Option<nat>)
    requires Good(s) && s.queue != [] && s.queue[0].Run? && s.queue[0].id < |s.jobs|
    ensures Later(s, Serve(Take(s), s.queue[0].id, cancelAt))
  {
  }

  lemma LaterTrans(a: Slot, b: Slot, c: Slot)
    requires Later(a, b) && Later(b, c)
    ensures Later(a, c)
  {
  }

  predicate Stopped(taken: seq<Item>) {
    taken != [] && taken[|taken| - 1] == Stop && Stop !in taken[..|taken| - 1]
  }

  lemma TurnGood(s: Slot, moment: Moment)
    requires Good(s)
    ensures Good(Turn(s, moment).0)
  {
    HappenAllGood(s, moment.events);
    var h := HappenAll(s, moment.events);
    if h.queue != [] {
      if h.queue[0].Stop? {
        StopGood(h);
      } else {
        ServeGood(h, moment.cancelAt);
      }
    }
  }

  lemma TurnLater(s: Slot, moment: Moment)
    requires Good(s) && Stop !in s.taken
    ensures var (n, stopped) := Turn(s, moment);
            Later(s, n) && (if stopped then Stopped(n.taken) else Stop !in n.taken)
  {
    HappenAllGood(s, moment.events);
    HappenAllLater(s, moment.events);
    var h := HappenAll(s, moment.events);
    if h.queue != [] {
      if h.queue[0].Stop? {
        assert Take(h).taken[|s.taken|] == Stop && Take(h).taken[..|s.taken|] == s.taken;
      } else {
        ServeGood(h, moment.cancelAt);
        ServeLater(h, moment.cancelAt);
        LaterTrans(s, h, Turn(s, moment).0);
      }
    }
  }

  lemma {:induction false} LoopKeeps(s: Slot, moments: seq<Moment>)
    requires Good(s) && Stop !in s.taken
    ensures var (n, stopped) := Loop(s, moments);
            Good(n) && Later(s, n) && (if stopped then Stopped(n.taken) else Stop !in n.taken)
    decreases |moments|
  {
    if moments != [] {
      TurnGood(s, moments[0]);
      TurnLater(s, moments[0]);
      var (n, stopped) := Turn(s, moments[0]);
      if !stopped {
        LoopKeeps(n, moments[1..]);
        LaterTrans(s, n, Loop(n, moments[1..]).0);
      }
    }
  }

  /**
   * What a caller is told about a job that ran: the backend's own value if it did not ask for a stream or asked for an
   * embedding, a handle on the stream otherwise, and the backend's error if it raised.
   */
  ghost predicate Told(f: Future, job: Job) {
    && f != Pending
    && (forall x :: f == Done(Value(x)) ==> job.outcome == Returns(x) && (job.kind == Embed || !job.stream))
    && (f == Done(Handle) ==> job.outcome.Returns? && job.stream && (job.kind == Chat || job.kind == Complete))
    && (forall e :: f == Failed(e) ==> job.outcome == Raises(e))
  }

  /** The handle of a stream holds the generator's chunks, all of them with its error or as many as precede the cut. */
  ghost predicate Carries(stream: Stream, g: Generator) {
    exists n: nat :: n <= |g.chunks|
      && |stream.items| == n + 1 && (forall i :: 0 <= i < n ==> stream.items[i] == Chunk(g.chunks[i]))
      && stream.items[n] == EndOfStream
      && (stream.error == None || (n == |g.chunks| && stream.error == g.error))
  }

  lemma PumpedCarries(g: Generator, cancelAt: Option<nat>)
    ensures Carries(Pumped(g, cancelAt), g)
    ensures cancelAt.None? ==> |Pumped(g, cancelAt).items| == |g.chunks| + 1 && Pumped(g, cancelAt).error == g.error
    ensures cancelAt.Some? && cancelAt.value <= |g.chunks| ==> |Pumped(g, cancelAt).items| == cancelAt.value + 1
  {
    var n := if CutShort(g, cancelAt) then cancelAt.value else |g.chunks|;
    var items := Pumped(g, cancelAt).items;
    assert |items| == n + 1 && items[n] == EndOfStream && forall i :: 0 <= i < n ==> items[i] == Chunk(g.chunks[i]);
  }

  /** A job that ran is cancelled, or its caller was told; a stream was handed out exactly with a handle. */
  ghost predicate Reported(n: Slot, f: nat) {
    && f < |n.jobs| && f < |n.futures| && f < |n.streams|
    && (n.futures[f] != Cancelled ==> Told(n.futures[f], n.jobs[f]))
    && (n.streams[f].Some? <==> n.futures[f] == Done(Handle))
    && (n.streams[f].Some? ==> Carries(n.streams[f].value, n.jobs[f].generator))
  }

  lemma RanReported(n: Slot)
    requires Good(n)
    ensures forall f :: f in n.ran ==> Reported(n, f)
  {
    forall f | f in n.ran
      ensures Reported(n, f)
    {
      var i :| 0 <= i < |n.ran| && n.ran[i] == f;
      assert i == f && FutureGood(n, f);
      if n.streams[f].Some? {
        var c :| n.streams[f].value == Pumped(n.jobs[f].generator, c);
        PumpedCarries(n.jobs[f].generator, c);
      }
    }
  }

  /**
   * The worker returns only when it takes the stop signal; by then every job queued ahead of the signal has run, in
   * order, and is settled as its backend call came out or was cancelled by its caller; jobs behind it stay untouched.
   */
  lemma WorkerSettles(s: Slot, moments: seq<Moment>)
    requires Good(s) && Stop !in s.taken
    ensures var (n, stopped) := Loop(s, moments);
            && (stopped <==> Stop in n.taken) && (stopped ==> Stopped(n.taken))
            && Ids(n.taken) == n.ran && Counts(n.ran, 0, |n.ran|) && Increasing(n.settled)
            && (forall i: nat :: i < |n.taken| && n.taken[i].Run? ==> Answered(n, n.taken[i].id))
            && (forall i: nat :: i < |n.queue| && n.queue[i].Run? ==> Untouched(n, n.queue[i].id))
    ensures Later(s, Loop(s, moments).0)
    ensures forall f :: f in Loop(s, moments).0.ran ==> Reported(Loop(s, moments).0, f)
  {
    LoopKeeps(s, moments);
    TakenSettled(Loop(s, moments).0);
    RanReported(Loop(s, moments).0);
  }

  /** A job that ran: its future holds the backend's outcome, set once, or was cancelled before the worker came. */
  predicate Answered(n: Slot, f: nat) {
    && f < |n.futures| && f < |n.jobs| && f in n.ran
    && (if f in n.settled then n.futures[f] == Settlement(n.jobs[f]) else n.futures[f] == Cancelled)
  }

  predicate Untouched(n: Slot, f: nat) {
    && f < |n.futures| && f !in n.ran && f !in n.settled
    && (n.futures[f] == Pending || n.futures[f] == Cancelled)
  }

  lemma {:induction false} IdsMember(items: seq<Item>, i: nat)
    requires i < |items| && items[i].Run?
    ensures items[i].id in Ids(items)
  {
    if i < |items| - 1 {
      IdsMember(items[..|items| - 1], i);
    }
  }

  lemma TakenSettled(n: Slot)
    requires Good(n)
    ensures forall i: nat :: i < |n.taken| && n.taken[i].Run? ==> Answered(n, n.taken[i].id)
    ensures forall i: nat :: i < |n.queue| && n.queue[i].Run? ==> Untouched(n, n.queue[i].id)
  {
    forall i: nat | i < |n.taken| && n.taken[i].Run?
      ensures Answered(n, n.taken[i].id)
    {
      IdsMember(n.taken, i);
      assert n.ran[n.taken[i].id] == n.taken[i].id;
      assert FutureGood(n, n.taken[i].id);
    }
    forall i: nat | i < |n.queue| && n.queue[i].Run?
      ensures Untouched(n, n.queue[i].id)
    {
      IdsMember(n.queue, i);
      assert FutureGood(n, n.queue[i].id);
    }
  }

  /** A caller that cancels before the worker comes is never answered: its future stays cancelled, whatever happens. */
  lemma CancelledStays(s: Slot, id: nat, moments: seq<Moment>)
    requires Good(s) && Stop !in s.taken && id < |s.futures| && s.futures[id] == Pending
    ensures Good(Happen(s, CancelFuture(id)))
    ensures var n := Loop(Happen(s, CancelFuture(id)), moments).0;
            id < |n.futures| == |n.streams| && n.futures[id] == Cancelled && id !in n.settled && n.streams[id].None?
  {
    CancelGood(s, id);
    LoopKeeps(Happen(s, CancelFuture(id)), moments);
    var n := Loop(Happen(s, CancelFuture(id)), moments).0;
    assert Happen(s, CancelFuture(id)).futures[id] == Cancelled;
    assert FutureGood(n, id);
  }

  // ----- the error a slot reports -----

  function Shortened(e: string): string {
    e[..if |e| < 200 then |e| else 200]
  }

  /** What a job that ran leaves behind as an error: the backend's, that of a cancelled future, or its stream's. */
  function Complaint(s: Slot, f: nat): Option<string>
    requires f < |s.jobs| && f < |s.futures| && f < |s.streams|
  {
    match s.jobs[f].outcome
    case Raises(e) => Some(Shortened(e))
    case Returns(_) =>
      if s.futures[f] == Cancelled then Some(INVALID_STATE)
      else if s.streams[f].Some? && s.streams[f].value.error.Some? then Some(Shortened(s.streams[f].value.error.value))
      else None
  }

  /** The last complaint among the first n jobs. */
  function LastComplaint(s: Slot, n: nat): Option<string>
    requires n <= |s.jobs| && n <= |s.futures| && n <= |s.streams|
  {
    if n == 0 then None
    else if Complaint(s, n - 1).Some? then Complaint(s, n - 1)
    else LastComplaint(s, n - 1)
  }

  ghost predicate ErrorKept(s: Slot) {
    Good(s) && s.lastError == LastComplaint(s, |s.ran|)
  }

  lemma {:induction false} SameComplaints(s: Slot, t: Slot, n: nat)
    requires n <= |s.jobs| && n <= |s.futures| && n <= |s.streams|
    requires n <= |t.jobs| && n <= |t.futures| && n <= |t.streams|
    requires forall f: nat :: f < n ==> t.jobs[f] == s.jobs[f] && t.futures[f] == s.futures[f] && t.streams[f] == s.streams[f]
    ensures LastComplaint(t, n) == LastComplaint(s, n)
  {
    if n > 0 {
      SameComplaints(s, t, n - 1);
    }
  }

  lemma {:induction false} HappenAllErrors(s: Slot, events: seq<Event>)
    requires ErrorKept(s)
    ensures ErrorKept(HappenAll(s, events))
  {
    if events != [] {
      var h := HappenAll(s, events[..|events| - 1]);
      HappenAllErrors(s, events[..|events| - 1]);
      HappenGood(h, events[|events| - 1]);
      forall f: nat | f < |h.ran|
        ensures h.futures[f] != Pending
      {
        assert FutureGood(h, f);
      }
      SameComplaints(h, Happen(h, events[|events| - 1]), |h.ran|);
    }
  }

  lemma ServeErrors(s: Slot, cancelAt: Option<nat>)
    requires ErrorKept(s) && s.queue != [] && s.queue[0].Run?
    ensures s.queue[0].id < |s.jobs| && ErrorKept(Serve(Take(s), s.queue[0].id, cancelAt))
  {
    var id := s.queue[0].id;
    ServeGood(s, cancelAt);
    IdsCons(s.queue);
    assert Ids(s.queue)[0] == id == |s.ran|;
    assert FutureGood(s, id);
    var n := Serve(Take(s), id, cancelAt);
    ComplaintOf(Take(s), id, cancelAt);
    SameComplaints(s, n, id);
    assert |n.ran| == id + 1 && LastComplaint(n, id + 1) == FirstError(Complaint(n, id), LastComplaint(n, id));
  }

  lemma ComplaintOf(s: Slot, id: nat, cancelAt: Option<nat>)
    requires id < |s.jobs| == |s.futures| == |s.streams| && s.streams[id].None?
    requires s.futures[id] == Pending || s.futures[id] == Cancelled
    ensures Complaint(Serve(s, id, cancelAt), id) == ErrorOf(s.jobs[id], s.futures[id], cancelAt)
  {
    assert forall e: string :: |e| <= 200 ==> e[..|e|] == e;
  }

  lemma TurnErrors(s: Slot, moment: Moment)
    requires ErrorKept(s)
    ensures ErrorKept(Turn(s, moment).0)
  {
    HappenAllErrors(s, moment.events);
    var h := HappenAll(s, moment.events);
    if h.queue != [] {
      if h.queue[0].Stop? {
        StopGood(h);
        SameComplaints(h, Take(h), |h.ran|);
      } else {
        ServeErrors(h, moment.cancelAt);
      }
    }
  }

  /** The error a slot reports is that of the last job that left one, cut to 200 characters, and none if none did. */
  lemma {:induction false} LastErrorReported(s: Slot, moments: seq<Moment>)
    requires ErrorKept(s)
    ensures var n := Loop(s, moments).0; Good(n) && n.lastError == LastComplaint(n, |n.ran|)
    decreases |moments|
  {
    if moments != [] {
      TurnErrors(s, moments[0]);
      if !Turn(s, moments[0]).1 {
        LastErrorReported(Turn(s, moments[0]).0, moments[1..]);
      }
    }
  }

  /** What a submission meets: it is refused exactly when a bounded queue is full, and then changes nothing. */
  lemma SubmitRefusedIffFull(s: Slot, job: Job)
    requires Good(s)
    ensures Happen(s, Submit(job)) == s <==> s.depth > 0 && |s.queue| == s.depth
    ensures Good(Happen(s, Submit(job)))
  {
    HappenGood(s, Submit(job));
  }

  // ----- when a job is served -----

  /** Everything that was ever queued, in order. */
  function History(s: Slot): seq<Item> {
    s.taken + s.queue
  }

  lemma {:induction false} HappenAllHistory(s: Slot, events: seq<Event>)
    ensures History(s) <= History(HappenAll(s, events))
  {
    if events != [] {
      HappenAllHistory(s, events[..|events| - 1]);
      var h := HappenAll(s, events[..|events| - 1]);
      assert History(h) <= History(Happen(h, events[|events| - 1]));
    }
  }

  lemma TakeHistory(s: Slot)
    requires s.queue != []
    ensures History(Take(s)) == History(s)
  {
  }

  lemma {:induction false} LoopHistory(s: Slot, moments: seq<Moment>)
    requires Good(s)
    ensures History(s) <= History(Loop(s, moments).0)
    decreases |moments|
  {
    if moments != [] {
      TurnGood(s, moments[0]);
      HappenAllHistory(s, moments[0].events);
      var h := HappenAll(s, moments[0].events);
      if h.queue != [] {
        TakeHistory(h);
      }
      var (n, stopped) := Turn(s, moments[0]);
      assert History(s) <= History(n);
      if !stopped {
        LoopHistory(n, moments[1..]);
      }
    }
  }

  lemma {:induction false} IdsConcat(a: seq<Item>, b: seq<Item>)
    ensures Ids(a + b) == Ids(a) + Ids(b)
    decreases |b|
  {
    if b == [] {
      assert a + b == a;
    } else {
      assert a + b == (a + b[..|b| - 1]) + [b[|b| - 1]];
      IdsSnoc(a + b[..|b| - 1], b[|b| - 1]);
      IdsConcat(a, b[..|b| - 1]);
    }
  }

  lemma IdsGrow(a: seq<Item>, b: seq<Item>)
    requires a <= b
    ensures |Ids(a)| <= |Ids(b)|
  {
    assert b == a + b[|a|..];
    IdsConcat(a, b[|a|..]);
  }

  /** Two beginnings of one sequence: the shorter begins the longer. */
  lemma Beginnings<X>(a: seq<X>, b: seq<X>, c: seq<X>)
    requires a <= c && b <= c
    ensures if |a| <= |b| then a <= b else b <= a
  {
    assert a == c[..|a|] && b == c[..|b|];
  }

  /** The worker takes nothing beyond a stop signal. */
  lemma StopBounds(n: Slot, beginning: seq<Item>, p: nat)
    requires beginning <= History(n) && p < |beginning| && beginning[p] == Stop
    requires Stopped(n.taken) || Stop !in n.taken
    ensures |n.taken| <= p + 1
  {
    assert p < |n.taken| ==> History(n)[p] == n.taken[p];
    assert forall i :: 0 <= i < |n.taken| - 1 ==> n.taken[..|n.taken| - 1][i] == n.taken[i];
  }

  lemma NothingBeyondStop(n: Slot, ahead: seq<Item>, id: nat)
    requires Good(n) && id < |n.jobs| && ahead <= History(n) && |Ids(ahead)| == id && Stop in ahead
    requires Stopped(n.taken) || Stop !in n.taken
    ensures Untouched(n, id)
  {
    var p :| 0 <= p < |ahead| && ahead[p] == Stop;
    StopBounds(n, ahead, p);
    Beginnings(n.taken, ahead, History(n));
    IdsGrow(n.taken, ahead);
    UntouchedBeyond(n, id);
  }

  lemma AllBeforeStop(n: Slot, upTo: seq<Item>, id: nat)
    requires Good(n) && upTo <= History(n) && |Ids(upTo)| == id + 1 && Stop !in upTo && Stopped(n.taken)
    ensures Answered(n, id)
  {
    var last := |n.taken| - 1;
    assert History(n)[last] == Stop;
    assert forall i :: 0 <= i < |upTo| ==> upTo[i] == History(n)[i];
    Beginnings(upTo, n.taken, History(n));
    IdsGrow(upTo, n.taken);
    AnsweredBelow(n, id);
  }

  /**
   * A submitted job is never run if the stop signal was queued before it, whatever happens later; if it was not, the job
   * has run and is answered by the time the worker returns.
   */
  lemma ServedIffAhead(s: Slot, job: Job, moments: seq<Moment>)
    requires Good(s) && Stop !in s.taken && !Full(s)
    ensures Good(Happen(s, Submit(job)))
    ensures var (n, stopped) := Loop(Happen(s, Submit(job)), moments);
            && (Stop in s.queue ==> Untouched(n, |s.jobs|))
            && (Stop !in s.queue && stopped ==> Answered(n, |s.jobs|))
  {
    var s1, id := Happen(s, Submit(job)), |s.jobs|;
    SubmitGood(s, job);
    LoopKeeps(s1, moments);
    LoopHistory(s1, moments);
    var (n, stopped) := Loop(s1, moments);
    SubmitHistory(s, job);
    if Stop in s.queue {
      NothingBeyondStop(n, History(s), id);
    } else if stopped {
      AllBeforeStop(n, History(s1), id);
    }
  }

  lemma SubmitHistory(s: Slot, job: Job)
    requires Good(s) && !Full(s)
    ensures var s1 := Happen(s, Submit(job));
            && History(s1) == History(s) + [Run(|s.jobs|)] && |Ids(History(s))| == |s.jobs|
            && |Ids(History(s1))| == |s.jobs| + 1 && |s1.jobs| == |s.jobs| + 1
  {
    IdsConcat(s.taken, s.queue);
    IdsSnoc(History(s), Run(|s.jobs|));
    assert History(Happen(s, Submit(job))) == History(s) + [Run(|s.jobs|)];
  }

  lemma UntouchedBeyond(n: Slot, f: nat)
    requires Good(n) && |n.ran| <= f < |n.jobs|
    ensures Untouched(n, f)
  {
    assert FutureGood(n, f);
  }

  lemma AnsweredBelow(n: Slot, f: nat)
    requires Good(n) && f < |n.ran|
    ensures Answered(n, f)
  {
    assert FutureGood(n, f) && n.ran[f] == f;
  }

  // ----- the code -----

  class ModelSlot {
    const depth: nat
    var jobs: seq<Job>
    var futures: seq<Future>
    var streams: seq<Option<Stream>>
    var queue: seq<Item>
    var lastError: Option<string>
    ghost var taken: seq<Item>
    ghost var ran: seq<nat>
    ghost var settled: seq<nat>

    ghost function View(): Slot
      reads this
    {
      Slot(depth, jobs, futures, streams, queue, taken, ran, settled, lastError)
    }

    constructor (depth: nat)
      ensures View() == Fresh(depth) && ErrorKept(View())
    {
      this.depth, jobs, futures, streams, queue, lastError := depth, [], [], [], [], None;
      taken, ran, settled := [], [], [];
    }

    /** Queue a job, or refuse it with QUEUE_FULL before anything is created. */
    method Submit(job: Job) returns (future: Option<nat>)
      requires Good(View())
      modifies this
      ensures View() == Happen(old(View()), Event.Submit(job)) && Good(View())
      ensures future == if Full(old(View())) then None else Some(|old(jobs)|)
    {
      HappenGood(View(), Event.Submit(job));
      if depth > 0 && |queue| >= depth {
        return None;
      }
      future := Some(|jobs|);
      jobs, futures, streams, queue := jobs + [job], futures + [Pending], streams + [None], queue + [Run(|jobs|)];
    }

    method Environment(events: seq<Event>)
      requires Good(View())
      modifies this
      ensures View() == HappenAll(old(View()), events) && Good(View())
    {
      ghost var before := View();
      for i := 0 to |events|
        invariant View() == HappenAll(before, events[..i]) && Good(View())
      {
        HappenGood(View(), events[i]);
        assert events[..i + 1][..i] == events[..i];
        match events[i]
        case Submit(job) =>
          var _ := Submit(job);
        case CancelFuture(id) =>
          if id < |futures| && futures[id] == Pending {
            futures := futures[id := Cancelled];
          }
        case SendStop =>
          if !(depth > 0 && |queue| >= depth) {
            queue := queue + [Stop];
          }
      }
      assert events[..|events|] == events;
    }

    /** `set_result`: refused once the future is no longer pending. */
    method SetResult(id: nat, answer: Answer) returns (ok: bool)
      requires id < |futures|
      modifies this`futures, this`settled
      ensures ok <==> old(futures[id]) == Pending
      ensures futures == if ok then old(futures)[id := Done(answer)] else old(futures)
      ensures settled == if ok then old(settled) + [id] else old(settled)
    {
      ok := futures[id] == Pending;
      if ok {
        futures, settled := futures[id := Done(answer)], settled + [id];
      }
    }

    /** Drain a generator onto a stream handle until it ends, raises or the cancel event is seen. */
    method Pump(g: Generator, cancelAt: Option<nat>) returns (stream: Stream)
      ensures stream == Pumped(g, cancelAt)
    {
      var items, error, i := [], None, 0;
      while !(cancelAt.Some? && cancelAt.value <= i)
        invariant i <= |g.chunks| && (cancelAt.Some? ==> i <= cancelAt.value)
        invariant items == Wrap(g.chunks[..i]) && error.None?
        decreases |g.chunks| - i
      {
        if i == |g.chunks| {
          error := g.error;
          break;
        }
        items := items + [Chunk(g.chunks[i])];
        i := i + 1;
      }
      stream := Stream(items + [EndOfStream], error);
      assert g.chunks[..|g.chunks|] == g.chunks;
    }

    /** One job: call the backend, settle the future, pump the stream; every exception ends in `lastError`. */
    method ServeJob(id: nat, cancelAt: Option<nat>)
      requires id < |jobs| == |futures| == |streams|
      modifies this
      ensures View() == Serve(old(View()), id, cancelAt)
    {
      var job := jobs[id];
      ran := ran + [id];
      if job.outcome.Raises? {
        lastError := Some(Clip(job.outcome.error));
        if futures[id] == Pending {
          futures, settled := futures[id := Failed(job.outcome.error)], settled + [id];
        }
        return;
      }
      if job.kind == Embed || !job.stream {
        var ok := SetResult(id, Value(job.outcome.value));
        if !ok {
          lastError := Some(INVALID_STATE);
        }
        return;
      }
      var ok := SetResult(id, Handle);
      if !ok {
        lastError := Some(INVALID_STATE);
        return;
      }
      var stream := Pump(job.generator, cancelAt);
      streams := streams[id := Some(stream)];
      if stream.error.Some? {
        lastError := Some(Clip(stream.error.value));
      }
    }

    /** Wait, take the next item if there is one, and serve it or stop. */
    method Pass(moment: Moment) returns (stopped: bool)
      requires Good(View())
      modifies this
      ensures (View(), stopped) == Turn(old(View()), moment)
    {
      Environment(moment.events);
      if queue == [] {
        return false;
      }
      var item := queue[0];
      if item.Stop? {
        queue, taken := queue[1..], taken + [item];
        return true;
      }
      ServeGood(View(), moment.cancelAt);
      queue, taken := queue[1..], taken + [item];
      ServeJob(item.id, moment.cancelAt);
      return false;
    }

    method WorkerLoop(moments: seq<Moment>) returns (stopped: bool)
      requires Good(View())
      modifies this
      ensures (View(), stopped) == Loop(old(View()), moments)
      ensures Good(View()) && forall f :: f in View().ran ==> Reported(View(), f)
    {
      ghost var before := View();
      RanReported(before);
      for i := 0 to |moments|
        invariant Good(View()) && forall f :: f in View().ran ==> Reported(View(), f)
        invariant Loop(before, moments) == Loop(View(), moments[i..])
      {
        assert moments[i..][0] == moments[i] && moments[i..][1..] == moments[i + 1..];
        TurnGood(View(), moments[i]);
        stopped := Pass(moments[i]);
        RanReported(View());
        if stopped {
          return;
        }
      }
      return false;
    }
  }
}
