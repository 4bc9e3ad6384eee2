/** The token bucket, over exact reals: one for every key, and what the middleware uses as the key. */
module RateLimit {
  import opened Bytes

  datatype Bucket = Bucket(tokens: real, last: real)

  datatype Limits = Limits(rate: real, capacity: real)

  function LimitsFor(rpm: int): (l: Limits)
    ensures Sane(l)
  {
    Limits((if rpm < 1 then 1 else rpm) as real / 60.0, if rpm as real / 2.0 < 10.0 then 10.0 else rpm as real / 2.0)
  }

  predicate Sane(l: Limits) {
    l.rate > 0.0 && l.capacity >= 10.0
  }

  /** `t * rate`. */
  function Scale(t: real, rate: real): real {
    t * rate
  }

  function Refill(l: Limits, b: Bucket, now: real): real {
    AtMost(l.capacity, b.tokens + Scale(now - b.last, l.rate))
  }

  function AtMost(capacity: real, tokens: real): real {
    if tokens < capacity then tokens else capacity
  }

  /** One request against the bucket of its key, created full on the first one. */
  function Decide(l: Limits, b: Option<Bucket>, now: real): (bool, Bucket) {
    var tokens := Refill(l, b.GetOr(Bucket(l.capacity, now)), now);
    if tokens < 1.0 then (false, Bucket(tokens, now)) else (true, Bucket(tokens - 1.0, now))
  }

  function AllowKey(l: Limits, buckets: map<string, Bucket>, key: string, now: real): (bool, map<string, Bucket>) {
    var (allowed, b) := Decide(l, Get(buckets, key), now);
    (allowed, buckets[key := b])
  }

  function Get(buckets: map<string, Bucket>, key: string): Option<Bucket> {
    if key in buckets then Some(buckets[key]) else None
  }

  class RateLimiter {
    const limits: Limits
    var buckets: map<string, Bucket>

    constructor (rpmPerClient: int)
      ensures Valid() && limits == LimitsFor(rpmPerClient) && buckets == map[]
    {
      limits := LimitsFor(rpmPerClient);
      buckets := map[];
    }

    ghost predicate Valid()
    {
      Sane(limits)
    }

    method Allow(key: string, now: real) returns (allowed: bool)
      requires Valid()
      modifies this
      ensures (allowed, buckets) == AllowKey(limits, old(buckets), key, now)
    {
      if key !in buckets {
        buckets := buckets[key := Bucket(limits.capacity, now)];
      }
      var b := buckets[key];
      var elapsed := now - b.last;
      b := b.(tokens := AtMost(limits.capacity, b.tokens + Scale(elapsed, limits.rate)));
      b := b.(last := now);
      assert buckets[key := b] == old(buckets)[key := b];
      if b.tokens < 1.0 {
        buckets := buckets[key := b];
        return false;
      }
      buckets := buckets[key := b.(tokens := b.tokens - 1.0)];
      assert buckets == old(buckets)[key := b.(tokens := b.tokens - 1.0)];
      return true;
    }
  }

  // ----- traces of one key -----

  predicate Ordered(times: seq<real>) {
    forall i, j :: 0 <= i <= j < |times| ==> times[i] <= times[j]
  }

  /** The decisions of a trace, from a bucket that may not exist yet. */
  function Run(l: Limits, b: Option<Bucket>, times: seq<real>): (ds: seq<bool>)
    ensures |ds| == |times|
    decreases |times|
  {
    if times == [] then [] else
      var (allowed, b') := Decide(l, b, times[0]);
      [allowed] + Run(l, Some(b'), times[1..])
  }

  function Count(ds: seq<bool>): nat {
    if ds == [] then 0 else (if ds[0] then 1 else 0) + Count(ds[1..])
  }

  // ----- the same bucket with time measured in tokens -----

  function Level(capacity: real, b: Option<Bucket>, now: real): real {
    if b.None? || b.value.tokens + (now - b.value.last) >= capacity then capacity
    else b.value.tokens + (now - b.value.last)
  }

  function Next(capacity: real, b: Option<Bucket>, now: real): Bucket {
    var tokens := Level(capacity, b, now);
    Bucket(if tokens < 1.0 then tokens else tokens - 1.0, now)
  }

  function Decisions(capacity: real, b: Option<Bucket>, times: seq<real>): (ds: seq<bool>)
    ensures |ds| == |times|
    decreases |times|
  {
    if times == [] then [] else
      [Level(capacity, b, times[0]) >= 1.0] + Decisions(capacity, Some(Next(capacity, b, times[0])), times[1..])
  }

  function After(capacity: real, b: Option<Bucket>, times: seq<real>): Option<Bucket>
    decreases |times|
  {
    if times == [] then b else After(capacity, Some(Next(capacity, b, times[0])), times[1..])
  }

  function InTokens(l: Limits, times: seq<real>): (scaled: seq<real>)
    ensures |scaled| == |times|
    ensures forall i :: 0 <= i < |times| ==> scaled[i] == Scale(times[i], l.rate)
  {
    if times == [] then [] else [Scale(times[0], l.rate)] + InTokens(l, times[1..])
  }

  function BucketInTokens(l: Limits, b: Option<Bucket>): Option<Bucket> {
    if b.None? then None else Some(Bucket(b.value.tokens, Scale(b.value.last, l.rate)))
  }

  lemma {:induction false} RunInTokens(l: Limits, b: Option<Bucket>, times: seq<real>)
    requires Sane(l)
    ensures Run(l, b, times) == Decisions(l.capacity, BucketInTokens(l, b), InTokens(l, times))
    decreases |times|
  {
    if times != [] {
      var b' := Decide(l, b, times[0]).1;
      DecideInTokens(l, b, times[0]);
      RunInTokens(l, Some(b'), times[1..]);
    }
  }

  lemma DecideInTokens(l: Limits, b: Option<Bucket>, now: real)
    requires Sane(l)
    ensures Decide(l, b, now).0 <==> Level(l.capacity, BucketInTokens(l, b), Scale(now, l.rate)) >= 1.0
    ensures BucketInTokens(l, Some(Decide(l, b, now).1)) == Some(Next(l.capacity, BucketInTokens(l, b), Scale(now, l.rate)))
  {
    var was := b.GetOr(Bucket(l.capacity, now));
    ScaleDifference(now, was.last, l.rate);
    assert Refill(l, was, now) == Level(l.capacity, BucketInTokens(l, b), Scale(now, l.rate));
  }

  lemma ScaleDifference(x: real, y: real, rate: real)
    ensures Scale(x, rate) - Scale(y, rate) == Scale(x - y, rate)
  {
  }

  lemma ScaleMonotone(x: real, y: real, rate: real)
    requires rate > 0.0 && y <= x
    ensures Scale(y, rate) <= Scale(x, rate)
  {
    assert (x - y) * rate >= 0.0;
  }

  lemma ScaleSpaced(x: real, y: real, rate: real)
    requires rate > 0.0 && x - y >= 1.0 / rate
    ensures Scale(x, rate) - Scale(y, rate) >= 1.0
  {
    var gap := 1.0 / rate;
    assert gap * rate == 1.0;
    ScaleMonotone(x - y, gap, rate);
    ScaleDifference(x, y, rate);
  }

  lemma OrderedInTokens(l: Limits, times: seq<real>)
    requires Sane(l) && Ordered(times)
    ensures Ordered(InTokens(l, times))
  {
    forall i, j | 0 <= i <= j < |times|
      ensures InTokens(l, times)[i] <= InTokens(l, times)[j]
    {
      ScaleMonotone(times[j], times[i], l.rate);
    }
  }

  predicate Before(capacity: real, b: Option<Bucket>, times: seq<real>) {
    b.Some? ==> 0.0 <= b.value.tokens <= capacity && (times != [] ==> b.value.last <= times[0])
  }

  lemma {:induction false} Split(capacity: real, b: Option<Bucket>, times: seq<real>, k: nat)
    requires k <= |times|
    ensures Decisions(capacity, b, times)[k..] == Decisions(capacity, After(capacity, b, times[..k]), times[k..])
    ensures Decisions(capacity, b, times)[..k] == Decisions(capacity, b, times[..k])
    decreases k
  {
    if k > 0 {
      var b' := Some(Next(capacity, b, times[0]));
      assert times[..k][1..] == times[1..][..k - 1];
      assert times[k..] == times[1..][k - 1..];
      Split(capacity, b', times[1..], k - 1);
      assert Decisions(capacity, b, times)[k..] == Decisions(capacity, b', times[1..])[k - 1..];
      assert Decisions(capacity, b, times)[..k]
             == [Decisions(capacity, b, times)[0]] + Decisions(capacity, b', times[1..])[..k - 1];
    } else {
      assert times[..0] == [] && times[0..] == times;
    }
  }

  lemma {:induction false} AfterKeeps(capacity: real, b: Option<Bucket>, times: seq<real>, k: nat)
    requires capacity >= 1.0 && Ordered(times) && Before(capacity, b, times) && k <= |times|
    ensures Before(capacity, After(capacity, b, times[..k]), times[k..])
    ensures k > 0 ==> After(capacity, b, times[..k]).Some? && After(capacity, b, times[..k]).value.last == times[k - 1]
    decreases k
  {
    if k > 0 {
      assert times[..k][1..] == times[1..][..k - 1];
      assert times[k..] == times[1..][k - 1..];
      AfterKeeps(capacity, Some(Next(capacity, b, times[0])), times[1..], k - 1);
    } else {
      assert times[..0] == [] && times[0..] == times;
    }
  }

  /** What is let through never exceeds the first level plus what flows in afterwards. */
  lemma {:induction false} Conservation(capacity: real, b: Option<Bucket>, times: seq<real>)
    requires capacity >= 1.0 && Ordered(times) && times != [] && Before(capacity, b, times)
    ensures Count(Decisions(capacity, b, times)) as real
            <= Level(capacity, b, times[0]) + (times[|times| - 1] - times[0])
    decreases |times|
  {
    var b', rest := Some(Next(capacity, b, times[0])), times[1..];
    assert Decisions(capacity, b, times)[1..] == Decisions(capacity, b', rest);
    if rest != [] {
      Conservation(capacity, b', rest);
    } else {
      assert Count(Decisions(capacity, b', rest)) == 0;
    }
  }

  /** In any stretch of any trace, at most capacity plus rate times its length is allowed. */
  lemma RateBound(l: Limits, times: seq<real>, i: nat, j: nat)
    requires Sane(l) && Ordered(times) && i < j <= |times|
    ensures Count(Run(l, None, times)[i..j]) as real <= l.capacity + Scale(times[j - 1] - times[i], l.rate)
  {
    StretchInTokens(l, times, i, j);
    ScaleDifference(times[j - 1], times[i], l.rate);
  }

  lemma StretchInTokens(l: Limits, times: seq<real>, i: nat, j: nat)
    requires Sane(l) && Ordered(times) && i < j <= |times|
    ensures Count(Run(l, None, times)[i..j]) as real <= l.capacity + (Scale(times[j - 1], l.rate) - Scale(times[i], l.rate))
  {
    RunInTokens(l, None, times);
    OrderedInTokens(l, times);
    StretchBound(l.capacity, InTokens(l, times), i, j);
  }

  lemma StretchBound(capacity: real, times: seq<real>, i: nat, j: nat)
    requires capacity >= 1.0 && Ordered(times) && i < j <= |times|
    ensures Count(Decisions(capacity, None, times)[i..j]) as real <= capacity + (times[j - 1] - times[i])
  {
    var upTo := times[..j];
    Split(capacity, None, times, j);
    Split(capacity, None, upTo, i);
    AfterKeeps(capacity, None, upTo, i);
    assert Decisions(capacity, None, times)[i..j] == Decisions(capacity, None, upTo)[i..];
    Conservation(capacity, After(capacity, None, upTo[..i]), upTo[i..]);
  }

  /** A request at least 1/rate after the one before it is never refused, whatever happened to that one. */
  lemma SpacedAllowed(l: Limits, times: seq<real>, i: nat)
    requires Sane(l) && Ordered(times) && i < |times|
    requires i > 0 ==> times[i] - times[i - 1] >= 1.0 / l.rate
    ensures Run(l, None, times)[i]
  {
    var scaled := InTokens(l, times);
    RunInTokens(l, None, times);
    OrderedInTokens(l, times);
    Split(l.capacity, None, scaled, i);
    AfterKeeps(l.capacity, None, scaled, i);
    assert Decisions(l.capacity, None, scaled)[i] == Decisions(l.capacity, None, scaled)[i..][0];
    if i > 0 {
      ScaleSpaced(times[i], times[i - 1], l.rate);
    }
  }

  // ----- exactly which requests are refused -----

  lemma {:induction false} CountSnoc(ds: seq<bool>, d: bool)
    ensures Count(ds + [d]) == Count(ds) + if d then 1 else 0
  {
    if ds == [] {
      assert ds + [d] == [d] && [d][1..] == [];
    } else {
      assert (ds + [d])[1..] == ds[1..] + [d];
      CountSnoc(ds[1..], d);
    }
  }

  lemma {:induction false} AfterSnoc(capacity: real, b: Option<Bucket>, times: seq<real>, t: real)
    ensures After(capacity, b, times + [t]) == Some(Next(capacity, After(capacity, b, times), t))
    decreases |times|
  {
    if times == [] {
      assert times + [t] == [t] && [t][1..] == [];
    } else {
      assert (times + [t])[1..] == times[1..] + [t];
      AfterSnoc(capacity, Some(Next(capacity, b, times[0])), times[1..], t);
    }
  }

  /** The level that the i-th request meets. */
  function LevelAt(capacity: real, times: seq<real>, i: nat): real
    requires i < |times|
  {
    Level(capacity, After(capacity, None, times[..i]), times[i])
  }

  lemma DecisionAt(capacity: real, times: seq<real>, i: nat)
    requires i < |times|
    ensures Decisions(capacity, None, times)[i] <==> LevelAt(capacity, times, i) >= 1.0
  {
    Split(capacity, None, times, i);
    assert Decisions(capacity, None, times)[i] == Decisions(capacity, None, times)[i..][0];
  }

  /** What a stretch up to the i-th request leaves of the capacity and of what flowed in since it began. */
  function Room(capacity: real, times: seq<real>, k: nat, i: nat): real
    requires k <= i < |times|
  {
    capacity + (times[i] - times[k]) - Count(Decisions(capacity, None, times)[k..i]) as real
  }

  lemma RoomStep(capacity: real, times: seq<real>, k: nat, i: nat)
    requires k <= i && i + 1 < |times|
    ensures Room(capacity, times, k, i + 1)
            == Room(capacity, times, k, i) + (times[i + 1] - times[i])
               - if LevelAt(capacity, times, i) >= 1.0 then 1.0 else 0.0
  {
    var ds := Decisions(capacity, None, times);
    DecisionAt(capacity, times, i);
    assert ds[k..i + 1] == ds[k..i] + [ds[i]];
    CountSnoc(ds[k..i], ds[i]);
  }

  lemma LevelStep(capacity: real, times: seq<real>, i: nat)
    requires i + 1 < |times|
    ensures var level := LevelAt(capacity, times, i);
            LevelAt(capacity, times, i + 1)
            == AtMost(capacity, (if level >= 1.0 then level - 1.0 else level) + (times[i + 1] - times[i]))
  {
    assert times[..i + 1] == times[..i] + [times[i]];
    AfterSnoc(capacity, None, times[..i], times[i]);
  }

  /** The level is the least room that any stretch leaves. */
  lemma {:induction false} LevelIsLeastRoom(capacity: real, times: seq<real>, i: nat) returns (k: nat)
    requires i < |times|
    ensures k <= i && LevelAt(capacity, times, i) == Room(capacity, times, k, i)
    ensures forall j: nat :: j <= i ==> LevelAt(capacity, times, i) <= Room(capacity, times, j, i)
  {
    if i == 0 {
      k := 0;
      assert times[..0] == [];
    } else {
      k := LevelIsLeastRoom(capacity, times, i - 1);
      LevelStep(capacity, times, i - 1);
      RoomStep(capacity, times, k, i - 1);
      forall j: nat | j < i
        ensures LevelAt(capacity, times, i) <= Room(capacity, times, j, i)
      {
        RoomStep(capacity, times, j, i - 1);
      }
      if LevelAt(capacity, times, i) == capacity {
        k := i;
      }
    }
  }

  /** Together with the i-th request, the stretch from the k-th would hold more than capacity and rate allow. */
  predicate Overfull(l: Limits, times: seq<real>, k: nat, i: nat)
    requires k <= i < |times|
  {
    Count(Run(l, None, times)[k..i]) as real + 1.0 > l.capacity + Scale(times[i] - times[k], l.rate)
  }

  lemma OverfullInTokens(l: Limits, times: seq<real>, k: nat, i: nat)
    requires Sane(l) && k <= i < |times|
    ensures Overfull(l, times, k, i) <==> Room(l.capacity, InTokens(l, times), k, i) < 1.0
  {
    RunInTokens(l, None, times);
    ScaleDifference(times[i], times[k], l.rate);
  }

  /** A request is refused exactly if with it some stretch would exceed the bound: the limiter lets through all it may. */
  lemma RefusedIff(l: Limits, times: seq<real>, i: nat)
    requires Sane(l) && i < |times|
    ensures !Run(l, None, times)[i] <==> exists k: nat :: k <= i && Overfull(l, times, k, i)
  {
    var scaled := InTokens(l, times);
    RunInTokens(l, None, times);
    DecisionAt(l.capacity, scaled, i);
    var k := LevelIsLeastRoom(l.capacity, scaled, i);
    OverfullInTokens(l, times, k, i);
    forall j: nat | j <= i && Overfull(l, times, j, i)
      ensures LevelAt(l.capacity, scaled, i) < 1.0
    {
      OverfullInTokens(l, times, j, i);
    }
  }

  // ----- erasing refused requests -----

  function Kept<X>(xs: seq<X>, keep: seq<bool>): seq<X>
    requires |xs| == |keep|
  {
    if xs == [] then [] else (if keep[0] then [xs[0]] else []) + Kept(xs[1..], keep[1..])
  }

  /** Two buckets at the same level at every later time. */
  ghost predicate Same(capacity: real, b: Option<Bucket>, c: Option<Bucket>, now: real) {
    forall t :: t >= now ==> Level(capacity, b, t) == Level(capacity, c, t)
  }

  lemma {:induction false} SameDecisions(capacity: real, b: Option<Bucket>, c: Option<Bucket>, times: seq<real>, keep: seq<bool>)
    requires capacity >= 1.0 && Ordered(times) && |keep| == |times| && Before(capacity, b, times)
    requires times != [] ==> Same(capacity, b, c, times[0])
    requires forall i :: 0 <= i < |times| && Decisions(capacity, b, times)[i] ==> keep[i]
    ensures Decisions(capacity, c, Kept(times, keep)) == Kept(Decisions(capacity, b, times), keep)
    decreases |times|
  {
    if times != [] {
      var b' := Some(Next(capacity, b, times[0]));
      var ds := Decisions(capacity, b, times);
      assert ds[1..] == Decisions(capacity, b', times[1..]);
      assert forall i :: 0 <= i < |times| - 1 ==> ds[1..][i] == ds[i + 1];
      var rest := Kept(times[1..], keep[1..]);
      if keep[0] {
        assert Next(capacity, c, times[0]) == b'.value;
        SameDecisions(capacity, b', b', times[1..], keep[1..]);
        assert Kept(times, keep) == [times[0]] + rest;
        assert ([times[0]] + rest)[1..] == rest;
      } else {
        SameDecisions(capacity, b', c, times[1..], keep[1..]);
        assert Kept(times, keep) == rest;
      }
    }
  }

  lemma {:induction false} KeptInTokens(l: Limits, times: seq<real>, keep: seq<bool>)
    requires |keep| == |times|
    ensures InTokens(l, Kept(times, keep)) == Kept(InTokens(l, times), keep)
  {
    if times != [] {
      KeptInTokens(l, times[1..], keep[1..]);
      var rest := Kept(times[1..], keep[1..]);
      if keep[0] {
        assert Kept(times, keep) == [times[0]] + rest;
        assert ([times[0]] + rest)[1..] == rest;
      } else {
        assert Kept(times, keep) == rest;
      }
    }
  }

  /** Deleting any refused requests from a trace changes no other decision. */
  lemma ErasingRefused(l: Limits, times: seq<real>, keep: seq<bool>)
    requires Sane(l) && Ordered(times) && |keep| == |times|
    requires forall i :: 0 <= i < |times| && Run(l, None, times)[i] ==> keep[i]
    ensures Run(l, None, Kept(times, keep)) == Kept(Run(l, None, times), keep)
  {
    RunInTokens(l, None, times);
    RunInTokens(l, None, Kept(times, keep));
    OrderedInTokens(l, times);
    KeptInTokens(l, times, keep);
    SameDecisions(l.capacity, None, None, InTokens(l, times), keep);
  }

  // ----- in requests per minute -----

  function PerMinute(rpm: int): real {
    if rpm <= 1 then 1.0 else rpm as real
  }

  function Burst(rpm: int): real {
    if rpm <= 20 then 10.0 else rpm as real * 0.5
  }

  lemma ScaleSixty(t: real, n: real)
    ensures 60.0 * Scale(t, n / 60.0) == Scale(t, n)
  {
  }

  lemma LimitsInMinutes(rpm: int)
    ensures 60.0 * LimitsFor(rpm).rate == PerMinute(rpm) && LimitsFor(rpm).capacity == Burst(rpm)
    ensures LimitsFor(rpm).rate == PerMinute(rpm) / 60.0
  {
  }

  /** No more than the burst, and `rpm` for each minute of this length. */
  predicate WithinPace(count: real, rpm: int, length: real) {
    60.0 * (count - Burst(rpm)) <= Scale(length, PerMinute(rpm))
  }

  /** A limit of `rpm` lets no more than its burst and `rpm` a minute through in any stretch. */
  lemma MinuteBound(rpm: int, times: seq<real>, i: nat, j: nat)
    requires Ordered(times) && i < j <= |times|
    ensures WithinPace(Count(Run(LimitsFor(rpm), None, times)[i..j]) as real, rpm, times[j - 1] - times[i])
  {
    RateBound(LimitsFor(rpm), times, i, j);
    InMinutes(Count(Run(LimitsFor(rpm), None, times)[i..j]) as real, rpm, times[j - 1] - times[i]);
  }

  lemma InMinutes(count: real, rpm: int, length: real)
    requires count <= LimitsFor(rpm).capacity + Scale(length, LimitsFor(rpm).rate)
    ensures WithinPace(count, rpm, length)
  {
    LimitsInMinutes(rpm);
    ScaleSixty(length, PerMinute(rpm));
  }

  /** And it refuses nobody who comes at that pace. */
  lemma PaceAllowed(rpm: int, times: seq<real>, i: nat)
    requires Ordered(times) && i < |times|
    requires i > 0 ==> (times[i] - times[i - 1]) * PerMinute(rpm) >= 60.0
    ensures Run(LimitsFor(rpm), None, times)[i]
  {
    LimitsInMinutes(rpm);
    if i > 0 {
      PaceSpaced(times[i] - times[i - 1], PerMinute(rpm));
    }
    SpacedAllowed(LimitsFor(rpm), times, i);
  }

  lemma PaceSpaced(d: real, n: real)
    requires n >= 1.0 && d * n >= 60.0
    ensures d >= 1.0 / (n / 60.0)
  {
    assert 1.0 / (n / 60.0) == 60.0 / n;
    assert (60.0 / n) * n == 60.0;
    if d < 60.0 / n {
      assert d * n < (60.0 / n) * n;
    }
  }

  // ----- many keys -----

  datatype Arrival = Arrival(key: string, time: real)

  function RunAll(l: Limits, buckets: map<string, Bucket>, arrivals: seq<Arrival>): (ds: seq<bool>)
    ensures |ds| == |arrivals|
    decreases |arrivals|
  {
    if arrivals == [] then [] else
      var (allowed, buckets') := AllowKey(l, buckets, arrivals[0].key, arrivals[0].time);
      [allowed] + RunAll(l, buckets', arrivals[1..])
  }

  function OfKey(arrivals: seq<Arrival>, key: string): (mask: seq<bool>)
    ensures |mask| == |arrivals|
  {
    if arrivals == [] then [] else [arrivals[0].key == key] + OfKey(arrivals[1..], key)
  }

  function Times(arrivals: seq<Arrival>): (ts: seq<real>)
    ensures |ts| == |arrivals|
  {
    if arrivals == [] then [] else [arrivals[0].time] + Times(arrivals[1..])
  }

  /** The decisions of one key are those of its own requests alone. */
  lemma {:induction false} KeysIndependent(l: Limits, buckets: map<string, Bucket>, arrivals: seq<Arrival>, key: string)
    ensures Kept(RunAll(l, buckets, arrivals), OfKey(arrivals, key))
            == Run(l, Get(buckets, key), Kept(Times(arrivals), OfKey(arrivals, key)))
    decreases |arrivals|
  {
    if arrivals != [] {
      var a := arrivals[0];
      var buckets' := AllowKey(l, buckets, a.key, a.time).1;
      KeysIndependent(l, buckets', arrivals[1..], key);
      var rest := Kept(Times(arrivals[1..]), OfKey(arrivals[1..], key));
      if a.key == key {
        assert Kept(Times(arrivals), OfKey(arrivals, key)) == [a.time] + rest;
        assert ([a.time] + rest)[1..] == rest;
      } else {
        assert Kept(Times(arrivals), OfKey(arrivals, key)) == rest;
      }
    }
  }

  // ----- the key -----

  /** What the middleware finds in the request's state; the fields are set by the handler, which has not run yet. */
  datatype RequestState = RequestState(tenant: Option<string>, fingerprint: Option<string>)

  const BEFORE_HANDLER := RequestState(None, None)

  function KeyOf(state: RequestState): string {
    state.tenant.GetOr("default") + [':']
    + (if state.fingerprint.Some? && state.fingerprint.value != "" then state.fingerprint.value else "anon")
  }

  /** The key itself would tell tenants and clients apart, for tenants without a colon. */
  lemma KeySeparates(a: RequestState, b: RequestState)
    requires a.tenant.Some? && b.tenant.Some? && ':' !in a.tenant.value && ':' !in b.tenant.value
    requires a.fingerprint.Some? && b.fingerprint.Some? && a.fingerprint.value != "" && b.fingerprint.value != ""
    ensures KeyOf(a) == KeyOf(b) <==> a == b
  {
    if KeyOf(a) == KeyOf(b) {
      FirstSplit(':', a.tenant.value, a.fingerprint.value, b.tenant.value, b.fingerprint.value);
    }
  }

  /** A request as its client sends it. */
  datatype Sender = Sender(tenant: string, fingerprint: string, time: real)

  /** The requests as the middleware sees them. */
  function Seen(senders: seq<Sender>): (arrivals: seq<Arrival>)
    ensures |arrivals| == |senders|
  {
    if senders == [] then [] else [Arrival(KeyOf(BEFORE_HANDLER), senders[0].time)] + Seen(senders[1..])
  }

  function SendTimes(senders: seq<Sender>): (ts: seq<real>)
    ensures |ts| == |senders|
  {
    if senders == [] then [] else [senders[0].time] + SendTimes(senders[1..])
  }

  lemma {:induction false} KeptAll<X>(xs: seq<X>, keep: seq<bool>)
    requires |xs| == |keep| && forall i :: 0 <= i < |keep| ==> keep[i]
    ensures Kept(xs, keep) == xs
  {
    if xs != [] {
      KeptAll(xs[1..], keep[1..]);
    }
  }

  lemma {:induction false} SeenKeys(senders: seq<Sender>)
    ensures forall i :: 0 <= i < |senders| ==> OfKey(Seen(senders), KeyOf(BEFORE_HANDLER))[i]
    ensures Times(Seen(senders)) == SendTimes(senders)
  {
    if senders != [] {
      SeenKeys(senders[1..]);
    }
  }

  /** All clients of all tenants share one bucket: the decisions depend on nothing but the times. */
  lemma OneBucket(l: Limits, senders: seq<Sender>)
    ensures RunAll(l, map[], Seen(senders)) == Run(l, None, SendTimes(senders))
  {
    var mask := OfKey(Seen(senders), KeyOf(BEFORE_HANDLER));
    KeysIndependent(l, map[], Seen(senders), KeyOf(BEFORE_HANDLER));
    SeenKeys(senders);
    KeptAll(RunAll(l, map[], Seen(senders)), mask);
    KeptAll(SendTimes(senders), mask);
  }

  predicate Together(times: seq<real>) {
    forall i :: 0 <= i < |times| ==> times[i] == times[0]
  }

  lemma {:induction false} BurstLevels(capacity: real, b: Option<Bucket>, times: seq<real>, used: nat, k: nat)
    requires capacity >= 1.0 && Together(times) && k < |times|
    requires Level(capacity, b, times[0]) == capacity - used as real || (Level(capacity, b, times[0]) < 1.0 && capacity - used as real < 1.0)
    requires b.Some? ==> b.value.last == times[0] && b.value.tokens <= capacity
    ensures Decisions(capacity, b, times)[k] <==> capacity - (used + k) as real >= 1.0
    decreases k
  {
    if k > 0 {
      var b' := Next(capacity, b, times[0]);
      assert times[1..][0] == times[1] == times[0];
      assert forall i :: 0 <= i < |times| - 1 ==> times[1..][i] == times[i + 1];
      BurstLevels(capacity, Some(b'), times[1..], used + 1, k - 1);
    }
  }

  lemma TogetherInTokens(l: Limits, times: seq<real>)
    requires Together(times)
    ensures Together(InTokens(l, times))
  {
  }

  /** Of requests that come together, whoever sends them, as many as the capacity are allowed and the rest refused. */
  lemma BurstExactly(l: Limits, senders: seq<Sender>, k: nat)
    requires Sane(l) && Together(SendTimes(senders)) && k < |senders|
    ensures RunAll(l, map[], Seen(senders))[k] <==> (k + 1) as real <= l.capacity
  {
    var times := SendTimes(senders);
    OneBucket(l, senders);
    RunInTokens(l, None, times);
    TogetherInTokens(l, times);
    BurstLevels(l.capacity, None, InTokens(l, times), 0, k);
  }
}
