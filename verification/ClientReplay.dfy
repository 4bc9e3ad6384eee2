/** The client's replay check: a set of counters that is trimmed to its largest members. */
module ClientReplay {

  const SEEN_LIMIT: nat := 4096
  const SEEN_KEEP: nat := 2048

  lemma Member<T>(s: set<T>) returns (x: T)
    requires s != {}
    ensures x in s
  {
    x :| x in s;
  }

  lemma {:induction false} LeastExists(s: set<int>) returns (m: int)
    requires s != {}
    ensures m in s && forall x :: x in s ==> m <= x
    decreases |s|
  {
    var x := Member(s);
    m := x;
    var rest := s - {x};
    assert s == rest + {x};
    if rest != {} {
      var n := LeastExists(rest);
      m := if n < x then n else x;
    }
  }

  function Least(s: set<int>): (m: int)
    requires s != {}
    ensures m in s && forall x :: x in s ==> m <= x
  {
    assert exists m :: m in s && forall x :: x in s ==> m <= x by {
      var _ := LeastExists(s);
    }
    var m :| m in s && forall x :: x in s ==> m <= x;
    m
  }

  /** `sorted(s)`. */
  function Sorted(s: set<int>): (q: seq<int>)
    ensures |q| == |s|
    ensures forall i, j :: 0 <= i < j < |q| ==> q[i] < q[j]
    ensures forall x :: x in s <==> x in q
  {
    if s == {} then [] else
      var m := Least(s);
      var rest := Sorted(s - {m});
      assert forall i :: 0 <= i < |rest| ==> rest[i] in s - {m};
      [m] + rest
  }

  function Elements(q: seq<int>): set<int> {
    set x | x in q
  }

  /** `set(sorted(s)[-2048:])`. */
  function Newest(s: set<int>): set<int>
    requires |s| > SEEN_KEEP
  {
    Elements(Sorted(s)[|s| - SEEN_KEEP..])
  }

  lemma {:induction false} DistinctCount(q: seq<int>)
    requires forall i, j :: 0 <= i < j < |q| ==> q[i] < q[j]
    ensures |Elements(q)| == |q|
  {
    if q != [] {
      var rest := q[1..];
      DistinctCount(rest);
      assert Elements(q) == {q[0]} + Elements(rest);
      assert q[0] !in Elements(rest);
    }
  }

  /** The kept members are 2048 of the old ones and lie above every dropped one. */
  lemma NewestAreLargest(s: set<int>)
    requires |s| > SEEN_KEEP
    ensures Newest(s) <= s && |Newest(s)| == 2048
    ensures forall x, y :: x in s && x !in Newest(s) && y in Newest(s) ==> x < y
  {
    var q := Sorted(s);
    var tail := q[|s| - SEEN_KEEP..];
    DistinctCount(tail);
    forall x, y | x in s && x !in Newest(s) && y in Newest(s)
      ensures x < y
    {
      var i :| 0 <= i < |q| && q[i] == x;
      var j :| 0 <= j < |tail| && tail[j] == y;
      assert forall k :: |s| - SEEN_KEEP <= k < |q| ==> q[k] == tail[k - (|s| - SEEN_KEEP)];
      assert q[|s| - SEEN_KEEP + j] == y;
    }
  }

  /** The set after accepting a counter that was not in it. */
  function Remember(seen: set<int>, counter: int): set<int> {
    if |seen + {counter}| > SEEN_LIMIT then Newest(seen + {counter}) else seen + {counter}
  }

  ghost function Above(s: set<int>, c: int): set<int> {
    set x | x in s && x > c
  }

  /** The check's state against everything it ever accepted: what is missing has 2048 larger members present. */
  ghost predicate Covers(seen: set<int>, accepted: set<int>) {
    && seen <= accepted && |seen| <= SEEN_LIMIT
    && forall c :: c in accepted && c !in seen ==> |Above(seen, c)| >= SEEN_KEEP
  }

  lemma SubsetCount<T>(a: set<T>, b: set<T>)
    requires a <= b
    ensures |a| <= |b|
  {
    assert |b| == |a| + |b - a| by {
      assert a + (b - a) == b;
    }
  }

  lemma RememberCovers(seen: set<int>, accepted: set<int>, counter: int)
    requires Covers(seen, accepted) && counter !in seen
    ensures Covers(Remember(seen, counter), accepted + {counter})
  {
    var all := seen + {counter};
    forall c | c in accepted + {counter} && c !in all
      ensures |Above(all, c)| >= SEEN_KEEP
    {
      SubsetCount(Above(seen, c), Above(all, c));
    }
    if |all| > SEEN_LIMIT {
      TrimCovers(all, accepted + {counter});
    }
  }

  /** Something missing with 2048 larger members present lies below everything kept. */
  lemma KeptAboveMissing(all: set<int>, c: int, y: int)
    requires |all| > SEEN_KEEP && y in Newest(all)
    requires c in all ==> c !in Newest(all)
    requires c !in all ==> |Above(all, c)| >= SEEN_KEEP
    ensures c < y
  {
    NewestAreLargest(all);
    if c !in all && y <= c {
      assert Above(all, c) <= Newest(all) - {y};
      SubsetCount(Above(all, c), Newest(all) - {y});
    }
  }

  lemma TrimCovers(all: set<int>, accepted: set<int>)
    requires |all| > SEEN_LIMIT && all <= accepted
    requires forall c :: c in accepted && c !in all ==> |Above(all, c)| >= SEEN_KEEP
    ensures Covers(Newest(all), accepted)
  {
    var kept := Newest(all);
    NewestAreLargest(all);
    forall c | c in accepted && c !in kept
      ensures |Above(kept, c)| >= SEEN_KEEP
    {
      if y :| y in kept && y <= c {
        KeptAboveMissing(all, c, y);
      }
      assert Above(kept, c) == kept;
    }
  }

  /** Any of the 2048 largest accepted counters is still remembered. */
  lemma LargestRemembered(seen: set<int>, accepted: set<int>, c: int)
    requires Covers(seen, accepted) && c in accepted && |Above(accepted, c)| < SEEN_KEEP
    ensures c in seen
  {
    SubsetCount(Above(seen, c), Above(accepted, c));
  }

  datatype Memory = Memory(seen: set<int>, accepted: set<int>)

  function CheckMemory(m: Memory, counter: int): (bool, Memory) {
    if counter in m.seen then (false, m)
    else (true, Memory(Remember(m.seen, counter), m.accepted + {counter}))
  }

  function CheckAll(m: Memory, counters: seq<int>): Memory
    decreases |counters|
  {
    if counters == [] then m else CheckAll(CheckMemory(m, counters[0]).1, counters[1..])
  }

  /** For every sequence of counters and any number of trims: a repeat of one of the 2048 largest accepted counters
      is refused, and a counter never accepted before is not. */
  lemma RepeatsRefused(counters: seq<int>, c: int)
    ensures var m := CheckAll(Memory({}, {}), counters);
            && |m.seen| <= 4096
            && (c in m.accepted && |Above(m.accepted, c)| < 2048 ==> !CheckMemory(m, c).0)
            && (c !in m.accepted ==> CheckMemory(m, c).0)
  {
    CheckAllCovers(Memory({}, {}), counters);
    var m := CheckAll(Memory({}, {}), counters);
    if c in m.accepted && |Above(m.accepted, c)| < SEEN_KEEP {
      LargestRemembered(m.seen, m.accepted, c);
    }
  }

  lemma {:induction false} CheckAllCovers(m: Memory, counters: seq<int>)
    requires Covers(m.seen, m.accepted)
    ensures var m' := CheckAll(m, counters); Covers(m'.seen, m'.accepted)
    decreases |counters|
  {
    if counters != [] {
      if counters[0] !in m.seen {
        RememberCovers(m.seen, m.accepted, counters[0]);
      }
      CheckAllCovers(CheckMemory(m, counters[0]).1, counters[1..]);
    }
  }

  /** Past that bound the guarantee ends: the check that trims makes every dropped counter acceptable again. */
  lemma DroppedAcceptedAgain(m: Memory, counter: int, c: int)
    requires counter !in m.seen && |m.seen| == SEEN_LIMIT && c in m.seen + {counter}
    ensures var m' := CheckMemory(m, counter).1;
            CheckMemory(m', c).0 <==> |Above(m.seen + {counter}, c)| >= SEEN_KEEP
  {
    var all := m.seen + {counter};
    NewestAreLargest(all);
    var kept := Newest(all);
    if c in kept {
      assert Above(all, c) <= kept - {c};
      SubsetCount(Above(all, c), kept - {c});
    } else {
      assert kept <= Above(all, c);
      SubsetCount(kept, Above(all, c));
    }
  }

  class ReplayClient {
    var high: int
    var seen: set<int>
    ghost var accepted: set<int>

    ghost predicate Valid()
      reads this
    {
      Covers(seen, accepted) && 0 <= high && forall c :: c in accepted ==> c <= high
    }

    constructor ()
      ensures Valid() && seen == {} && accepted == {}
    {
      high, seen, accepted := 0, {}, {};
    }

    method Check(counter: int) returns (ok: bool)
      requires Valid()
      modifies this
      ensures Valid()
      ensures (ok, Memory(seen, accepted)) == CheckMemory(old(Memory(seen, accepted)), counter)
      ensures ok ==> high == if old(high) < counter then counter else old(high)
      ensures !ok ==> high == old(high)
    {
      if counter in seen {
        return false;
      }
      RememberCovers(seen, accepted, counter);
      high := if high < counter then counter else high;
      Record(counter);
      accepted := accepted + {counter};
      return true;
    }

    /** Add a counter and trim the set when it has grown too large. */
    method Record(counter: int)
      modifies this`seen
      ensures seen == Remember(old(seen), counter)
    {
      seen := seen + {counter};
      if |seen| > SEEN_LIMIT {
        seen := Newest(seen);
      }
    }
  }
}
