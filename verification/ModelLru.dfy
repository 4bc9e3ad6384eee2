/** Completed loads refine textbook LRU, and every backend that leaves the map is closed once. */
module ModelLru {
  import opened Bytes
  import opened ModelCache

  // ----- recency lists -----

  /** The distinct requests in the order of their last occurrences. */
  function Recent<X(==)>(reqs: seq<X>): seq<X> {
    if reqs == [] then []
    else if reqs[0] in reqs[1..] then Recent(reqs[1..])
    else [reqs[0]] + Recent(reqs[1..])
  }

  function Last<X>(xs: seq<X>, m: nat): seq<X> {
    if |xs| <= m then xs else xs[|xs| - m..]
  }

  function Remove<X(==)>(xs: seq<X>, k: X): seq<X> {
    if xs == [] then [] else (if xs[0] == k then [] else [xs[0]]) + Remove(xs[1..], k)
  }

  /** One request on the resident keys, oldest first. */
  function Touch<X(==)>(ks: seq<X>, k: X, max: nat): seq<X>
    requires max >= 1
  {
    if k in ks then Remove(ks, k) + [k] else Last(ks, max - 1) + [k]
  }

  lemma {:induction false} RemoveAbsent<X>(xs: seq<X>, k: X)
    requires k !in xs
    ensures Remove(xs, k) == xs
  {
    if xs != [] {
      RemoveAbsent(xs[1..], k);
    }
  }

  lemma {:induction false} RemoveConcat<X>(xs: seq<X>, ys: seq<X>, k: X)
    ensures Remove(xs + ys, k) == Remove(xs, k) + Remove(ys, k)
  {
    if xs == [] {
      assert xs + ys == ys;
    } else {
      assert (xs + ys)[1..] == xs[1..] + ys;
      RemoveConcat(xs[1..], ys, k);
    }
  }

  lemma UniqueTail<X>(xs: seq<X>)
    requires Unique(xs) && xs != []
    ensures Unique(xs[1..]) && xs[0] !in xs[1..]
  {
    assert forall i :: 0 <= i < |xs| - 1 ==> xs[1..][i] == xs[i + 1];
  }

  lemma {:induction false} RemoveUnique<X>(xs: seq<X>, i: nat)
    requires Unique(xs) && i < |xs|
    ensures Remove(xs, xs[i]) == RemoveAt(xs, i)
  {
    UniqueTail(xs);
    if i == 0 {
      RemoveAbsent(xs[1..], xs[0]);
      assert RemoveAt(xs, 0) == xs[1..];
    } else {
      assert xs[1..][i - 1] == xs[i];
      RemoveUnique(xs[1..], i - 1);
      assert RemoveAt(xs, i) == [xs[0]] + RemoveAt(xs[1..], i - 1);
    }
  }

  lemma {:induction false} RecentMembers<X>(reqs: seq<X>)
    ensures Unique(Recent(reqs)) && forall x :: x in Recent(reqs) <==> x in reqs
  {
    if reqs != [] {
      RecentMembers(reqs[1..]);
      assert forall x :: x in reqs <==> x == reqs[0] || x in reqs[1..];
    }
  }

  lemma {:induction false} RecentSnoc<X>(reqs: seq<X>, k: X)
    ensures Recent(reqs + [k]) == Remove(Recent(reqs), k) + [k]
  {
    if reqs == [] {
      assert [k][1..] == [] && reqs + [k] == [k];
    } else {
      var x, t := reqs[0], reqs[1..];
      assert (reqs + [k])[1..] == t + [k];
      RecentSnoc(t, k);
      if x !in t {
        assert Recent(reqs)[1..] == Recent(t);
      }
    }
  }

  lemma LastOfConcat<X>(p: seq<X>, q: seq<X>, m: nat)
    requires |q| == m || (p == [] && |q| <= m)
    ensures Last(p + q, m) == q
  {
    assert (p + q)[|p|..] == q;
    if p == [] {
      assert p + q == q;
    }
  }

  lemma SuffixUnique<X>(p: seq<X>, ks: seq<X>)
    requires Unique(p + ks)
    ensures Unique(ks) && forall x :: x in ks ==> x !in p
  {
    var r := p + ks;
    assert forall i :: 0 <= i < |ks| ==> r[|p| + i] == ks[i];
    assert forall i :: 0 <= i < |p| ==> r[i] == p[i];
  }

  /** Touching the last m of a recency list gives the last m of the touched list. */
  lemma TouchSuffix<X>(r: seq<X>, k: X, max: nat)
    requires max >= 1 && Unique(r)
    ensures Touch(Last(r, max), k, max) == Last(Remove(r, k) + [k], max)
  {
    var ks := Last(r, max);
    var p := r[..|r| - |ks|];
    assert r == p + ks;
    RemoveConcat(p, ks, k);
    SuffixUnique(p, ks);
    if k in ks {
      TouchResident(p, ks, k, max);
    } else {
      TouchMissing(p, ks, k, max);
    }
  }

  lemma TouchResident<X>(p: seq<X>, ks: seq<X>, k: X, max: nat)
    requires k in ks && k !in p && Unique(ks) && (|ks| == max || (p == [] && |ks| <= max))
    ensures Remove(ks, k) + [k] == Last(Remove(p, k) + Remove(ks, k) + [k], max)
  {
    RemoveAbsent(p, k);
    var j :| 0 <= j < |ks| && ks[j] == k;
    RemoveUnique(ks, j);
    assert p + Remove(ks, k) + [k] == p + (Remove(ks, k) + [k]);
    LastOfConcat(p, Remove(ks, k) + [k], max);
  }

  lemma TouchMissing<X>(p: seq<X>, ks: seq<X>, k: X, max: nat)
    requires max >= 1 && k !in ks && (|ks| == max || (p == [] && |ks| <= max))
    ensures Last(ks, max - 1) + [k] == Last(Remove(p, k) + Remove(ks, k) + [k], max)
  {
    RemoveAbsent(ks, k);
    if |ks| == max {
      assert Last(ks, max - 1) == ks[1..];
      DropFirst(Remove(p, k), ks, k);
    } else {
      assert Remove(p, k) == [];
      assert [] + ks + [k] == ks + [k];
      assert Last(ks, max - 1) == ks && Last(ks + [k], max) == ks + [k];
    }
  }

  lemma DropFirst<X>(q: seq<X>, ks: seq<X>, k: X)
    requires ks != []
    ensures ks[1..] + [k] == Last(q + ks + [k], |ks|)
  {
    var all := q + ks + [k];
    assert |all| - |ks| == |q| + 1;
    assert all[|q| + 1..] == ks[1..] + [k];
  }

  // ----- the cache -----

  function Run(reqs: seq<SlotName>, max: nat, nCtxDefault: int): Cache
    requires max >= 1
  {
    if reqs == [] then Cache([], 0, [])
    else Ensure(Run(reqs[..|reqs| - 1], max, nCtxDefault), reqs[|reqs| - 1], None, max, nCtxDefault)
  }

  function KeysOf(reqs: seq<SlotName>): (ks: seq<string>)
    ensures |ks| == |reqs|
  {
    if reqs == [] then [] else KeysOf(reqs[..|reqs| - 1]) + [CacheKey(reqs[|reqs| - 1])]
  }

  /** Every backend ever made is either resident or closed, and closed once. */
  predicate Accounted(c: Cache) {
    && Unique(c.closed + Backends(c.loaded))
    && (forall b :: b in c.closed + Backends(c.loaded) ==> b < c.next)
    && |c.closed| + |c.loaded| == c.next
  }

  predicate Sound(c: Cache, max: nat) {
    |c.loaded| <= max && Unique(Keys(c.loaded))
  }

  lemma RemoveCons<X>(xs: seq<X>, i: nat)
    requires 0 < i < |xs|
    ensures RemoveAt(xs, i) == [xs[0]] + RemoveAt(xs[1..], i - 1)
    ensures ([xs[0]] + RemoveAt(xs[1..], i - 1))[1..] == RemoveAt(xs[1..], i - 1)
  {
  }

  lemma RemoveFirst<X>(xs: seq<X>)
    requires xs != []
    ensures RemoveAt(xs, 0) == xs[1..]
  {
  }

  lemma {:induction false} KeysRemoveAt(loaded: seq<Loaded>, i: nat)
    requires i < |loaded|
    ensures Keys(RemoveAt(loaded, i)) == RemoveAt(Keys(loaded), i)
    ensures Backends(RemoveAt(loaded, i)) == RemoveAt(Backends(loaded), i)
  {
    assert Keys(loaded)[1..] == Keys(loaded[1..]) && Backends(loaded)[1..] == Backends(loaded[1..]);
    if i == 0 {
      RemoveFirst(loaded);
      RemoveFirst(Keys(loaded));
      RemoveFirst(Backends(loaded));
    } else {
      RemoveCons(loaded, i);
      RemoveCons(Keys(loaded), i);
      RemoveCons(Backends(loaded), i);
      KeysRemoveAt(loaded[1..], i - 1);
    }
  }

  /** Eviction from a map within its cap closes the oldest slot when full and nothing otherwise. */
  lemma EvictsOldest(c: Cache, max: nat)
    requires max >= 1 && |c.loaded| <= max
    ensures EvictDown(c, max) == if |c.loaded| < max then c
                                 else Cache(c.loaded[1..], c.next, c.closed + [c.loaded[0].backend])
  {
    if |c.loaded| == max {
      assert IndexOf(c.loaded, c.loaded[0].key) == 0;
      assert RemoveAt(c.loaded, 0) == c.loaded[1..];
    }
  }

  lemma HitIffResident(c: Cache, key: string)
    ensures Hit(c, key, None) <==> key in Keys(c.loaded)
  {
    var i := IndexOf(c.loaded, key);
    if i == |c.loaded| {
      assert forall j :: 0 <= j < |c.loaded| ==> Keys(c.loaded)[j] != key;
    } else {
      assert Keys(c.loaded)[i] == key;
    }
  }

  lemma HitKeys(c: Cache, key: string, max: nat)
    requires max >= 1 && Sound(c, max) && key in Keys(c.loaded) && IndexOf(c.loaded, key) < |c.loaded|
    ensures Keys(MoveToEnd(c, key).loaded) == Touch(Keys(c.loaded), key, max)
  {
    var i := IndexOf(c.loaded, key);
    MovedLists(c.loaded, i);
    RemoveUnique(Keys(c.loaded), i);
  }

  lemma MissKeys(c: Cache, name: SlotName, nCtx: int, max: nat)
    requires max >= 1 && Sound(c, max) && CacheKey(name) !in Keys(c.loaded)
    ensures Keys(Insert(EvictDown(c, max), name, nCtx).loaded) == Touch(Keys(c.loaded), CacheKey(name), max)
  {
    EvictsOldest(c, max);
    var e := EvictDown(c, max);
    assert Keys(e.loaded) == Last(Keys(c.loaded), max - 1);
    assert CacheKey(name) !in Keys(e.loaded);
    HitIffResident(e, CacheKey(name));
    KeysConcat(e.loaded, [Loaded(CacheKey(name), name, e.next, nCtx)]);
  }

  lemma EnsureKeys(c: Cache, name: SlotName, max: nat, nCtxDefault: int)
    requires max >= 1 && Sound(c, max)
    ensures Keys(Ensure(c, name, None, max, nCtxDefault).loaded) == Touch(Keys(c.loaded), CacheKey(name), max)
  {
    HitIffResident(c, CacheKey(name));
    if CacheKey(name) in Keys(c.loaded) {
      HitKeys(c, CacheKey(name), max);
    } else {
      MissKeys(c, name, WantedCtx(None, nCtxDefault), max);
    }
  }

  lemma KeysConcat(a: seq<Loaded>, b: seq<Loaded>)
    ensures Keys(a + b) == Keys(a) + Keys(b) && Backends(a + b) == Backends(a) + Backends(b)
  {
  }

  lemma LastUnique<X>(r: seq<X>, m: nat)
    requires Unique(r)
    ensures Unique(Last(r, m)) && |Last(r, m)| <= m
  {
    var p := r[..|r| - |Last(r, m)|];
    assert r == p + Last(r, m);
    SuffixUnique(p, Last(r, m));
  }

  /** The resident keys are the most recently requested distinct keys, in recency order, as many as the cap allows. */
  lemma {:induction false} ResidentAreMostRecent(reqs: seq<SlotName>, max: nat, nCtxDefault: int)
    requires max >= 1
    ensures Sound(Run(reqs, max, nCtxDefault), max)
    ensures Keys(Run(reqs, max, nCtxDefault).loaded) == Last(Recent(KeysOf(reqs)), max)
  {
    if reqs != [] {
      var front, name := reqs[..|reqs| - 1], reqs[|reqs| - 1];
      ResidentAreMostRecent(front, max, nCtxDefault);
      EnsureKeys(Run(front, max, nCtxDefault), name, max, nCtxDefault);
      RecentMembers(KeysOf(front));
      RecentSnoc(KeysOf(front), CacheKey(name));
      TouchSuffix(Recent(KeysOf(front)), CacheKey(name), max);
    }
    RecentMembers(KeysOf(reqs));
    LastUnique(Recent(KeysOf(reqs)), max);
  }

  lemma ResidentIff(reqs: seq<SlotName>, max: nat, nCtxDefault: int, key: string)
    requires max >= 1
    ensures key in Keys(Run(reqs, max, nCtxDefault).loaded) <==> key in Last(Recent(KeysOf(reqs)), max)
  {
    ResidentAreMostRecent(reqs, max, nCtxDefault);
  }

  /** What a smaller cap keeps, a larger one keeps too. */
  lemma StackProperty(reqs: seq<SlotName>, max: nat, more: nat, nCtxDefault: int, key: string)
    requires 1 <= max <= more && key in Keys(Run(reqs, max, nCtxDefault).loaded)
    ensures key in Keys(Run(reqs, more, nCtxDefault).loaded)
  {
    ResidentIff(reqs, max, nCtxDefault, key);
    ResidentIff(reqs, more, nCtxDefault, key);
    LastGrows(Recent(KeysOf(reqs)), max, more, key);
  }

  lemma LastGrows<X>(r: seq<X>, m: nat, n: nat, x: X)
    requires m <= n && x in Last(r, m)
    ensures x in Last(r, n)
  {
    var i :| 0 <= i < |Last(r, m)| && Last(r, m)[i] == x;
    assert Last(r, n)[|Last(r, n)| - |Last(r, m)| + i] == x;
  }

  /** A load that finds its key still in the map after evicting: it overwrites that slot without closing it. */
  predicate Overwrites(c: Cache, name: SlotName, nCtx: Option<int>, max: nat)
    requires max >= 1
  {
    !Hit(c, CacheKey(name), nCtx) && Hit(EvictDown(c, max), CacheKey(name), None)
  }

  /** When that happens: the key is resident with too small a context, and it is not the one slot that is evicted. */
  lemma OverwritesIff(c: Cache, name: SlotName, nCtx: Option<int>, max: nat)
    requires max >= 1 && Sound(c, max)
    ensures Overwrites(c, name, nCtx, max) <==>
              && !Hit(c, CacheKey(name), nCtx) && CacheKey(name) in Keys(c.loaded)
              && (|c.loaded| < max || c.loaded[0].key != CacheKey(name))
  {
    var key, e := CacheKey(name), EvictDown(c, max);
    EvictsOldest(c, max);
    HitIffResident(c, key);
    HitIffResident(e, key);
    if |c.loaded| == max {
      UniqueTail(Keys(c.loaded));
      assert Keys(e.loaded) == Keys(c.loaded)[1..];
      assert Keys(c.loaded) == [Keys(c.loaded)[0]] + Keys(c.loaded)[1..];
    }
  }

  lemma OneOfKey(loaded: seq<Loaded>, l: Loaded)
    requires Unique(Keys(loaded)) && l in loaded
    ensures IndexOf(loaded, l.key) < |loaded| && loaded[IndexOf(loaded, l.key)] == l
  {
    var j :| 0 <= j < |loaded| && loaded[j] == l;
    FirstOfKey(loaded, j);
  }

  lemma FirstOfKey(loaded: seq<Loaded>, j: nat)
    requires Unique(Keys(loaded)) && j < |loaded|
    ensures IndexOf(loaded, loaded[j].key) == j
  {
    var i, keys := IndexOf(loaded, loaded[j].key), Keys(loaded);
    assert i <= j && keys[j] == loaded[j].key;
    assert keys[i] == keys[j];
  }

  predicate Suits(l: Loaded, key: string, nCtx: Option<int>) {
    l.key == key && (nCtx.None? || nCtx.value <= l.nCtx)
  }

  /** A call is answered from the map exactly if the slot of its key is there with context enough. */
  lemma HitExactly(c: Cache, key: string, nCtx: Option<int>)
    requires Unique(Keys(c.loaded))
    ensures Hit(c, key, nCtx) <==> exists l :: l in c.loaded && Suits(l, key, nCtx)
  {
    var i := IndexOf(c.loaded, key);
    if Hit(c, key, nCtx) {
      assert c.loaded[i] in c.loaded && Suits(c.loaded[i], key, nCtx);
    }
    if l :| l in c.loaded && Suits(l, key, nCtx) {
      OneOfKey(c.loaded, l);
    }
  }

  lemma UniqueConcat(a: seq<nat>, b: seq<nat>)
    ensures Unique(a + b) <==> Unique(a) && Unique(b) && forall x :: x in a ==> x !in b
  {
    var ab := a + b;
    assert forall i :: 0 <= i < |a| ==> ab[i] == a[i];
    assert forall i :: |a| <= i < |ab| ==> ab[i] == b[i - |a|];
    if Unique(ab) {
      forall i, j | 0 <= i < j < |b|
        ensures b[i] != b[j]
      {
        assert ab[|a| + i] == b[i] && ab[|a| + j] == b[j];
      }
      forall i, j | 0 <= i < |a| && 0 <= j < |b|
        ensures a[i] != b[j]
      {
        assert ab[i] == a[i] && ab[|a| + j] == b[j];
      }
    } else {
      var i, j :| 0 <= i < j < |ab| && ab[i] == ab[j];
      assert i < |a| <= j ==> a[i] in a && a[i] == b[j - |a|];
    }
  }

  lemma UniqueRemoveAt(b: seq<nat>, i: nat)
    requires Unique(b) && i < |b|
    ensures Unique(RemoveAt(b, i)) && b[i] !in RemoveAt(b, i)
    ensures forall x :: x in b <==> x == b[i] || x in RemoveAt(b, i)
  {
    var rest := RemoveAt(b, i);
    assert forall j :: 0 <= j < |rest| ==> rest[j] == b[if j < i then j else j + 1];
    forall x | x in b && x != b[i]
      ensures x in rest
    {
      var j :| 0 <= j < |b| && b[j] == x;
      assert rest[if j < i then j else j - 1] == x;
    }
  }

  /** One element of the second part may go to its end or to the end of the first part. */
  lemma UniqueMove(a: seq<nat>, b: seq<nat>, i: nat)
    requires Unique(a + b) && i < |b|
    ensures Unique(a + (RemoveAt(b, i) + [b[i]])) && Unique(a + [b[i]] + RemoveAt(b, i))
    ensures forall x :: x in a + (RemoveAt(b, i) + [b[i]]) <==> x in a + b
    ensures forall x :: x in a + [b[i]] + RemoveAt(b, i) <==> x in a + b
  {
    var rest, last := RemoveAt(b, i), [b[i]];
    UniqueConcat(a, b);
    UniqueRemoveAt(b, i);
    UniqueConcat(rest, last);
    UniqueConcat(a, rest + last);
    UniqueConcat(a, last);
    UniqueConcat(a + last, rest);
  }

  lemma EvictAccounted(c: Cache, max: nat)
    requires max >= 1 && Sound(c, max) && Accounted(c)
    ensures Accounted(EvictDown(c, max)) && EvictDown(c, max).next == c.next
    ensures |EvictDown(c, max).loaded| < max && Unique(Keys(EvictDown(c, max).loaded))
  {
    EvictsOldest(c, max);
    if |c.loaded| == max {
      UniqueMove(c.closed, Backends(c.loaded), 0);
      KeysRemoveAt(c.loaded, 0);
      assert RemoveAt(c.loaded, 0) == c.loaded[1..];
    }
  }

  /** One call keeps the books exactly when it does not overwrite; with the default context it never does. */
  lemma EnsureAccounted(c: Cache, name: SlotName, nCtx: Option<int>, max: nat, nCtxDefault: int)
    requires max >= 1 && Sound(c, max) && Accounted(c)
    ensures Sound(Ensure(c, name, nCtx, max, nCtxDefault), max)
    ensures Accounted(Ensure(c, name, nCtx, max, nCtxDefault)) <==> !Overwrites(c, name, nCtx, max)
    ensures nCtx.None? ==> !Overwrites(c, name, nCtx, max)
  {
    var key := CacheKey(name);
    if Hit(c, key, nCtx) {
      HitAccounted(c, key, max);
    } else {
      EvictAccounted(c, max);
      InsertAccounted(EvictDown(c, max), name, WantedCtx(nCtx, nCtxDefault), max);
      if nCtx.None? {
        HitIffResident(c, key);
        HitIffResident(EvictDown(c, max), key);
        EvictsOldest(c, max);
      }
    }
  }

  lemma HitAccounted(c: Cache, key: string, max: nat)
    requires Sound(c, max) && Accounted(c) && IndexOf(c.loaded, key) < |c.loaded|
    ensures Sound(MoveToEnd(c, key), max) && Accounted(MoveToEnd(c, key))
  {
    var i := IndexOf(c.loaded, key);
    MovedLists(c.loaded, i);
    UniqueMove(c.closed, Backends(c.loaded), i);
    MoveUnique(Keys(c.loaded), i);
  }

  lemma MovedLists(loaded: seq<Loaded>, i: nat)
    requires i < |loaded|
    ensures Keys(RemoveAt(loaded, i) + [loaded[i]]) == RemoveAt(Keys(loaded), i) + [Keys(loaded)[i]]
    ensures Backends(RemoveAt(loaded, i) + [loaded[i]]) == RemoveAt(Backends(loaded), i) + [Backends(loaded)[i]]
  {
    var less := RemoveAt(loaded, i);
    KeysRemoveAt(loaded, i);
    KeysConcat(less, [loaded[i]]);
    assert Keys([loaded[i]]) == [Keys(loaded)[i]] && Backends([loaded[i]]) == [Backends(loaded)[i]];
  }

  lemma MoveUnique<X>(ks: seq<X>, i: nat)
    requires Unique(ks) && i < |ks|
    ensures Unique(RemoveAt(ks, i) + [ks[i]])
  {
  }

  lemma InsertAccounted(c: Cache, name: SlotName, nCtx: int, max: nat)
    requires Accounted(c) && |c.loaded| < max && Unique(Keys(c.loaded))
    ensures Sound(Insert(c, name, nCtx), max)
    ensures Accounted(Insert(c, name, nCtx)) <==> !Hit(c, CacheKey(name), None)
  {
    var i, l := IndexOf(c.loaded, CacheKey(name)), Loaded(CacheKey(name), name, c.next, nCtx);
    HitIffResident(c, CacheKey(name));
    if i == |c.loaded| {
      KeysConcat(c.loaded, [l]);
      var all := c.closed + Backends(c.loaded);
      assert c.next !in all;
      assert c.closed + Backends(c.loaded + [l]) == all + [c.next];
      assert Insert(c, name, nCtx) == Cache(c.loaded + [l], c.next + 1, c.closed);
    } else {
      assert Keys(c.loaded[i := l]) == Keys(c.loaded);
    }
  }

  /** Over every run of completed loads with the default context each backend is resident or closed, never both. */
  lemma {:induction false} ClosedOnce(reqs: seq<SlotName>, max: nat, nCtxDefault: int)
    requires max >= 1
    ensures Sound(Run(reqs, max, nCtxDefault), max) && Accounted(Run(reqs, max, nCtxDefault))
  {
    if reqs != [] {
      ClosedOnce(reqs[..|reqs| - 1], max, nCtxDefault);
      EnsureAccounted(Run(reqs[..|reqs| - 1], max, nCtxDefault), reqs[|reqs| - 1], None, max, nCtxDefault);
    }
  }
}
