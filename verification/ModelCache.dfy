/** The map of loaded models: cache keys, least-recently-used eviction and the calls that walk the map. */
module ModelCache {
  import opened Bytes

  /** The slot identity a cache key spells out. */
  datatype SlotName = SlotName(tenant: string, model: string, mode: string, loras: string)

  function CacheKey(n: SlotName): string {
    n.tenant + [':'] + (n.model + [':'] + (n.mode + [':'] + n.loras))
  }

  /** The parts before the adapters hold no colon; the code's own modes never do. */
  predicate Spelled(n: SlotName) {
    ':' !in n.tenant && ':' !in n.model && ':' !in n.mode
  }

  /** A key then spells one name: tenant, model, mode and adapters. */
  lemma CacheKeyInjective(a: SlotName, b: SlotName)
    requires Spelled(a) && Spelled(b) && CacheKey(a) == CacheKey(b)
    ensures a == b
  {
    FirstSplit(':', a.tenant, a.model + [':'] + (a.mode + [':'] + a.loras), b.tenant, b.model + [':'] + (b.mode + [':'] + b.loras));
    FirstSplit(':', a.model, a.mode + [':'] + a.loras, b.model, b.mode + [':'] + b.loras);
    FirstSplit(':', a.mode, a.loras, b.mode, b.loras);
  }

  /** The condition is needed: a colon moves from one tenant's model to another tenant's. */
  lemma CacheKeysCollide(a: string, b: string, c: string, mode: string, loras: string)
    ensures CacheKey(SlotName(a + [':'] + b, c, mode, loras)) == CacheKey(SlotName(a, b + [':'] + c, mode, loras))
    ensures a + [':'] + b != a
  {
    var rest := c + [':'] + (mode + [':'] + loras);
    assert b + [':'] + c + [':'] + (mode + [':'] + loras) == b + [':'] + rest;
    assert a + [':'] + b + [':'] + rest == a + [':'] + (b + [':'] + rest);
    assert |a + [':'] + b| > |a|;
  }

  function Prefix(tenant: string, model: string): string {
    tenant + [':'] + (model + [':'])
  }

  datatype Loaded = Loaded(key: string, name: SlotName, backend: nat, nCtx: int)

  /** The ordered map, oldest first; backends are numbered as they are created. */
  datatype Cache = Cache(loaded: seq<Loaded>, next: nat, closed: seq<nat>)

  function Keys(loaded: seq<Loaded>): (ks: seq<string>)
    ensures |ks| == |loaded|
    ensures forall i :: 0 <= i < |ks| ==> ks[i] == loaded[i].key
  {
    if loaded == [] then [] else [loaded[0].key] + Keys(loaded[1..])
  }

  /** The position of a key, or the length when it is absent. */
  function IndexOf(loaded: seq<Loaded>, key: string): (i: nat)
    ensures i <= |loaded|
    ensures i < |loaded| ==> loaded[i].key == key
    ensures forall j :: 0 <= j < i ==> loaded[j].key != key
  {
    if loaded == [] || loaded[0].key == key then 0 else 1 + IndexOf(loaded[1..], key)
  }

  function RemoveAt<X>(xs: seq<X>, i: nat): seq<X>
    requires i < |xs|
  {
    xs[..i] + xs[i + 1..]
  }

  predicate Fits(l: Loaded, nCtx: Option<int>) {
    nCtx.None? || nCtx.value <= l.nCtx
  }

  function Hit(c: Cache, key: string, nCtx: Option<int>): bool {
    var i := IndexOf(c.loaded, key);
    i < |c.loaded| && Fits(c.loaded[i], nCtx)
  }

  function MoveToEnd(c: Cache, key: string): Cache
    requires IndexOf(c.loaded, key) < |c.loaded|
  {
    var i := IndexOf(c.loaded, key);
    Cache(RemoveAt(c.loaded, i) + [c.loaded[i]], c.next, c.closed)
  }

  /** Close a backend and pop whatever the map holds under its key. */
  function Unload(c: Cache, l: Loaded): Cache {
    var i := IndexOf(c.loaded, l.key);
    Cache(if i < |c.loaded| then RemoveAt(c.loaded, i) else c.loaded, c.next, c.closed + [l.backend])
  }

  /** Assignment into the ordered map: a key already there keeps its place and loses its slot. */
  function Insert(c: Cache, name: SlotName, nCtx: int): Cache {
    var i := IndexOf(c.loaded, CacheKey(name));
    var l := Loaded(CacheKey(name), name, c.next, nCtx);
    Cache(if i < |c.loaded| then c.loaded[i := l] else c.loaded + [l], c.next + 1, c.closed)
  }

  function EvictDown(c: Cache, max: nat): Cache
    requires max >= 1
    decreases |c.loaded|
  {
    if |c.loaded| < max then c
    else
      assert IndexOf(c.loaded, c.loaded[0].key) == 0;
      EvictDown(Unload(c, c.loaded[0]), max)
  }

  function WantedCtx(nCtx: Option<int>, nCtxDefault: int): int {
    if nCtx.None? || nCtx.value == 0 then nCtxDefault else nCtx.value
  }

  function Ensure(c: Cache, name: SlotName, nCtx: Option<int>, max: nat, nCtxDefault: int): Cache
    requires max >= 1
  {
    if Hit(c, CacheKey(name), nCtx) then MoveToEnd(c, CacheKey(name))
    else Insert(EvictDown(c, max), name, WantedCtx(nCtx, nCtxDefault))
  }

  datatype LoadError = ModelNotFound | LoraUnsupported | LoraNotFound | LoadFailed

  class ModelManager {
    const maxLoaded: nat
    const nCtxDefault: int
    var loaded: seq<Loaded>
    var next: nat
    var closed: seq<nat>

    ghost function View(): Cache
      reads this
    {
      Cache(loaded, next, closed)
    }

    constructor (maxLoaded: nat, nCtxDefault: int)
      ensures this.maxLoaded == maxLoaded && this.nCtxDefault == nCtxDefault && View() == Cache([], 0, [])
    {
      this.maxLoaded, this.nCtxDefault, loaded, next, closed := maxLoaded, nCtxDefault, [], 0, [];
    }

    method UnloadSlot(l: Loaded)
      modifies this
      ensures View() == Unload(old(View()), l)
    {
      closed := closed + [l.backend];
      var i := IndexOf(loaded, l.key);
      if i < |loaded| {
        loaded := loaded[..i] + loaded[i + 1..];
      }
    }

    /**
     * One call that no other call interrupts. Unknown models are refused first; adapters are checked only when the
     * slot is missing and before anything is evicted; a load that fails leaves the evictions behind.
     */
    method EnsureLoaded(name: SlotName, nCtx: Option<int>, registered: bool, loraError: Option<LoadError>, loads: bool)
      returns (r: Result<Loaded, LoadError>)
      requires maxLoaded >= 1
      modifies this
      ensures r.Err? <==> !registered || (!Hit(old(View()), CacheKey(name), nCtx) && (loraError.Some? || !loads))
      ensures r.Ok? ==> View() == Ensure(old(View()), name, nCtx, maxLoaded, nCtxDefault)
                        && r.value in loaded && r.value.key == CacheKey(name)
      ensures r.Ok? && nCtx.Some? && nCtx.value != 0 ==> r.value.nCtx >= nCtx.value
      ensures r.Ok? && !Hit(old(View()), CacheKey(name), nCtx) ==>
                r.value.backend == old(next) && (nCtx.Some? && nCtx.value != 0 ==> r.value.nCtx == nCtx.value)
                && (nCtx == None || nCtx == Some(0) ==> r.value.nCtx == nCtxDefault)
      ensures r.Ok? && Spelled(name) && AllSpelled(old(loaded)) ==> r.value.name == name && AllSpelled(loaded)
      ensures r.Err? ==> View() == if registered && loraError.None? then EvictDown(old(View()), maxLoaded) else old(View())
      ensures r.Err? ==> r.error == if !registered then ModelNotFound else loraError.GetOr(LoadFailed)
    {
      if !registered {
        return Err(ModelNotFound);
      }
      var key := CacheKey(name);
      var i := IndexOf(loaded, key);
      if i < |loaded| && Fits(loaded[i], nCtx) {
        var slot := loaded[i];
        if Spelled(name) && AllSpelled(loaded) {
          CacheKeyInjective(slot.name, name);
        }
        loaded := loaded[..i] + loaded[i + 1..] + [slot];
        assert loaded[|loaded| - 1] == slot;
        return Ok(slot);
      }
      if loraError.Some? {
        return Err(loraError.value);
      }
      while |loaded| >= maxLoaded
        invariant EvictDown(View(), maxLoaded) == EvictDown(old(View()), maxLoaded)
        invariant (AllSpelled(old(loaded)) ==> AllSpelled(loaded)) && next == old(next)
        decreases |loaded|
      {
        assert IndexOf(loaded, loaded[0].key) == 0;
        UnloadSlot(loaded[0]);
      }
      if !loads {
        return Err(LoadFailed);
      }
      var slot := InsertSlot(name, WantedCtx(nCtx, nCtxDefault));
      return Ok(slot);
    }

    method InsertSlot(name: SlotName, nCtx: int) returns (slot: Loaded)
      modifies this
      ensures View() == Insert(old(View()), name, nCtx) && slot in loaded && slot.key == CacheKey(name) && slot.name == name
                            && slot.nCtx == nCtx && slot.backend == old(next)
      ensures forall l :: l in loaded ==> l in old(loaded) || l == slot
    {
      var i := IndexOf(loaded, CacheKey(name));
      slot := Loaded(CacheKey(name), name, next, nCtx);
      next := next + 1;
      if i < |loaded| {
        loaded := loaded[i := slot];
        assert loaded[i] == slot;
      } else {
        loaded := loaded + [slot];
        assert loaded[|loaded| - 1] == slot;
      }
    }

    /** Drop every slot whose key starts with the pair's prefix. */
    method ForceUnload(model: string, tenant: string) returns (any: bool)
      modifies this
      ensures loaded == Rejected(old(loaded), Prefix(tenant, model))
      ensures closed == old(closed) + Backends(Selected(old(loaded), Prefix(tenant, model)))
      ensures any <==> Selected(old(loaded), Prefix(tenant, model)) != []
      ensures next == old(next)
    {
      var targets := Selected(loaded, Prefix(tenant, model));
      if targets == [] {
        NothingSelected(loaded, Prefix(tenant, model));
        return false;
      }
      UnloadAll(targets, Prefix(tenant, model));
      return true;
    }

    method UnloadAll(selected: seq<Loaded>, ghost prefix: string)
      requires selected == Selected(loaded, prefix)
      modifies this
      ensures loaded == Rejected(old(loaded), prefix)
      ensures closed == old(closed) + Backends(selected) && next == old(next)
    {
      ghost var start, done := loaded, [];
      var targets := selected;
      while targets != []
        invariant Unloading(start, done, loaded, targets, prefix)
        invariant closed == old(closed) + Backends(done) && next == old(next)
        decreases |targets|
      {
        NextUnloaded(start, done, loaded, targets, prefix);
        BackendsSnoc(done, targets[0]);
        UnloadSlot(targets[0]);
        done, targets := done + [targets[0]], targets[1..];
      }
      NothingSelected(loaded, prefix);
      assert done == selected;
    }

    /** For each catalogued model of a tenant, the first slot that matches by prefix and by id. */
    method Snapshot(tenant: string, models: seq<string>) returns (states: seq<Option<Loaded>>)
      ensures |states| == |models|
      ensures forall k :: 0 <= k < |models| ==> states[k] == FirstMatch(loaded, tenant, models[k])
    {
      states := [];
      for k := 0 to |models|
        invariant |states| == k
        invariant forall j :: 0 <= j < k ==> states[j] == FirstMatch(loaded, tenant, models[j])
      {
        var found := None;
        var i := 0;
        while i < |loaded| && found.None?
          invariant i <= |loaded|
          invariant found.None? ==> FirstMatch(loaded, tenant, models[k]) == FirstMatch(loaded[i..], tenant, models[k])
          invariant found.Some? ==> FirstMatch(loaded, tenant, models[k]) == found
        {
          if Prefix(tenant, models[k]) <= loaded[i].key && loaded[i].name.model == models[k] {
            found := Some(loaded[i]);
          }
          i := i + 1;
        }
        states := states + [found];
      }
    }
  }

  /** Every slot sits under the key that its own plain name spells. */
  predicate AllSpelled(loaded: seq<Loaded>) {
    forall l :: l in loaded ==> l.key == CacheKey(l.name) && Spelled(l.name)
  }

  function FirstMatch(loaded: seq<Loaded>, tenant: string, model: string): Option<Loaded> {
    if loaded == [] then None
    else if Prefix(tenant, model) <= loaded[0].key && loaded[0].name.model == model then Some(loaded[0])
    else FirstMatch(loaded[1..], tenant, model)
  }

  function Selected(loaded: seq<Loaded>, prefix: string): seq<Loaded> {
    if loaded == [] then []
    else (if prefix <= loaded[0].key then [loaded[0]] else []) + Selected(loaded[1..], prefix)
  }

  function Rejected(loaded: seq<Loaded>, prefix: string): seq<Loaded> {
    if loaded == [] then []
    else (if prefix <= loaded[0].key then [] else [loaded[0]]) + Rejected(loaded[1..], prefix)
  }

  function Backends(ls: seq<Loaded>): (bs: seq<nat>)
    ensures |bs| == |ls|
    ensures forall i :: 0 <= i < |bs| ==> bs[i] == ls[i].backend
  {
    if ls == [] then [] else [ls[0].backend] + Backends(ls[1..])
  }

  lemma BackendsSnoc(ls: seq<Loaded>, l: Loaded)
    ensures Backends(ls + [l]) == Backends(ls) + [l.backend]
  {
  }

  lemma {:induction false} NothingSelected(loaded: seq<Loaded>, prefix: string)
    requires Selected(loaded, prefix) == []
    ensures Rejected(loaded, prefix) == loaded && Backends([]) == []
  {
    if loaded != [] {
      NothingSelected(loaded[1..], prefix);
    }
  }

  /** Part of the selected slots is gone, the rest is still to come, the rejected ones are as they were. */
  ghost predicate Unloading(start: seq<Loaded>, done: seq<Loaded>, loaded: seq<Loaded>, targets: seq<Loaded>, prefix: string) {
    && targets == Selected(loaded, prefix) && Rejected(loaded, prefix) == Rejected(start, prefix)
    && done + targets == Selected(start, prefix)
  }

  lemma NextUnloaded(start: seq<Loaded>, done: seq<Loaded>, loaded: seq<Loaded>, targets: seq<Loaded>, prefix: string)
    requires Unloading(start, done, loaded, targets, prefix) && targets != []
    ensures var i := IndexOf(loaded, targets[0].key);
            i < |loaded| && Unloading(start, done + [targets[0]], RemoveAt(loaded, i), targets[1..], prefix)
  {
    FirstSelected(loaded, prefix);
    ShiftOne(done, targets);
  }

  lemma ShiftOne<X>(a: seq<X>, b: seq<X>)
    requires b != []
    ensures a + [b[0]] + b[1..] == a + b
  {
  }

  /** Popping the first selected slot by its key takes out that slot and touches no rejected one. */
  lemma FirstSelected(loaded: seq<Loaded>, prefix: string)
    requires Selected(loaded, prefix) != []
    ensures var i := IndexOf(loaded, Selected(loaded, prefix)[0].key);
            && i < |loaded|
            && Selected(RemoveAt(loaded, i), prefix) == Selected(loaded, prefix)[1..]
            && Rejected(RemoveAt(loaded, i), prefix) == Rejected(loaded, prefix)
  {
    var p := SelectedAt(loaded, prefix);
    RemoveSelected(loaded, prefix, p);
    var i := IndexOf(loaded, loaded[p].key);
    assert i <= p;
    assert i == p;
  }

  lemma {:induction false} SelectedAt(loaded: seq<Loaded>, prefix: string) returns (p: nat)
    requires Selected(loaded, prefix) != []
    ensures p < |loaded| && prefix <= loaded[p].key
    ensures forall j :: 0 <= j < p ==> !(prefix <= loaded[j].key)
  {
    if prefix <= loaded[0].key {
      p := 0;
    } else {
      p := SelectedAt(loaded[1..], prefix);
      p := p + 1;
    }
  }

  lemma {:induction false} RemoveSelected(loaded: seq<Loaded>, prefix: string, p: nat)
    requires p < |loaded| && prefix <= loaded[p].key
    requires forall j :: 0 <= j < p ==> !(prefix <= loaded[j].key)
    ensures Selected(loaded, prefix) == [loaded[p]] + Selected(RemoveAt(loaded, p), prefix)
    ensures Rejected(loaded, prefix) == Rejected(RemoveAt(loaded, p), prefix)
  {
    if p == 0 {
      assert RemoveAt(loaded, 0) == loaded[1..];
    } else {
      var rest := loaded[1..];
      assert !(prefix <= loaded[0].key);
      assert forall j :: 0 <= j < p - 1 ==> rest[j] == loaded[j + 1];
      RemoveSelected(rest, prefix, p - 1);
      assert RemoveAt(loaded, p) == [loaded[0]] + RemoveAt(rest, p - 1);
      RejectedFirst(loaded[0], RemoveAt(rest, p - 1), prefix);
    }
  }

  lemma RejectedFirst(l: Loaded, rest: seq<Loaded>, prefix: string)
    requires !(prefix <= l.key)
    ensures Selected([l] + rest, prefix) == Selected(rest, prefix)
    ensures Rejected([l] + rest, prefix) == [l] + Rejected(rest, prefix)
  {
    assert ([l] + rest)[1..] == rest;
  }

  lemma {:induction false} SelectedHavePrefix(loaded: seq<Loaded>, prefix: string)
    ensures forall l :: l in Selected(loaded, prefix) <==> l in loaded && prefix <= l.key
    ensures forall l :: l in Rejected(loaded, prefix) <==> l in loaded && !(prefix <= l.key)
  {
    if loaded != [] {
      SelectedHavePrefix(loaded[1..], prefix);
      assert loaded == [loaded[0]] + loaded[1..];
    }
  }

  // ----- what a prefix selects -----

  /** For ids without a colon the prefix test is equality of tenant and model, across all modes and adapter sets. */
  lemma PrefixIsPair(tenant: string, model: string, n: SlotName)
    requires ':' !in tenant && ':' !in model && ':' !in n.tenant && ':' !in n.model
    ensures Prefix(tenant, model) <= CacheKey(n) <==> tenant == n.tenant && model == n.model
  {
    if Prefix(tenant, model) <= CacheKey(n) {
      var rest := CacheKey(n)[|Prefix(tenant, model)|..];
      assert CacheKey(n) == tenant + [':'] + (model + [':'] + rest);
      assert CacheKey(n) == n.tenant + [':'] + (n.model + [':'] + (n.mode + [':'] + n.loras));
      FirstSplit(':', tenant, model + [':'] + rest, n.tenant, n.model + [':'] + (n.mode + [':'] + n.loras));
      FirstSplit(':', model, rest, n.model, n.mode + [':'] + n.loras);
    }
    if tenant == n.tenant && model == n.model {
      assert CacheKey(n) == Prefix(tenant, model) + (n.mode + [':'] + n.loras);
    }
  }

  /** The condition is needed: a colon in a tenant name makes its slots answer to another tenant's prefix. */
  lemma PrefixCrossesTenants(a: string, b: string, c: string, mode: string, loras: string)
    ensures Prefix(a, b + [':'] + c) <= CacheKey(SlotName(a + [':'] + b, c, mode, loras))
  {
    assert CacheKey(SlotName(a + [':'] + b, c, mode, loras)) == Prefix(a, b + [':'] + c) + (mode + [':'] + loras);
  }

  /** And a colon in a model id makes its slots answer to the prefix of the id before the colon. */
  lemma PrefixCrossesModels(a: string, b: string, c: string, mode: string, loras: string)
    ensures Prefix(a, b) <= CacheKey(SlotName(a, b + [':'] + c, mode, loras))
  {
    assert CacheKey(SlotName(a, b + [':'] + c, mode, loras)) == Prefix(a, b) + (c + [':'] + (mode + [':'] + loras));
  }

  /** Every slot sits under the key its own name spells. */
  predicate WellNamed(loaded: seq<Loaded>) {
    forall l :: l in loaded ==> l.key == CacheKey(l.name)
  }

  predicate PlainNames(loaded: seq<Loaded>) {
    WellNamed(loaded) && forall l :: l in loaded ==> ':' !in l.name.tenant && ':' !in l.name.model
  }

  /** What `ForceUnload` removes and keeps, and what `Snapshot` reports, in terms of the pair itself. */
  lemma PairExactly(loaded: seq<Loaded>, tenant: string, model: string)
    requires PlainNames(loaded) && ':' !in tenant && ':' !in model
    ensures forall l :: l in Selected(loaded, Prefix(tenant, model)) <==>
              l in loaded && l.name.tenant == tenant && l.name.model == model
    ensures forall l :: l in Rejected(loaded, Prefix(tenant, model)) <==>
              l in loaded && !(l.name.tenant == tenant && l.name.model == model)
    ensures FirstMatch(loaded, tenant, model).Some? <==>
              exists l :: l in loaded && l.name.tenant == tenant && l.name.model == model
    ensures var r := FirstMatch(loaded, tenant, model);
            r.Some? ==> r.value in loaded && r.value.name.tenant == tenant && r.value.name.model == model
  {
    SelectedHavePrefix(loaded, Prefix(tenant, model));
    FirstMatchHas(loaded, tenant, model);
    forall l | l in loaded
      ensures Prefix(tenant, model) <= l.key <==> l.name.tenant == tenant && l.name.model == model
    {
      PrefixIsPair(tenant, model, l.name);
    }
  }

  /** What `Snapshot` reports stands before every other slot of the pair. */
  lemma {:induction false} FirstMatchIsFirst(loaded: seq<Loaded>, tenant: string, model: string) returns (i: nat)
    requires PlainNames(loaded) && ':' !in tenant && ':' !in model && FirstMatch(loaded, tenant, model).Some?
    ensures i < |loaded| && loaded[i] == FirstMatch(loaded, tenant, model).value
    ensures forall j :: 0 <= j < i ==> !(loaded[j].name.tenant == tenant && loaded[j].name.model == model)
  {
    assert loaded[0] in loaded;
    PrefixIsPair(tenant, model, loaded[0].name);
    if Prefix(tenant, model) <= loaded[0].key && loaded[0].name.model == model {
      i := 0;
    } else {
      var rest := loaded[1..];
      assert forall l :: l in rest ==> l in loaded;
      i := FirstMatchIsFirst(rest, tenant, model);
      i := i + 1;
      assert forall j :: 0 < j < |loaded| ==> loaded[j] == rest[j - 1];
    }
  }

  lemma {:induction false} FirstMatchHas(loaded: seq<Loaded>, tenant: string, model: string)
    ensures var r := FirstMatch(loaded, tenant, model);
            && (r.Some? ==> r.value in loaded && Prefix(tenant, model) <= r.value.key && r.value.name.model == model)
            && (r.None? ==> forall l :: l in loaded ==> !(Prefix(tenant, model) <= l.key && l.name.model == model))
  {
    if loaded != [] {
      FirstMatchHas(loaded[1..], tenant, model);
      assert loaded == [loaded[0]] + loaded[1..];
    }
  }
}
