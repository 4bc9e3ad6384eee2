/** Forced unloads and the shutdown when nothing comes between: what they leave in the map and which backends they close. */
module ModelDrain {
  import opened ModelCache
  import opened ModelMachine
  import opened ModelBooks

  /** The call's unloads end one after the other. */
  function Drains(tid: nat, n: nat): (acts: seq<Action>)
    ensures |acts| == n
  {
    if n == 0 then [] else Drains(tid, n - 1) + [Drained(tid, true)]
  }

  /** The map after the first `i` of the selected slots. */
  ghost predicate UnloadedTo(c: Cache, d: Cache, prefix: string, i: nat) {
    var targets := Selected(c.loaded, prefix);
    && i <= |targets| && Unloading(c.loaded, targets[..i], d.loaded, targets[i..], prefix)
    && d.closed == c.closed + Backends(targets[..i]) && d.next == c.next
  }

  lemma UnloadStep(c: Cache, d: Cache, prefix: string, i: nat)
    requires UnloadedTo(c, d, prefix, i) && i < |Selected(c.loaded, prefix)|
    ensures UnloadedTo(c, Unload(d, Selected(c.loaded, prefix)[i]), prefix, i + 1)
  {
    var targets := Selected(c.loaded, prefix);
    var rest := targets[i..];
    assert rest[0] == targets[i] && rest[1..] == targets[i + 1..] && targets[..i + 1] == targets[..i] + [targets[i]];
    NextUnloaded(c.loaded, targets[..i], d.loaded, rest, prefix);
    BackendsSnoc(targets[..i], targets[i]);
  }

  ghost predicate DrainedTo(m: Machine, n: Machine, tid: nat, prefix: string, i: nat) {
    var targets := Selected(m.c.loaded, prefix);
    && UnloadedTo(m.c, n.c, prefix, i)
    && n.tasks == (if i < |targets| then m.tasks[tid := Draining(targets[i..])] else m.tasks - {tid})
    && n.closing == m.closing
  }

  lemma DrainStep(m: Machine, n: Machine, tid: nat, prefix: string, i: nat, g: Config)
    requires g.max >= 1 && DrainedTo(m, n, tid, prefix, i) && i < |Selected(m.c.loaded, prefix)|
    ensures DrainedTo(m, Step(n, Drained(tid, true), g), tid, prefix, i + 1)
  {
    var targets := Selected(m.c.loaded, prefix);
    UnloadStep(m.c, n.c, prefix, i);
    DrainTasks(m, n, tid, targets, i, g);
  }

  lemma DrainTasks(m: Machine, n: Machine, tid: nat, targets: seq<Loaded>, i: nat, g: Config)
    requires g.max >= 1 && i < |targets| && n.tasks == m.tasks[tid := Draining(targets[i..])]
    ensures var n' := Step(n, Drained(tid, true), g);
            && n'.c == Unload(n.c, targets[i]) && n'.closing == n.closing
            && n'.tasks == (if i + 1 < |targets| then m.tasks[tid := Draining(targets[i + 1..])] else m.tasks - {tid})
  {
    assert targets[i..][0] == targets[i] && targets[i..][1..] == targets[i + 1..];
  }

  lemma {:induction false} DrainRun(m: Machine, tid: nat, prefix: string, i: nat, g: Config)
    requires g.max >= 1 && i <= |Selected(m.c.loaded, prefix)|
    ensures DrainedTo(m, RunFrom(Drain(m, tid, Selected(m.c.loaded, prefix)), Drains(tid, i), g), tid, prefix, i)
  {
    var targets := Selected(m.c.loaded, prefix);
    if i == 0 {
      assert targets[..0] == [] && targets[0..] == targets && Backends([]) == [];
    } else {
      DrainRun(m, tid, prefix, i - 1, g);
      RunSnoc(Drain(m, tid, targets), Drains(tid, i - 1), Drained(tid, true), g);
      DrainStep(m, RunFrom(Drain(m, tid, targets), Drains(tid, i - 1), g), tid, prefix, i - 1, g);
    }
  }

  lemma DrainedOut(m: Machine, n: Machine, tid: nat, prefix: string)
    requires DrainedTo(m, n, tid, prefix, |Selected(m.c.loaded, prefix)|)
    ensures n.c.loaded == Rejected(m.c.loaded, prefix)
    ensures n.c.closed == m.c.closed + Backends(Selected(m.c.loaded, prefix)) && n.tasks == m.tasks - {tid}
  {
    var targets := Selected(m.c.loaded, prefix);
    assert targets[..|targets|] == targets && targets[|targets|..] == [];
    NothingSelected(n.c.loaded, prefix);
  }

  /** An undisturbed forced unload closes the pair's slots once each, in map order, and keeps all others. */
  lemma UndisturbedForce(m: Machine, tid: nat, tenant: string, model: string, g: Config)
    requires g.max >= 1 && tid !in m.tasks
    ensures var prefix := Prefix(tenant, model);
            var selected := Selected(m.c.loaded, prefix);
            var n := RunFrom(Step(m, Force(tid, tenant, model), g), Drains(tid, |selected|), g);
            && n.c.loaded == Rejected(m.c.loaded, prefix) && n.c.closed == m.c.closed + Backends(selected)
            && n.tasks == m.tasks
  {
    var prefix := Prefix(tenant, model);
    DrainRun(m, tid, prefix, |Selected(m.c.loaded, prefix)|, g);
    DrainedOut(m, RunFrom(Drain(m, tid, Selected(m.c.loaded, prefix)), Drains(tid, |Selected(m.c.loaded, prefix)|), g), tid, prefix);
    assert m.tasks - {tid} == m.tasks;
  }

  lemma {:induction false} AllSelected(loaded: seq<Loaded>)
    ensures Selected(loaded, "") == loaded && Rejected(loaded, "") == []
  {
    if loaded != [] {
      AllSelected(loaded[1..]);
      assert [loaded[0]] + loaded[1..] == loaded;
    }
  }

  /** An undisturbed shutdown empties the map and closes every resident backend once, oldest first. */
  lemma UndisturbedShutdown(m: Machine, tid: nat, g: Config)
    requires g.max >= 1 && tid !in m.tasks
    ensures var n := RunFrom(Step(m, Shutdown(tid), g), Drains(tid, |m.c.loaded|), g);
            && n.c.loaded == [] && n.c.closed == m.c.closed + Backends(m.c.loaded) && n.tasks == m.tasks && n.closing
  {
    AllSelected(m.c.loaded);
    var shut := m.(closing := true);
    assert Step(m, Shutdown(tid), g) == Drain(shut, tid, m.c.loaded);
    DrainRun(shut, tid, "", |m.c.loaded|, g);
    DrainedOut(shut, RunFrom(Drain(shut, tid, m.c.loaded), Drains(tid, |m.c.loaded|), g), tid, "");
    assert m.tasks - {tid} == m.tasks;
  }

  /** It does not keep later calls out: one for a missing key loads it again. */
  lemma LoadsAfterShutdown(m: Machine, tid: nat, r: Req, g: Config)
    requires g.max >= 1 && m.closing && m.c.loaded == [] && tid !in m.tasks && !Locked(m, Key(r))
    ensures var n := Step(m, Call(tid, r, true), g); |n.c.loaded| == 1 && n.c.loaded[0].name == r.name && n.closing
    ensures forall t, b :: Step(Step(m, Call(tid, r, true), g), Idle(t, b), g) == Step(m, Call(tid, r, true), g)
  {
  }
}
