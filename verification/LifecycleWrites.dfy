/** Which goroutines can still write to the store, and for how long. */
module LifecycleWrites {
  import opened Prelude
  import opened Lifecycle

  // ----- one goroutine

  function WritesBy(run: seq<Action>, g: nat): nat {
    if run == [] then 0 else (if run[0] == Write(g) then 1 else 0) + WritesBy(run[1..], g)
  }

  /** Launching only appends goroutines, all about to make their first tick. */
  lemma {:induction false} LaunchAllExtends(s: State, order: seq<string>)
    ensures var t := LaunchAll(s, order);
            && t == s.(gs := t.gs, running := t.running, wg := t.wg) && s.gs <= t.gs
            && t.running.Keys == s.running.Keys + (set n | n in order)
    ensures forall g | |s.gs| <= g < |LaunchAll(s, order).gs| ::
              LaunchAll(s, order).gs[g].pc == Ticking && LaunchAll(s, order).gs[g].name in order
    decreases |order|
  {
    if order != [] {
      LaunchAllExtends(Launch(s, order[0]), order[1..]);
      assert (set n | n in order) == {order[0]} + set n | n in order[1..];
    }
  }

  /** x became y in one step of its own or of another: never renamed or revived, cancellation is final, and
      only its own check moves it past the check. */
  predicate Follows(x: Goroutine, y: Goroutine, passes: bool, writes: bool) {
    && y.name == x.name && y.base == x.base && (x.cancelled ==> y.cancelled)
    && (y.pc == Passed ==> x.pc == Passed || passes)
    && (x.pc == Passed ==> y.pc == Passed || writes)
  }

  lemma CancelFollows(s: State, name: string, g: nat)
    requires g < |s.gs|
    ensures |CancelNamed(s, name).gs| == |s.gs| && Follows(s.gs[g], CancelNamed(s, name).gs[g], false, false)
    ensures CancelNamed(s, name) == s.(gs := CancelNamed(s, name).gs)
  {
  }

  lemma UpsertFollows(s: State, name: string, g: nat)
    requires g < |s.gs|
    ensures var t := Apply(s, Upsert(name));
            g < |t.gs| && Follows(s.gs[g], t.gs[g], false, false) && t.done == s.done
  {
    CancelFollows(s, name, g);
    hide CancelNamed, Follows;
    assert Apply(s, Upsert(name)).gs[g] == CancelNamed(s, name).gs[g];
  }

  lemma RemoveFollows(s: State, name: string, g: nat)
    requires g < |s.gs|
    ensures var t := Apply(s, RemoveLocked(name));
            g < |t.gs| && Follows(s.gs[g], t.gs[g], false, false) && t.done == s.done
  {
    CancelFollows(s, name, g);
    hide CancelNamed;
  }

  lemma StartFollows(s: State, ctx: nat, order: seq<string>, g: nat)
    requires g < |s.gs| && Enabled(s, Start(ctx, order))
    ensures var t := Apply(s, Start(ctx, order));
            g < |t.gs| && Follows(s.gs[g], t.gs[g], false, false) && t.done == s.done
  {
    LaunchAllExtends(Begin(s, ctx), order);
    hide LaunchAll;
  }

  lemma PcFollows(s: State, h: nat, pc: Pc, g: nat)
    requires h < |s.gs| && g < |s.gs|
    ensures var t := SetPc(s, h, pc);
            && g < |t.gs| && t.gs[g] == (if g == h then s.gs[g].(pc := pc) else s.gs[g])
            && t.done == s.done
  {
  }

  lemma StepEffect(s: State, a: Action, g: nat)
    requires Enabled(s, a) && g < |s.gs|
    ensures var t := Apply(s, a);
            && g < |t.gs| && Follows(s.gs[g], t.gs[g], a == PassCheck(g), a == Write(g))
            && s.done <= t.done
  {
    hide LaunchAll, Launch, Vacate, CancelNamed, SetPc;
    match a
    case Start(ctx, order) => StartFollows(s, ctx, order, g);
    case Upsert(name) => UpsertFollows(s, name, g);
    case RemoveLocked(name) => RemoveFollows(s, name, g);
    case BeginTick(h) => PcFollows(s, h, Ticking, g);
    case FailTick(h) => PcFollows(s, h, Idle, g);
    case PassCheck(h) => PcFollows(s, h, Passed, g);
    case Write(h) => PcFollows(s, h, Idle, g);
    case Exit(h) => PcFollows(s, h, Exited, g);
    case Panic(h) => PcFollows(s, h, Exited, g);
    case _ =>
  }

  /** From the moment a goroutine's context is done it completes at most one more store write, and that
      only if it was already past Put's context check. */
  lemma {:induction false} LateWrites(s: State, run: seq<Action>, g: nat)
    requires Legal(s, run) && g < |s.gs| && ContextDone(s, g)
    ensures WritesBy(run, g) <= if s.gs[g].pc == Passed then 1 else 0
    decreases |run|
  {
    if run != [] {
      StepEffect(s, run[0], g);
      if run[0] == Write(g) {
        AfterWrite(s, g);
      }
      hide Apply;
      LateWrites(Apply(s, run[0]), run[1..], g);
    }
  }

  lemma AfterWrite(s: State, g: nat)
    requires Enabled(s, Write(g))
    ensures Apply(s, Write(g)).gs[g].pc == Idle
  {
  }

  // ----- one name

  /** Goroutines of a name that are past Put's check with their write to come. */
  function InGap(gs: seq<Goroutine>, name: string): nat {
    if gs == [] then 0
    else InGap(gs[..|gs| - 1], name) + if Gap(gs[|gs| - 1], name) then 1 else 0
  }

  predicate Gap(x: Goroutine, name: string) {
    x.name == name && x.pc == Passed
  }

  lemma {:induction false} GapUpdate(gs: seq<Goroutine>, g: nat, x: Goroutine, name: string)
    requires g < |gs|
    ensures InGap(gs[g := x], name) == InGap(gs, name)
              - (if Gap(gs[g], name) then 1 else 0) + (if Gap(x, name) then 1 else 0)
    decreases |gs|
  {
    var n := |gs| - 1;
    if g < n {
      GapUpdate(gs[..n], g, x, name);
      assert gs[g := x][..n] == gs[..n][g := x];
    } else {
      assert gs[g := x][..n] == gs[..n];
    }
  }

  lemma {:induction false} GapExtend(gs: seq<Goroutine>, more: seq<Goroutine>, name: string)
    requires forall x | x in more :: !Gap(x, name)
    ensures InGap(gs + more, name) == InGap(gs, name)
    decreases |more|
  {
    if more == [] {
      assert gs + more == gs;
    } else {
      var n := |more| - 1;
      GapExtend(gs, more[..n], name);
      assert (gs + more)[..|gs| + n] == gs + more[..n];
    }
  }

  lemma {:induction false} GapWitness(gs: seq<Goroutine>, name: string) returns (g: nat)
    requires InGap(gs, name) > 0
    ensures g < |gs| && Gap(gs[g], name)
  {
    var n := |gs| - 1;
    if Gap(gs[n], name) {
      g := n;
    } else {
      g := GapWitness(gs[..n], name);
    }
  }

  /** The number of store writes under a name during a run. */
  function WritesTo(s: State, run: seq<Action>, name: string): nat
    requires Legal(s, run)
    decreases |run|
  {
    if run == [] then 0
    else
      (if run[0].Write? && s.gs[run[0].g].name == name then 1 else 0) + WritesTo(Apply(s, run[0]), run[1..], name)
  }

  predicate NoUpsert(run: seq<Action>, name: string) {
    forall i | 0 <= i < |run| :: run[i] != Upsert(name)
  }

  lemma CancelGap(s: State, other: string, name: string)
    requires Named(s)
    ensures InGap(CancelNamed(s, other).gs, name) == InGap(s.gs, name)
  {
    if other in s.running && s.running[other].Some? {
      var g := s.running[other].value;
      GapUpdate(s.gs, g, s.gs[g].(cancelled := true), name);
    }
  }

  lemma StartGap(s: State, ctx: nat, order: seq<string>, name: string)
    requires Enabled(s, Start(ctx, order)) && name !in s.running
    ensures var t := Apply(s, Start(ctx, order)); name !in t.running && InGap(t.gs, name) == InGap(s.gs, name)
  {
    LaunchAllExtends(Begin(s, ctx), order);
    hide LaunchAll, InGap;
    var t := Apply(s, Start(ctx, order));
    var more := t.gs[|s.gs|..];
    assert t.gs == s.gs + more;
    GapExtend(s.gs, more, name);
  }

  lemma UpsertGap(s: State, other: string, name: string)
    requires Named(s) && name !in s.running && other != name
    ensures var t := Apply(s, Upsert(other)); name !in t.running && InGap(t.gs, name) == InGap(s.gs, name)
  {
    CancelGap(s, other, name);
    var t := CancelNamed(s, other);
    assert t.running == s.running && t.base == s.base;
    hide CancelNamed, InGap;
    GapExtend(t.gs, [Goroutine(other, s.base, false, Ticking)], name);
  }

  lemma RemoveGap(s: State, other: string, name: string)
    requires Named(s) && name !in s.running
    ensures var t := Apply(s, RemoveLocked(other)); name !in t.running && InGap(t.gs, name) == InGap(s.gs, name)
  {
    CancelGap(s, other, name);
  }

  /** While a name is not registered, steps other than its Upsert keep it so, admit no goroutine of it
      past the check, and use up one gap per write. */
  lemma UnregisteredStep(s: State, a: Action, name: string)
    requires Named(s) && Exclusive(s) && Enabled(s, a) && name !in s.running && a != Upsert(name)
    ensures var t := Apply(s, a);
            && name !in t.running
            && InGap(t.gs, name) == InGap(s.gs, name) - (if a.Write? && s.gs[a.g].name == name then 1 else 0)
  {
    hide LaunchAll, InGap, CancelNamed, Launch, Vacate;
    match a
    case Start(ctx, order) => StartGap(s, ctx, order, name);
    case Upsert(other) => UpsertGap(s, other, name);
    case RemoveLocked(other) => RemoveGap(s, other, name);
    case RemoveDelete(other) =>
    case CancelBase(ctx) =>
    case Cleanup(stale) =>
    case BeginTick(g) => GapUpdate(s.gs, g, s.gs[g].(pc := Ticking), name);
    case FailTick(g) => GapUpdate(s.gs, g, s.gs[g].(pc := Idle), name);
    case PassCheck(g) => GapUpdate(s.gs, g, s.gs[g].(pc := Passed), name);
    case Write(g) => GapUpdate(s.gs, g, s.gs[g].(pc := Idle), name);
    case Exit(g) => GapUpdate(s.gs, g, s.gs[g].(pc := Exited), name);
    case Panic(g) => GapUpdate(s.gs, g, s.gs[g].(pc := Exited), name);
  }

  /** After Remove, until the name is upserted again, the writes under it are exactly the gaps used up:
      at most the goroutines caught between Put's check and its write. */
  lemma {:induction false} WritesAfterRemove(s: State, run: seq<Action>, name: string)
    requires Inv(s) && Legal(s, run) && CleanStarts(s, run) && name !in s.running && NoUpsert(run, name)
    ensures WritesTo(s, run, name) + InGap(Exec(s, run).gs, name) == InGap(s.gs, name)
    ensures name !in Exec(s, run).running
    decreases |run|
  {
    if run != [] {
      UnregisteredStep(s, run[0], name);
      InvStep(s, run[0]);
      assert NoUpsert(run[1..], name) by {
        assert forall i | 0 <= i < |run[1..]| :: run[1..][i] == run[i + 1];
      }
      hide Apply, Inv, InGap, Enabled, Clean;
      WritesAfterRemove(Apply(s, run[0]), run[1..], name);
    }
  }

  lemma StoreStep(s: State, a: Action, name: string)
    requires Enabled(s, a)
    ensures name in Apply(s, a).store ==> name in s.store || (a.Write? && s.gs[a.g].name == name)
  {
    if a.Start? {
      LaunchAllExtends(Begin(s, a.ctx), a.order);
    }
    hide LaunchAll;
  }

  lemma {:induction false} AbsentWithoutWrites(s: State, run: seq<Action>, name: string)
    requires Legal(s, run) && name !in s.store && WritesTo(s, run, name) == 0
    ensures name !in Exec(s, run).store
    decreases |run|
  {
    if run != [] {
      StoreStep(s, run[0], name);
      hide Apply;
      AbsentWithoutWrites(Apply(s, run[0]), run[1..], name);
    }
  }

  /** No run without an Upsert of the name brings its snapshot back. */
  ghost predicate GoneForGood(s: State, name: string) {
    forall run: seq<Action> | Legal(s, run) && CleanStarts(s, run) && NoUpsert(run, name) :: name !in Exec(s, run).store
  }

  /** An absent snapshot of an unregistered name stays absent exactly when no goroutine is in the gap. */
  lemma GoneIff(s: State, name: string)
    requires Inv(s) && name !in s.running && name !in s.store
    ensures GoneForGood(s, name) <==> InGap(s.gs, name) == 0
  {
    if InGap(s.gs, name) == 0 {
      forall run: seq<Action> | Legal(s, run) && CleanStarts(s, run) && NoUpsert(run, name)
        ensures name !in Exec(s, run).store
      {
        WritesAfterRemove(s, run, name);
        AbsentWithoutWrites(s, run, name);
      }
    } else {
      var g := GapWitness(s.gs, name);
      var run := [Write(g)];
      assert run[1..] == [];
      assert Enabled(s, Write(g)) && Legal(s, run) && CleanStarts(s, run) && NoUpsert(run, name);
      assert Exec(s, run) == Apply(s, Write(g));
    }
  }

  /** Once Remove has deleted the snapshot it stays deleted exactly when no goroutine of that name is
      caught in the gap: the delete outside the lock does not wait for one. */
  lemma RemoveSettles(s: State, name: string)
    requires Inv(s) && name !in s.running && Enabled(s, RemoveDelete(name))
    ensures GoneForGood(Apply(s, RemoveDelete(name)), name) <==> InGap(s.gs, name) == 0
  {
    hide InGap, GoneForGood;
    InvStep(s, RemoveDelete(name));
    GoneIff(Apply(s, RemoveDelete(name)), name);
  }

  // ----- a name that stays registered

  predicate NoRemove(run: seq<Action>, name: string) {
    forall i | 0 <= i < |run| :: run[i] != RemoveLocked(name)
  }

  lemma KeyStep(s: State, a: Action, name: string)
    requires Enabled(s, a) && name in s.store && name !in s.deletes && !s.ttl && a != RemoveLocked(name)
    ensures name in Apply(s, a).store && name !in Apply(s, a).deletes && !Apply(s, a).ttl
  {
    if a.Start? {
      LaunchAllExtends(Begin(s, a.ctx), a.order);
    }
    hide LaunchAll;
  }

  lemma {:induction false} KeyStays(s: State, run: seq<Action>, name: string)
    requires Legal(s, run) && NoRemove(run, name) && name in s.store && name !in s.deletes && !s.ttl
    ensures name in Exec(s, run).store
    decreases |run|
  {
    if run != [] {
      KeyStep(s, run[0], name);
      assert NoRemove(run[1..], name) by {
        assert forall i | 0 <= i < |run[1..]| :: run[1..][i] == run[i + 1];
      }
      hide Apply;
      KeyStays(Apply(s, run[0]), run[1..], name);
    }
  }

  ghost predicate SnapshotSafe(s: State, name: string) {
    forall run: seq<Action> | Legal(s, run) && NoRemove(run, name) :: name in Exec(s, run).store
  }

  /** A stored snapshot survives every run without a Remove of its name exactly when the store has no TTL
      and no earlier Remove of that name is still between its unlock and its store delete: such a delete
      hits the snapshot of a workload upserted in the meantime. */
  lemma SafeIff(s: State, name: string)
    requires name in s.store
    ensures SnapshotSafe(s, name) <==> !s.ttl && name !in s.deletes
  {
    if !s.ttl && name !in s.deletes {
      forall run: seq<Action> | Legal(s, run) && NoRemove(run, name) ensures name in Exec(s, run).store {
        KeyStays(s, run, name);
      }
    } else {
      var a := if s.ttl then Cleanup({name}) else RemoveDelete(name);
      assert Enabled(s, a) && name !in Apply(s, a).store;
      OneStep(s, a);
      assert NoRemove([a], name);
    }
  }

  lemma OneStep(s: State, a: Action)
    requires Enabled(s, a)
    ensures Legal(s, [a]) && Exec(s, [a]) == Apply(s, a)
    ensures Clean(s, a) ==> CleanStarts(s, [a])
  {
    hide Apply, Enabled, Clean;
    assert [a][1..] == [];
  }

  // ----- after Run returns

  lemma {:induction false} NoneLive(gs: seq<Goroutine>)
    requires LiveCount(gs) == 0
    ensures forall g | 0 <= g < |gs| :: gs[g].pc == Exited
  {
    if gs != [] {
      NoneLive(gs[..|gs| - 1]);
    }
  }

  predicate NoLaunch(run: seq<Action>) {
    forall i | 0 <= i < |run| :: !run[i].Start? && !run[i].Upsert?
  }

  predicate Quiet(s: State) {
    forall g | 0 <= g < |s.gs| :: s.gs[g].pc == Exited
  }

  lemma QuietStep(s: State, a: Action)
    requires Quiet(s) && Enabled(s, a) && !a.Start? && !a.Upsert?
    ensures Quiet(Apply(s, a)) && !a.Write?
  {
  }

  /** When the wait group is back at zero (which is when Run returns) every goroutine has exited, and no
      snapshot is written until something new is launched. */
  lemma {:induction false} QuietAfterRun(s: State, run: seq<Action>, name: string)
    requires Inv(s) && s.wg == 0 && Legal(s, run) && NoLaunch(run)
    ensures Quiet(s) && WritesTo(s, run, name) == 0
  {
    NoneLive(s.gs);
    QuietRun(s, run, name);
  }

  lemma {:induction false} QuietRun(s: State, run: seq<Action>, name: string)
    requires Quiet(s) && Legal(s, run) && NoLaunch(run)
    ensures WritesTo(s, run, name) == 0
    decreases |run|
  {
    if run != [] {
      QuietStep(s, run[0]);
      assert NoLaunch(run[1..]) by {
        assert forall i | 0 <= i < |run[1..]| :: run[1..][i] == run[i + 1];
      }
      hide Apply, Enabled;
      QuietRun(Apply(s, run[0]), run[1..], name);
    }
  }

  // ----- what Put lets through

  /** Goroutines a step adds are about to make their first tick. */
  lemma NewTicking(s: State, a: Action)
    requires Enabled(s, a)
    ensures forall h | |s.gs| <= h < |Apply(s, a).gs| :: Apply(s, a).gs[h].pc == Ticking
  {
    if a.Start? {
      LaunchAllExtends(Begin(s, a.ctx), a.order);
    }
    hide LaunchAll;
  }

  /** No snapshot is stored under the empty name, and none is about to be. */
  ghost predicate NoneUnnamed(s: State) {
    "" !in s.store && forall g | 0 <= g < |s.gs| :: s.gs[g].pc == Passed ==> s.gs[g].name != ""
  }

  lemma UnnamedStep(s: State, a: Action)
    requires NoneUnnamed(s) && Enabled(s, a)
    ensures NoneUnnamed(Apply(s, a))
  {
    StoreStep(s, a, "");
    NewTicking(s, a);
    var t := Apply(s, a);
    forall g | 0 <= g < |t.gs| ensures t.gs[g].pc == Passed ==> t.gs[g].name != "" {
      if g < |s.gs| {
        StepEffect(s, a, g);
        hide Apply;
      }
    }
  }

  lemma {:induction false} UnnamedRun(s: State, run: seq<Action>)
    requires NoneUnnamed(s) && Legal(s, run)
    ensures NoneUnnamed(Exec(s, run))
    decreases |run|
  {
    hide NoneUnnamed, Apply, Enabled;
    if run != [] {
      UnnamedStep(s, run[0]);
      UnnamedRun(Apply(s, run[0]), run[1..]);
    }
  }

  /** A waiting goroutine of a named workload whose context is not done can complete a tick: three steps of
      its own put its snapshot in the store. */
  lemma CanPublish(s: State, g: nat)
    requires At(s, g, Idle) && !ContextDone(s, g) && s.gs[g].name != ""
    ensures var run := [BeginTick(g), PassCheck(g), Write(g)];
            Legal(s, run) && Exec(s, run) == s.(store := s.store[s.gs[g].name := g])
  {
    var a, b, c := BeginTick(g), PassCheck(g), Write(g);
    var t := Apply(s, a);
    var u := Apply(t, b);
    assert Apply(u, c).gs == s.gs;
    OneStep(u, c);
    var run := [a, b, c];
    assert run[1..] == [b, c] && run[1..][1..] == [c];
    assert Legal(t, run[1..]) && Exec(t, run[1..]) == Exec(u, [c]);
  }
}
