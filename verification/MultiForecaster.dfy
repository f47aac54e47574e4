/** cmd/forecaster/forecaster.go: the MultiForecaster object. Its methods are the locked steps of the
    lifecycle; the goroutines it launches appear as entries of `goroutines`. */
module MultiForecaster {
  import opened Prelude
  import opened Lifecycle

  lemma {:induction false} LaunchAllAppend(s: State, order: seq<string>, name: string)
    ensures LaunchAll(s, order + [name]) == Launch(LaunchAll(s, order), name)
    decreases |order|
  {
    hide Launch;
    if order == [] {
      assert order + [name] == [name] && [name][1..] == [];
    } else {
      assert (order + [name])[1..] == order[1..] + [name];
      LaunchAllAppend(Launch(s, order[0]), order[1..], name);
    }
  }

  class MultiForecaster {
    var started: bool
    var base: nat
    var done: set<nat>
    var running: map<string, Option<nat>>
    var goroutines: seq<Goroutine>
    var wg: int
    const ttl: bool
    var store: map<string, nat>
    var deletes: multiset<string>

    function View(): State
      reads this
    {
      State(started, base, done, running, goroutines, wg, ttl, store, deletes)
    }

    /** Registers the initial workloads; a repeated name keeps one entry. */
    constructor (names: seq<string>, ttl: bool)
      ensures View() == Init((set n | n in names), ttl) && Inv(View())
    {
      this.ttl := ttl;
      started, base, done, goroutines, wg, store, deletes := false, 0, {}, [], 0, map[], multiset{};
      var registered: map<string, Option<nat>> := map[];
      for i := 0 to |names|
        invariant registered == map n | n in names[..i] :: None
      {
        registered := registered[names[i] := None];
      }
      running := registered;
      assert names[..|names|] == names;
    }

    method Launch(name: string)
      requires started
      modifies this
      ensures View() == Lifecycle.Launch(old(View()), name)
    {
      running := running[name := Some(|goroutines|)];
      wg := wg + 1;
      goroutines := goroutines + [Goroutine(name, base, false, Ticking)];
    }

    /** Launches every registered workload, in whatever order the map yields them. Nothing stops a second
        call, which keeps the invariant exactly when no workload is registered. */
    method Start(ctx: nat) returns (ghost order: seq<string>)
      modifies this
      ensures Enabled(old(View()), Action.Start(ctx, order)) && View() == Apply(old(View()), Action.Start(ctx, order))
      ensures old(Inv(View())) ==> (Inv(View()) <==> !old(started) || old(running) == map[])
    {
      hide Inv, LaunchAll, Lifecycle.Launch;
      ghost var s0 := View();
      started, base := true, ctx;
      ghost var s1 := View();
      order := [];
      var pending := running.Keys;
      assert LaunchAll(s1, []) == s1 by { LaunchNone(s1); }
      while pending != {}
        invariant started && View() == LaunchAll(s1, order)
        invariant Distinct(order)
        invariant pending !! (set n | n in order) && pending + (set n | n in order) == s0.running.Keys
      {
        var name :| name in pending;
        LaunchAllAppend(s1, order, name);
        LaunchKeepsStarted(LaunchAll(s1, order), name);
        Launch(name);
        order := order + [name];
        pending := pending - {name};
      }
      if Inv(s0) {
        StartIff(s0, ctx, order);
      }
    }

    method CancelExisting(name: string)
      modifies this`goroutines
      ensures View() == CancelNamed(old(View()), name)
    {
      if name in running && running[name].Some? && running[name].value < |goroutines| {
        var g := running[name].value;
        goroutines := goroutines[g := goroutines[g].(cancelled := true)];
      }
    }

    method Upsert(name: string)
      modifies this
      ensures View() == Apply(old(View()), Action.Upsert(name))
      ensures old(Inv(View())) ==> Inv(View())
    {
      hide Inv, CancelNamed;
      ghost var s0 := View();
      CancelExisting(name);
      running := running[name := None];
      if started {
        Launch(name);
      }
      if Inv(s0) {
        InvStep(s0, Action.Upsert(name));
      }
    }

    /** The part of Remove under the lock. */
    method RemoveLocked(name: string) returns (ok: bool)
      modifies this
      ensures ok == (name in old(running))
      ensures View() == Apply(old(View()), Action.RemoveLocked(name))
      ensures old(Inv(View())) ==> Inv(View())
    {
      hide Inv, CancelNamed;
      ghost var s0 := View();
      ok := name in running;
      if ok {
        CancelKeepsRunning(s0, name);
        CancelExisting(name);
        running := running - {name};
        deletes := deletes + multiset{name};
      }
      if Inv(s0) {
        InvStep(s0, Action.RemoveLocked(name));
      }
    }

    /** The part of Remove after the unlock, run only when the name was registered. */
    method RemoveDelete(name: string)
      requires name in deletes
      modifies this
      ensures View() == Apply(old(View()), Action.RemoveDelete(name))
      ensures old(Inv(View())) ==> Inv(View())
    {
      hide Inv;
      ghost var s0, s1 := View(), Apply(View(), Action.RemoveDelete(name));
      store := store - {name};
      deletes := deletes - multiset{name};
      assert View() == s1;
      if Inv(s0) {
        InvStep(s0, Action.RemoveDelete(name));
      }
    }
  }

  lemma LaunchNone(s: State)
    ensures LaunchAll(s, []) == s
  {
  }

  lemma LaunchKeepsStarted(s: State, name: string)
    ensures Launch(s, name).started == s.started
  {
  }

  lemma CancelKeepsRunning(s: State, name: string)
    ensures CancelNamed(s, name).running == s.running
  {
  }
}
