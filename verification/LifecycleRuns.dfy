/** Runs that reach the failing side of the lifecycle's exact conditions. */
module LifecycleRuns {
  import opened Prelude
  import opened Lifecycle
  import opened LifecycleWrites
  import opened LifecycleOwners

  /** One more step at the end of a run. */
  lemma {:induction false} Extend(s: State, run: seq<Action>, a: Action)
    requires Legal(s, run) && Enabled(Exec(s, run), a)
    ensures Legal(s, run + [a]) && Exec(s, run + [a]) == Apply(Exec(s, run), a)
    ensures CleanStarts(s, run + [a]) <==> CleanStarts(s, run) && Clean(Exec(s, run), a)
    decreases |run|
  {
    hide Apply, Enabled, Clean;
    if run == [] {
      assert run + [a] == [a] && [a][1..] == [];
    } else {
      Extend(Apply(s, run[0]), run[1..], a);
      assert (run + [a])[0] == run[0] && (run + [a])[1..] == run[1..] + [a];
    }
  }

  /** From a fresh forecaster, the run is legal, clean and ends in t. */
  ghost predicate Reaches(name: string, run: seq<Action>, t: State) {
    var s := Init({name}, false);
    Legal(s, run) && CleanStarts(s, run) && Exec(s, run) == t
  }

  lemma Next(name: string, run: seq<Action>, t: State, a: Action)
    requires Reaches(name, run, t) && Enabled(t, a) && Clean(t, a)
    ensures Reaches(name, run + [a], Apply(t, a))
  {
    hide Apply, Enabled, Clean, Init;
    Extend(Init({name}, false), run, a);
  }

  lemma StartSingle(s: State, name: string)
    requires s.running.Keys == {name}
    ensures Enabled(s, Start(0, [name])) && Apply(s, Start(0, [name])) == Launch(Begin(s, 0), name)
  {
    assert (set n | n in [name]) == {name};
    assert [name][1..] == [];
    assert LaunchAll(Launch(Begin(s, 0), name), []) == Launch(Begin(s, 0), name);
  }

  /** One workload, started, its first goroutine at the given point. */
  function Running(name: string, pc: Pc): State {
    State(true, 0, {}, map[name := Some(0)], [Goroutine(name, 0, false, pc)], 1, false, map[], multiset{})
  }

  lemma StartReached(name: string)
    ensures Reaches(name, [Start(0, [name])], Running(name, Ticking))
  {
    var s := Init({name}, false);
    assert s.running.Keys == {name};
    StartSingle(s, name);
    OneStep(s, Start(0, [name]));
  }

  lemma CheckReached(name: string)
    requires name != ""
    ensures Reaches(name, [Start(0, [name]), PassCheck(0)], Running(name, Passed))
  {
    StartReached(name);
    Next(name, [Start(0, [name])], Running(name, Ticking), PassCheck(0));
    assert [Start(0, [name])] + [PassCheck(0)] == [Start(0, [name]), PassCheck(0)];
  }

  /** A second Start leaves an earlier goroutine that no later call can cancel. */
  lemma SecondStart(name: string)
    ensures var s, a := Running(name, Ticking), Start(0, [name]);
            Reaches(name, [a], s) && Enabled(s, a) && !Clean(s, a) && Orphaned(Apply(s, a), 0)
  {
    StartReached(name);
    StartSingle(Running(name, Ticking), name);
  }

  /** Remove finds the goroutine past Put's check: its write can follow the delete. */
  lemma LateWriteReached(name: string) returns (run: seq<Action>, s: State)
    requires name != ""
    ensures Reaches(name, run, s)
    ensures name !in s.running && Enabled(s, RemoveDelete(name)) && InGap(s.gs, name) == 1
  {
    CheckReached(name);
    var t := Running(name, Passed);
    Next(name, [Start(0, [name]), PassCheck(0)], t, RemoveLocked(name));
    run, s := [Start(0, [name]), PassCheck(0)] + [RemoveLocked(name)], Apply(t, RemoveLocked(name));
    assert s.gs == [Goroutine(name, 0, true, Passed)];
    assert InGap(s.gs, name) == 1 by {
      assert s.gs[..0] == [];
    }
  }

  /** Upsert replaces a goroutine past Put's check: it can overwrite its successor's snapshot. */
  lemma OverwriteReached(name: string) returns (run: seq<Action>, s: State)
    requires name != ""
    ensures Reaches(name, run, s)
    ensures Owns(s, name, 1) && OtherInGap(s, name, 1)
  {
    CheckReached(name);
    var t := Running(name, Passed);
    Next(name, [Start(0, [name]), PassCheck(0)], t, Upsert(name));
    run, s := [Start(0, [name]), PassCheck(0)] + [Upsert(name)], Apply(t, Upsert(name));
    assert s.gs == [Goroutine(name, 0, true, Passed), Goroutine(name, 0, false, Ticking)];
    assert Gap(s.gs[0], name);
  }

  /** Remove and Upsert of one name, with the delete of the Remove still to come. */
  function Replaced(name: string, pc: Pc, store: map<string, nat>): State {
    State(true, 0, {}, map[name := Some(1)],
          [Goroutine(name, 0, true, Ticking), Goroutine(name, 0, false, pc)], 2, false, store, multiset{name})
  }

  lemma ReplacedReached(name: string)
    ensures Reaches(name, [Start(0, [name]), RemoveLocked(name), Upsert(name)], Replaced(name, Ticking, map[]))
  {
    StartReached(name);
    var t := Running(name, Ticking);
    Next(name, [Start(0, [name])], t, RemoveLocked(name));
    var u := Apply(t, RemoveLocked(name));
    assert u == State(true, 0, {}, map[], [Goroutine(name, 0, true, Ticking)], 1, false, map[], multiset{name});
    var run := [Start(0, [name])] + [RemoveLocked(name)];
    Next(name, run, u, Upsert(name));
    assert run + [Upsert(name)] == [Start(0, [name]), RemoveLocked(name), Upsert(name)];
    assert Apply(u, Upsert(name)) == Replaced(name, Ticking, map[]);
  }

  /** The new workload has stored its snapshot before the old Remove deletes it. */
  lemma LateDeleteReached(name: string) returns (run: seq<Action>, s: State)
    requires name != ""
    ensures Reaches(name, run, s)
    ensures name in s.running && name in s.store && name in s.deletes && !s.ttl
  {
    ReplacedReached(name);
    var t, u := Replaced(name, Ticking, map[]), Replaced(name, Passed, map[]);
    run := [Start(0, [name]), RemoveLocked(name), Upsert(name)];
    assert Apply(t, PassCheck(1)) == u;
    Next(name, run, t, PassCheck(1));
    Next(name, run + [PassCheck(1)], u, Write(1));
    run, s := run + [PassCheck(1)] + [Write(1)], Apply(u, Write(1));
  }
}
