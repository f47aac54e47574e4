/** Whose snapshot a registered workload has in the store. */
module LifecycleOwners {
  import opened Prelude
  import opened Lifecycle
  import opened LifecycleWrites

  /** g is registered under the name, and a stored snapshot of the name is its own. */
  ghost predicate Owns(s: State, name: string, g: nat) {
    name in s.running && s.running[name] == Some(g) && (name in s.store ==> s.store[name] == g)
  }

  /** A goroutine of the name other than g is past Put's check with its write to come. */
  ghost predicate OtherInGap(s: State, name: string, g: nat) {
    exists h | 0 <= h < |s.gs| :: h != g && Gap(s.gs[h], name)
  }

  /** The run neither replaces nor removes the name. */
  predicate LeavesAlone(run: seq<Action>, name: string) {
    NoUpsert(run, name) && NoRemove(run, name)
  }

  ghost predicate StaysOwned(s: State, name: string, g: nat) {
    forall run: seq<Action> | Legal(s, run) && CleanStarts(s, run) && LeavesAlone(run, name) ::
      Owns(Exec(s, run), name, g)
  }

  lemma EntryKept(s: State, a: Action, name: string)
    requires Enabled(s, a) && !a.Start? && a != Upsert(name) && a != RemoveLocked(name) && name in s.running
    ensures name in Apply(s, a).running && Apply(s, a).running[name] == s.running[name]
  {
  }

  lemma WriterKept(s: State, a: Action, name: string)
    requires Enabled(s, a) && !a.Start? && name in Apply(s, a).store
    ensures || (name in s.store && Apply(s, a).store[name] == s.store[name])
            || (a == Write(Apply(s, a).store[name]) && s.gs[a.g].name == name)
  {
  }

  /** Others of a registered name are cancelled, so none of them passes Put's check any more. */
  lemma GapStaysEmpty(s: State, a: Action, name: string, g: nat)
    requires Inv(s) && Owns(s, name, g) && !OtherInGap(s, name, g) && Enabled(s, a)
    ensures !OtherInGap(Apply(s, a), name, g)
  {
    var t := Apply(s, a);
    NewTicking(s, a);
    forall h | 0 <= h < |t.gs| && h != g ensures !Gap(t.gs[h], name) {
      if h < |s.gs| {
        assert !s.gs[h].cancelled <==> Registered(s, h);
        assert !Gap(s.gs[h], name);
        StepEffect(s, a, h);
        hide Apply, LiveCount;
      }
    }
  }

  lemma OwnsStep(s: State, a: Action, name: string, g: nat)
    requires Inv(s) && Owns(s, name, g) && !OtherInGap(s, name, g) && Enabled(s, a) && Clean(s, a)
    requires a != Upsert(name) && a != RemoveLocked(name)
    ensures Owns(Apply(s, a), name, g)
  {
    assert !a.Start?;
    EntryKept(s, a, name);
    if name in Apply(s, a).store {
      WriterKept(s, a, name);
    }
    hide Apply, LiveCount;
  }

  lemma {:induction false} OwnsRun(s: State, run: seq<Action>, name: string, g: nat)
    requires Inv(s) && Owns(s, name, g) && !OtherInGap(s, name, g)
    requires Legal(s, run) && CleanStarts(s, run) && LeavesAlone(run, name)
    ensures Owns(Exec(s, run), name, g)
    decreases |run|
  {
    hide Inv, Owns, OtherInGap, Apply, Enabled, Clean;
    if run != [] {
      OwnsStep(s, run[0], name, g);
      GapStaysEmpty(s, run[0], name, g);
      InvStep(s, run[0]);
      assert LeavesAlone(run[1..], name) by {
        assert forall i | 0 <= i < |run[1..]| :: run[1..][i] == run[i + 1];
      }
      OwnsRun(Apply(s, run[0]), run[1..], name, g);
    }
  }

  /** A registered goroutine's snapshot stays its own, in every run that leaves the registration alone,
      exactly when no other goroutine of its name is in the gap: an instance that Upsert replaced can
      still overwrite the snapshot of the one that replaced it. */
  lemma OwnedIff(s: State, name: string, g: nat)
    requires Inv(s) && Owns(s, name, g)
    ensures StaysOwned(s, name, g) <==> !OtherInGap(s, name, g)
  {
    hide Inv;
    if OtherInGap(s, name, g) {
      var h :| 0 <= h < |s.gs| && h != g && Gap(s.gs[h], name);
      OneStep(s, Write(h));
      assert Apply(s, Write(h)).store[name] == h;
      assert LeavesAlone([Write(h)], name);
    } else {
      forall run: seq<Action> | Legal(s, run) && CleanStarts(s, run) && LeavesAlone(run, name)
        ensures Owns(Exec(s, run), name, g)
      {
        OwnsRun(s, run, name, g);
      }
    }
  }
}
