/** How the lifecycle ends: what cancelling a base context reaches, and that Run can return. */
module LifecycleEnds {
  import opened Lifecycle
  import opened LifecycleWrites

  predicate NoStart(run: seq<Action>) {
    forall i | 0 <= i < |run| :: !run[i].Start?
  }

  /** Every goroutine from index n on was launched under ctx. */
  ghost predicate LaunchedUnder(s: State, n: nat, ctx: nat) {
    forall g | n <= g < |s.gs| :: s.gs[g].base == ctx
  }

  lemma {:induction false} LaunchAllUnder(s: State, order: seq<string>, n: nat)
    requires LaunchedUnder(s, n, s.base)
    ensures LaunchedUnder(LaunchAll(s, order), n, s.base) && LaunchAll(s, order).base == s.base
    decreases |order|
  {
    if order != [] {
      LaunchAllUnder(Launch(s, order[0]), order[1..], n);
    }
  }

  /** Start launches under the context it is given. */
  lemma StartUnder(s: State, ctx: nat, order: seq<string>)
    requires Enabled(s, Start(ctx, order))
    ensures var t := Apply(s, Start(ctx, order)); t.base == ctx && LaunchedUnder(t, |s.gs|, ctx)
  {
    hide LaunchAll;
    LaunchAllUnder(Begin(s, ctx), order, |s.gs|);
  }

  /** Upsert launches under the context of the last Start; nothing else launches or changes it. */
  lemma StepUnder(s: State, a: Action, n: nat)
    requires Enabled(s, a) && !a.Start? && n <= |s.gs| && LaunchedUnder(s, n, s.base)
    ensures var t := Apply(s, a); t.base == s.base && n <= |t.gs| && LaunchedUnder(t, n, s.base)
  {
    var t := Apply(s, a);
    StepBase(s, a);
    forall g | n <= g < |t.gs| ensures t.gs[g].base == s.base {
      if g < |s.gs| {
        StepEffect(s, a, g);
        hide Apply;
      }
    }
  }

  lemma StepBase(s: State, a: Action)
    requires Enabled(s, a) && !a.Start?
    ensures var t := Apply(s, a);
            t.base == s.base && |s.gs| <= |t.gs| && LaunchedUnder(t, |s.gs|, s.base)
  {
  }

  lemma {:induction false} RunUnder(s: State, run: seq<Action>, n: nat)
    requires Legal(s, run) && NoStart(run) && n <= |s.gs| && LaunchedUnder(s, n, s.base)
    ensures Exec(s, run).base == s.base && LaunchedUnder(Exec(s, run), n, s.base)
    decreases |run|
  {
    hide LaunchedUnder, Apply, Enabled;
    if run != [] {
      StepUnder(s, run[0], n);
      assert NoStart(run[1..]) by {
        assert forall i | 0 <= i < |run[1..]| :: run[1..][i] == run[i + 1];
      }
      RunUnder(Apply(s, run[0]), run[1..], n);
    }
  }

  /** Cancelling a base context reaches every goroutine its Start launched and every one that Upsert
      launched since, up to the next Start. */
  lemma CancelReaches(s: State, ctx: nat, order: seq<string>, run: seq<Action>, g: nat)
    requires Enabled(s, Start(ctx, order)) && Legal(Apply(s, Start(ctx, order)), run) && NoStart(run)
    requires var t := Exec(Apply(s, Start(ctx, order)), run); |s.gs| <= g < |t.gs|
    ensures ContextDone(Apply(Exec(Apply(s, Start(ctx, order)), run), CancelBase(ctx)), g)
  {
    StartUnder(s, ctx, order);
    StartGrows(s, ctx, order);
    var u := Apply(s, Start(ctx, order));
    RunUnder(u, run, |s.gs|);
    var t := Exec(u, run);
    assert t.gs[g].base == ctx;
    hide Exec, LaunchAll;
  }

  lemma StartGrows(s: State, ctx: nat, order: seq<string>)
    requires Enabled(s, Start(ctx, order))
    ensures |s.gs| <= |Apply(s, Start(ctx, order)).gs|
  {
    LaunchAllExtends(Begin(s, ctx), order);
    hide LaunchAll;
  }

  // ----- draining

  function PcRank(pc: Pc): nat {
    match pc
    case Exited => 0
    case Idle => 1
    case Ticking => 2
    case Passed => 2
  }

  /** Steps left until every goroutine has exited. */
  function Rank(gs: seq<Goroutine>): nat {
    if gs == [] then 0 else Rank(gs[..|gs| - 1]) + PcRank(gs[|gs| - 1].pc)
  }

  lemma {:induction false} RankUpdate(gs: seq<Goroutine>, g: nat, x: Goroutine)
    requires g < |gs|
    ensures Rank(gs[g := x]) == Rank(gs) - PcRank(gs[g].pc) + PcRank(x.pc)
    decreases |gs|
  {
    var n := |gs| - 1;
    if g < n {
      RankUpdate(gs[..n], g, x);
      assert gs[g := x][..n] == gs[..n][g := x];
    } else {
      assert gs[g := x][..n] == gs[..n];
    }
  }

  lemma {:induction false} LiveWitness(gs: seq<Goroutine>) returns (g: nat)
    requires LiveCount(gs) > 0
    ensures g < |gs| && gs[g].pc != Exited
  {
    var n := |gs| - 1;
    if gs[n].pc != Exited {
      g := n;
    } else {
      g := LiveWitness(gs[..n]);
    }
  }

  ghost predicate AllDone(s: State) {
    forall g | 0 <= g < |s.gs| && s.gs[g].pc != Exited :: ContextDone(s, g)
  }

  /** The step that brings goroutine g closer to its exit: a tick ends, with or without its write, and an
      idle goroutine whose context is done exits. */
  function Winding(s: State, g: nat): Action
    requires g < |s.gs| && s.gs[g].pc != Exited
  {
    match s.gs[g].pc
    case Idle => Exit(g)
    case Ticking => FailTick(g)
    case Passed => Write(g)
  }

  lemma WindingStep(s: State, g: nat)
    requires AllDone(s) && g < |s.gs| && s.gs[g].pc != Exited
    ensures var a := Winding(s, g);
            && Enabled(s, a) && !a.Start? && !a.Upsert?
            && AllDone(Apply(s, a)) && Rank(Apply(s, a).gs) < Rank(s.gs)
  {
    var pc := if s.gs[g].pc == Idle then Exited else Idle;
    assert ContextDone(s, g);
    assert Enabled(s, Winding(s, g));
    assert Apply(s, Winding(s, g)).gs == SetPc(s, g, pc).gs && Apply(s, Winding(s, g)).done == s.done;
    RankUpdate(s.gs, g, s.gs[g].(pc := pc));
    hide Rank, Apply;
    DoneKept(s, g, pc, Apply(s, Winding(s, g)));
  }

  lemma DoneKept(s: State, g: nat, pc: Pc, t: State)
    requires AllDone(s) && g < |s.gs| && s.gs[g].pc != Exited && t.gs == SetPc(s, g, pc).gs && t.done == s.done
    ensures AllDone(t)
  {
    forall h | 0 <= h < |t.gs| && t.gs[h].pc != Exited ensures ContextDone(t, h) {
      assert ContextDone(s, h);
    }
  }

  lemma NoLaunchFirst(a: Action, rest: seq<Action>)
    requires NoLaunch(rest) && !a.Start? && !a.Upsert?
    ensures NoLaunch([a] + rest)
  {
  }

  /** Once every context is done, the goroutines can all exit, by at most Rank steps of their own. */
  lemma {:induction false} Drains(s: State) returns (run: seq<Action>)
    requires Inv(s) && AllDone(s)
    ensures Legal(s, run) && NoLaunch(run) && Exec(s, run).wg == 0 && |run| <= Rank(s.gs)
    decreases Rank(s.gs)
  {
    if s.wg == 0 {
      run := [];
    } else {
      var g := LiveWitness(s.gs);
      var a := Winding(s, g);
      WindingStep(s, g);
      InvStep(s, a);
      hide Inv, AllDone, Apply, Enabled, Winding, Rank, NoLaunch;
      var rest := Drains(Apply(s, a));
      NoLaunchFirst(a, rest);
      run := [a] + rest;
      assert run[0] == a && run[1..] == rest;
    }
  }

  /** Run can return: started once, with its context cancelled at any later point, the wait group can come
      back to zero without any further call. */
  lemma RunReturns(names: set<string>, ttl: bool, ctx: nat, order: seq<string>, run: seq<Action>)
      returns (more: seq<Action>)
    requires Enabled(Init(names, ttl), Start(ctx, order))
    requires Legal(Apply(Init(names, ttl), Start(ctx, order)), run) && NoStart(run)
    ensures var s := Apply(Exec(Apply(Init(names, ttl), Start(ctx, order)), run), CancelBase(ctx));
            Legal(s, more) && NoLaunch(more) && Exec(s, more).wg == 0
  {
    var s0 := Init(names, ttl);
    InvInit(names, ttl);
    assert Clean(s0, Start(ctx, order)) && |s0.gs| == 0;
    InvStep(s0, Start(ctx, order));
    var u := Apply(s0, Start(ctx, order));
    CleanWithoutStart(u, run);
    InvRun(u, run);
    var t := Exec(u, run);
    InvStep(t, CancelBase(ctx));
    var s := Apply(t, CancelBase(ctx));
    assert s.gs == t.gs;
    forall g | 0 <= g < |s.gs| ensures ContextDone(s, g) {
      CancelReaches(s0, ctx, order, run, g);
    }
    hide Inv, Apply, Exec, Enabled, Legal;
    more := Drains(s);
  }

  lemma {:induction false} CleanWithoutStart(s: State, run: seq<Action>)
    requires Legal(s, run) && NoStart(run)
    ensures CleanStarts(s, run)
    decreases |run|
  {
    hide Apply, Enabled;
    if run != [] {
      assert NoStart(run[1..]) by {
        assert forall i | 0 <= i < |run[1..]| :: run[1..][i] == run[i + 1];
      }
      CleanWithoutStart(Apply(s, run[0]), run[1..]);
    }
  }
}
