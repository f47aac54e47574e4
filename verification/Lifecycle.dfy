/** cmd/forecaster/forecaster.go: the workload lifecycle as an interleaved step system. Calls under the
    mutex are single steps; Remove's store delete, which happens outside it, is a step of its own; each
    goroutine's tick is split at Put's context check. */
module Lifecycle {
  import opened Prelude

  /** A goroutine is waiting in its select, inside a tick before Put's context check, past that check
      with the write still to come, or gone. */
  datatype Pc = Idle | Ticking | Passed | Exited

  /** base is the context it was launched under. */
  datatype Goroutine = Goroutine(name: string, base: nat, cancelled: bool, pc: Pc)

  /** running maps each registered name to the goroutine its cancel function reaches, if launched.
      base is the context of the last Start, done the contexts that are over. store records which
      goroutine wrote each snapshot, ttl whether a cleanup may remove it. deletes are Remove calls between
      unlock and store delete. */
  datatype State = State(
    started: bool,
    base: nat,
    done: set<nat>,
    running: map<string, Option<nat>>,
    gs: seq<Goroutine>,
    wg: int,
    ttl: bool,
    store: map<string, nat>,
    deletes: multiset<string>)

  datatype Action =
    | Start(ctx: nat, order: seq<string>)
    | Upsert(name: string)
    | RemoveLocked(name: string)
    | RemoveDelete(name: string)
    | CancelBase(ctx: nat)
    | BeginTick(g: nat)
    | FailTick(g: nat)
    | PassCheck(g: nat)
    | Write(g: nat)
    | Exit(g: nat)
    | Panic(g: nat)
    | Cleanup(stale: set<string>)

  function Init(names: set<string>, ttl: bool): State {
    State(false, 0, {}, map n | n in names :: None, [], 0, ttl, map[], multiset{})
  }

  /** The goroutine's context is done: cancelled itself, or through its base context. */
  predicate ContextDone(s: State, g: nat)
    requires g < |s.gs|
  {
    s.gs[g].base in s.done || s.gs[g].cancelled
  }

  predicate Distinct(order: seq<string>) {
    forall i, j | 0 <= i < j < |order| :: order[i] != order[j]
  }

  predicate At(s: State, g: nat, pc: Pc) {
    g < |s.gs| && s.gs[g].pc == pc
  }

  predicate Enabled(s: State, a: Action) {
    match a
    case Start(ctx, order) => Distinct(order) && (set n | n in order) == s.running.Keys
    case Upsert(name) => true
    case RemoveLocked(name) => true
    case RemoveDelete(name) => name in s.deletes
    case CancelBase(ctx) => true
    case BeginTick(g) => At(s, g, Idle)
    case FailTick(g) => At(s, g, Ticking)
    case PassCheck(g) => At(s, g, Ticking) && !ContextDone(s, g) && s.gs[g].name != ""
    case Write(g) => At(s, g, Passed)
    case Exit(g) => At(s, g, Idle) && ContextDone(s, g)
    case Panic(g) => At(s, g, Ticking)
    case Cleanup(stale) => s.ttl
  }

  /** A fresh goroutine, whose first tick starts at once. */
  function Launch(s: State, name: string): State {
    s.(gs := s.gs + [Goroutine(name, s.base, false, Ticking)],
       running := s.running[name := Some(|s.gs|)],
       wg := s.wg + 1)
  }

  function LaunchAll(s: State, order: seq<string>): State
    decreases |order|
  {
    if order == [] then s else LaunchAll(Launch(s, order[0]), order[1..])
  }

  function SetPc(s: State, g: nat, pc: Pc): State
    requires g < |s.gs|
  {
    s.(gs := s.gs[g := s.gs[g].(pc := pc)])
  }

  /** Call the cancel function stored under a name, if there is one. */
  function CancelNamed(s: State, name: string): State {
    if name in s.running && s.running[name].Some? && s.running[name].value < |s.gs| then
      var g := s.running[name].value;
      s.(gs := s.gs[g := s.gs[g].(cancelled := true)])
    else s
  }

  /** Cancel what is registered under a name and leave its entry without a goroutine. */
  function Vacate(s: State, name: string): State {
    var t := CancelNamed(s, name);
    t.(running := t.running[name := None])
  }

  function Begin(s: State, ctx: nat): State {
    s.(started := true, base := ctx)
  }

  function Apply(s: State, a: Action): State
    requires Enabled(s, a)
  {
    match a
    case Start(ctx, order) => LaunchAll(Begin(s, ctx), order)
    case Upsert(name) => if s.started then Launch(Vacate(s, name), name) else Vacate(s, name)
    case RemoveLocked(name) =>
      if name in s.running then
        var t := CancelNamed(s, name);
        t.(running := t.running - {name}, deletes := t.deletes + multiset{name})
      else s
    case RemoveDelete(name) => s.(deletes := s.deletes - multiset{name}, store := s.store - {name})
    case CancelBase(ctx) => s.(done := s.done + {ctx})
    case BeginTick(g) => SetPc(s, g, Ticking)
    case FailTick(g) => SetPc(s, g, Idle)
    case PassCheck(g) => SetPc(s, g, Passed)
    case Write(g) => SetPc(s, g, Idle).(store := s.store[s.gs[g].name := g])
    case Exit(g) => SetPc(s, g, Exited).(wg := s.wg - 1)
    case Panic(g) => SetPc(s, g, Exited).(wg := s.wg - 1)
    case Cleanup(stale) => s.(store := s.store - stale)
  }

  predicate Legal(s: State, run: seq<Action>)
    decreases |run|
  {
    run == [] || (Enabled(s, run[0]) && Legal(Apply(s, run[0]), run[1..]))
  }

  function Exec(s: State, run: seq<Action>): State
    requires Legal(s, run)
    decreases |run|
  {
    if run == [] then s else Exec(Apply(s, run[0]), run[1..])
  }

  /** A Start that finds nothing running: the first, or a later one with no workload registered. */
  predicate Clean(s: State, a: Action) {
    a.Start? && s.started ==> s.running == map[]
  }

  predicate CleanStarts(s: State, run: seq<Action>)
    requires Legal(s, run)
    decreases |run|
  {
    run == [] || (Clean(s, run[0]) && CleanStarts(Apply(s, run[0]), run[1..]))
  }

  // ----- the invariant

  function LiveCount(gs: seq<Goroutine>): nat {
    if gs == [] then 0
    else LiveCount(gs[..|gs| - 1]) + if gs[|gs| - 1].pc == Exited then 0 else 1
  }

  /** g is the goroutine registered under its own name. */
  predicate Registered(s: State, g: nat)
    requires g < |s.gs|
  {
    s.gs[g].name in s.running && s.running[s.gs[g].name] == Some(g)
  }

  /** Every launched entry points at a goroutine of its own name. */
  ghost predicate Named(s: State) {
    forall n | n in s.running && s.running[n].Some? ::
      s.running[n].value < |s.gs| && s.gs[s.running[n].value].name == n
  }

  /** Exactly the entries outside `todo` have been launched. */
  ghost predicate Pending(s: State, todo: set<string>) {
    forall n | n in s.running :: s.running[n].Some? <==> n !in todo
  }

  /** The goroutines that are not cancelled are the registered ones. */
  ghost predicate Exclusive(s: State) {
    forall g | 0 <= g < |s.gs| :: !s.gs[g].cancelled <==> Registered(s, g)
  }

  /** Snapshots sit under the name of the goroutine that wrote them. */
  ghost predicate Signed(s: State) {
    forall k | k in s.store :: s.store[k] < |s.gs| && s.gs[s.store[k]].name == k
  }

  /** After Start, each registered name has exactly one goroutine that is not cancelled, the one in the
      map; all others are cancelled. The wait group counts goroutines that have not exited. */
  ghost predicate Inv(s: State) {
    && Named(s) && Exclusive(s) && Signed(s) && s.wg == LiveCount(s.gs)
    && Pending(s, if s.started then {} else s.running.Keys)
    && (!s.started ==> s.gs == [])
  }

  lemma {:induction false} LiveUpdate(gs: seq<Goroutine>, g: nat, x: Goroutine)
    requires g < |gs|
    ensures LiveCount(gs[g := x]) == LiveCount(gs)
              - (if gs[g].pc == Exited then 0 else 1) + (if x.pc == Exited then 0 else 1)
    decreases |gs|
  {
    var n := |gs| - 1;
    if g < n {
      LiveUpdate(gs[..n], g, x);
      assert gs[g := x][..n] == gs[..n][g := x];
    } else {
      assert gs[g := x][..n] == gs[..n];
    }
  }

  lemma LiveAppend(gs: seq<Goroutine>, x: Goroutine)
    ensures LiveCount(gs + [x]) == LiveCount(gs) + (if x.pc == Exited then 0 else 1)
  {
    assert (gs + [x])[..|gs|] == gs;
  }

  // ----- launching

  /** Launching keeps the invariant as far as names already launched go. */
  ghost predicate Launching(s: State, todo: set<string>) {
    && s.started && Named(s) && Exclusive(s) && Signed(s) && s.wg == LiveCount(s.gs)
    && Pending(s, todo) && todo <= s.running.Keys
  }

  lemma LaunchOne(s: State, todo: set<string>, name: string)
    requires Launching(s, todo) && name in todo
    ensures Launching(Launch(s, name), todo - {name})
  {
    var t := Launch(s, name);
    LiveAppend(s.gs, Goroutine(name, s.base, false, Ticking));
    hide LiveCount;
    assert forall g | 0 <= g < |s.gs| :: t.gs[g] == s.gs[g];
    assert Exclusive(t) by {
      forall g | 0 <= g < |t.gs| ensures !t.gs[g].cancelled <==> Registered(t, g) {
        if g < |s.gs| {
          assert !s.gs[g].cancelled <==> Registered(s, g);
        }
      }
    }
  }

  lemma {:induction false} LaunchAllKeeps(s: State, order: seq<string>)
    requires Distinct(order) && Launching(s, set n | n in order)
    ensures Launching(LaunchAll(s, order), {})
    decreases |order|
  {
    hide Launching;
    var todo := set n | n in order;
    if order == [] {
      assert todo == {};
    } else {
      LaunchOne(s, todo, order[0]);
      assert todo - {order[0]} == set n | n in order[1..];
      LaunchAllKeeps(Launch(s, order[0]), order[1..]);
    }
  }

  // ----- cancelling

  /** Cancelling a name's goroutine leaves everything else as it was. */
  ghost predicate CancelledIn(s: State, t: State, name: string) {
    && t == s.(gs := t.gs) && |t.gs| == |s.gs| && LiveCount(t.gs) == LiveCount(s.gs)
    && (forall g | 0 <= g < |s.gs| :: t.gs[g] == s.gs[g].(cancelled := t.gs[g].cancelled))
    && (forall g | 0 <= g < |s.gs| ::
         t.gs[g].cancelled <==> s.gs[g].cancelled || (Registered(s, g) && s.gs[g].name == name))
  }

  lemma CancelKeeps(s: State, name: string)
    requires Named(s)
    ensures CancelledIn(s, CancelNamed(s, name), name)
  {
    if name in s.running && s.running[name].Some? {
      var g := s.running[name].value;
      LiveUpdate(s.gs, g, s.gs[g].(cancelled := true));
    }
  }

  /** Replacing or dropping the entry of a cancelled name keeps all parts of the invariant. */
  lemma EntryChanged(s: State, t: State, name: string, u: State)
    requires Named(s) && Exclusive(s) && Signed(s) && CancelledIn(s, t, name)
    requires u == t.(running := u.running, deletes := u.deletes)
    requires u.running == s.running[name := None] || u.running == s.running - {name}
    ensures Named(u) && Exclusive(u) && Signed(u)
  {
    hide LiveCount;
    assert forall n | n in u.running && n != name :: n in s.running && u.running[n] == s.running[n];
    assert Named(u) by {
      assert forall g | 0 <= g < |s.gs| :: t.gs[g].name == s.gs[g].name;
    }
    assert Exclusive(u) by {
      forall g | 0 <= g < |u.gs| ensures !u.gs[g].cancelled <==> Registered(u, g) {
        assert !s.gs[g].cancelled <==> Registered(s, g);
        assert u.gs[g].name == s.gs[g].name;
      }
    }
  }

  lemma InvUpsert(s: State, name: string)
    requires Inv(s)
    ensures Inv(Apply(s, Upsert(name)))
  {
    CancelKeeps(s, name);
    var t, u := CancelNamed(s, name), Vacate(s, name);
    hide LiveCount, CancelNamed, Launch;
    EntryChanged(s, t, name, u);
    if s.started {
      hide Named, Exclusive, Signed;
      assert Launching(u, {name});
      LaunchOne(u, {name}, name);
      assert {name} - {name} == {};
    }
  }

  lemma InvRemove(s: State, name: string)
    requires Inv(s)
    ensures Inv(Apply(s, RemoveLocked(name)))
  {
    if name in s.running {
      CancelKeeps(s, name);
      hide LiveCount, CancelNamed;
      EntryChanged(s, CancelNamed(s, name), name, Apply(s, RemoveLocked(name)));
      hide Named, Exclusive, Signed, Registered;
    }
  }

  // ----- the other steps

  /** Moving one goroutine, with the wait group following, keeps the invariant. */
  lemma InvSetPc(s: State, g: nat, pc: Pc)
    requires Inv(s) && g < |s.gs|
    ensures var t := SetPc(s, g, pc);
            Inv(t.(wg := t.wg - (if s.gs[g].pc == Exited then 0 else 1) + (if pc == Exited then 0 else 1)))
  {
    LiveUpdate(s.gs, g, s.gs[g].(pc := pc));
    hide LiveCount;
    var t := SetPc(s, g, pc);
    PcMarks(s, g, pc);
    assert Exclusive(t) by {
      forall h | 0 <= h < |t.gs| ensures !t.gs[h].cancelled <==> Registered(t, h) {
        assert !s.gs[h].cancelled <==> Registered(s, h);
      }
    }
  }

  /** So does any change of the store that keeps snapshots signed, and any change of the contexts. */
  lemma InvAside(s: State, t: State)
    requires Inv(s) && Signed(t)
    requires t == s.(store := t.store, deletes := t.deletes, done := t.done, base := t.base)
    ensures Inv(t)
  {
    hide LiveCount;
    assert Exclusive(t) by {
      assert forall g | 0 <= g < |s.gs| :: Registered(t, g) <==> Registered(s, g);
    }
  }

  lemma InvWrite(s: State, g: nat)
    requires Inv(s) && Enabled(s, Write(g))
    ensures Inv(Apply(s, Write(g)))
  {
    InvSetPc(s, g, Idle);
    hide LiveCount;
    InvAside(SetPc(s, g, Idle), Apply(s, Write(g)));
  }

  lemma NothingToLaunch(s: State, order: seq<string>)
    requires (set n | n in order) == s.running.Keys
    ensures order != [] ==> s.running != map[]
  {
    if order != [] {
      assert order[0] in (set n | n in order);
      assert order[0] in s.running;
    }
  }

  lemma InvStart(s: State, ctx: nat, order: seq<string>)
    requires Inv(s) && Enabled(s, Start(ctx, order)) && Clean(s, Start(ctx, order))
    ensures Inv(Apply(s, Start(ctx, order)))
  {
    if s.started {
      NothingToLaunch(s, order);
      InvAside(s, Begin(s, ctx));
    } else {
      hide LaunchAll;
      LaunchAllKeeps(Begin(s, ctx), order);
    }
  }

  lemma InvStep(s: State, a: Action)
    requires Inv(s) && Enabled(s, a) && Clean(s, a)
    ensures Inv(Apply(s, a))
  {
    match a
    case Start(ctx, order) => InvStart(s, ctx, order);
    case Upsert(name) => InvUpsert(s, name);
    case RemoveLocked(name) => InvRemove(s, name);
    case RemoveDelete(name) => InvAside(s, Apply(s, a));
    case CancelBase(ctx) => InvAside(s, Apply(s, a));
    case BeginTick(g) => InvSetPc(s, g, Ticking);
    case FailTick(g) => InvSetPc(s, g, Idle);
    case PassCheck(g) => InvSetPc(s, g, Passed);
    case Write(g) => InvWrite(s, g);
    case Exit(g) => InvSetPc(s, g, Exited);
    case Panic(g) => InvSetPc(s, g, Exited);
    case Cleanup(stale) => InvAside(s, Apply(s, a));
  }

  lemma {:induction false} InvRun(s: State, run: seq<Action>)
    requires Inv(s) && Legal(s, run) && CleanStarts(s, run)
    ensures Inv(Exec(s, run))
    decreases |run|
  {
    hide Inv, Enabled, Apply, Clean;
    if run != [] {
      InvStep(s, run[0]);
      InvRun(Apply(s, run[0]), run[1..]);
    }
  }

  lemma InvInit(names: set<string>, ttl: bool)
    ensures Inv(Init(names, ttl))
  {
  }

  /** The lifecycle theorem: in every state reachable by interleaved steps with clean Starts, a registered
      name has exactly one goroutine that is not cancelled, and it is the one in the map. */
  lemma OneGoroutinePerName(names: set<string>, ttl: bool, run: seq<Action>)
    requires Legal(Init(names, ttl), run) && CleanStarts(Init(names, ttl), run)
    ensures var s := Exec(Init(names, ttl), run);
            && Inv(s)
            && (s.started ==> forall n | n in s.running ::
                 && s.running[n].Some? && s.running[n].value < |s.gs|
                 && forall g | 0 <= g < |s.gs| && s.gs[g].name == n :: !s.gs[g].cancelled <==> g == s.running[n].value)
            && (forall g | 0 <= g < |s.gs| && s.gs[g].name !in s.running :: s.gs[g].cancelled)
  {
    InvInit(names, ttl);
    InvRun(Init(names, ttl), run);
    hide Exec, Legal, CleanStarts, LiveCount;
  }

  // ----- and no weaker assumption on Start will do

  /** A goroutine that is not cancelled although it is not the registered one: nothing can stop it. */
  ghost predicate Orphaned(s: State, g: nat) {
    g < |s.gs| && !s.gs[g].cancelled && !Registered(s, g)
  }

  lemma {:induction false} RelaunchedLate(s: State, order: seq<string>, g: nat)
    requires Named(s) && g < |s.gs|
    ensures var t := LaunchAll(s, order);
            && Named(t) && g < |t.gs| && t.gs[g] == s.gs[g]
            && (Registered(t, g) ==> Registered(s, g) && s.gs[g].name !in order)
    decreases |order|
  {
    if order != [] {
      var t := Launch(s, order[0]);
      assert t.gs[g] == s.gs[g];
      RelaunchedLate(t, order[1..], g);
    }
  }

  /** A second Start with a workload registered leaves that workload's earlier goroutine orphaned. */
  lemma DirtyStart(s: State, ctx: nat, order: seq<string>) returns (g: nat)
    requires Inv(s) && Enabled(s, Start(ctx, order)) && !Clean(s, Start(ctx, order))
    ensures Orphaned(Apply(s, Start(ctx, order)), g)
  {
    assert s.running.Keys != {};
    var n :| n in s.running;
    assert n in (set m | m in order);
    g := s.running[n].value;
    assert Registered(s, g);
    hide LaunchAll, LiveCount;
    RelaunchedLate(Begin(s, ctx), order, g);
  }

  /** Orphans stay: cancel functions reach registered goroutines only. */
  lemma OrphanStep(s: State, a: Action, g: nat)
    requires Named(s) && Orphaned(s, g) && Enabled(s, a)
    ensures Named(Apply(s, a)) && Orphaned(Apply(s, a), g)
  {
    match a
    case Start(ctx, order) =>
      hide LaunchAll;
      RelaunchedLate(Begin(s, ctx), order, g);
    case Upsert(name) => OrphanEntry(s, name, Vacate(s, name), g);
    case RemoveLocked(name) =>
      if name in s.running {
        OrphanEntry(s, name, Apply(s, a), g);
      }
    case _ =>
      MarksKept(s, a);
      hide Apply;
  }

  lemma OrphanEntry(s: State, name: string, u: State, g: nat)
    requires Named(s) && Orphaned(s, g)
    requires var t := CancelNamed(s, name); u == t.(running := u.running, deletes := u.deletes)
    requires u.running == s.running[name := None] || u.running == s.running - {name}
    ensures Named(u) && Orphaned(u, g)
    ensures Named(Launch(u, name)) && Orphaned(Launch(u, name), g)
  {
    CancelKeeps(s, name);
    hide CancelNamed, LiveCount;
    assert u.gs[g].name == s.gs[g].name;
    assert Launch(u, name).gs[g] == u.gs[g];
  }

  /** Same goroutines, as far as names and cancellation go. */
  ghost predicate SameMarks(s: State, t: State) {
    && t.running == s.running && |t.gs| == |s.gs|
    && forall h | 0 <= h < |s.gs| :: t.gs[h].name == s.gs[h].name && t.gs[h].cancelled == s.gs[h].cancelled
  }

  /** The other steps neither cancel nor register anything. */
  lemma MarksKept(s: State, a: Action)
    requires Enabled(s, a) && !a.Start? && !a.Upsert? && !a.RemoveLocked?
    ensures SameMarks(s, Apply(s, a))
  {
    match a
    case BeginTick(g) => PcMarks(s, g, Ticking);
    case FailTick(g) => PcMarks(s, g, Idle);
    case PassCheck(g) => PcMarks(s, g, Passed);
    case Write(g) => PcMarks(s, g, Idle);
    case Exit(g) => PcMarks(s, g, Exited);
    case Panic(g) => PcMarks(s, g, Exited);
    case _ =>
  }

  lemma PcMarks(s: State, g: nat, pc: Pc)
    requires g < |s.gs|
    ensures SameMarks(s, SetPc(s, g, pc))
  {
  }

  lemma {:induction false} OrphanRun(s: State, run: seq<Action>, g: nat)
    requires Named(s) && Orphaned(s, g) && Legal(s, run)
    ensures Orphaned(Exec(s, run), g)
    decreases |run|
  {
    hide Named, Orphaned, Enabled, Apply;
    if run != [] {
      OrphanStep(s, run[0], g);
      OrphanRun(Apply(s, run[0]), run[1..], g);
    }
  }

  lemma OrphanBreaks(s: State, g: nat)
    requires Orphaned(s, g)
    ensures !Inv(s)
  {
    hide LiveCount;
  }

  /** One Start keeps the invariant exactly when it is the first or finds nothing registered. */
  lemma StartIff(s: State, ctx: nat, order: seq<string>)
    requires Inv(s) && Enabled(s, Start(ctx, order))
    ensures Inv(Apply(s, Start(ctx, order))) <==> !s.started || s.running == map[]
  {
    if Clean(s, Start(ctx, order)) {
      InvStep(s, Start(ctx, order));
    } else {
      var g := DirtyStart(s, ctx, order);
      hide Apply, Orphaned, Inv;
      OrphanBreaks(Apply(s, Start(ctx, order)), g);
    }
  }

  /** The invariant survives a run exactly when every Start in it was clean. */
  lemma {:induction false} InvRunIff(s: State, run: seq<Action>)
    requires Inv(s) && Legal(s, run)
    ensures Inv(Exec(s, run)) <==> CleanStarts(s, run)
    decreases |run|
  {
    if run != [] {
      var t := Apply(s, run[0]);
      if Clean(s, run[0]) {
        InvStep(s, run[0]);
        hide Inv, Apply, Enabled, Clean;
        InvRunIff(t, run[1..]);
      } else {
        var g := DirtyStart(s, run[0].ctx, run[0].order);
        NamedStep(s, run[0]);
        hide Inv, Apply, Enabled, Named, Orphaned;
        OrphanRun(t, run[1..], g);
        OrphanBreaks(Exec(t, run[1..]), g);
      }
    }
  }

  lemma NamedStep(s: State, a: Action)
    requires Inv(s) && Enabled(s, a) && a.Start? && s.running != map[] && s.started
    ensures Named(Apply(s, a))
  {
    assert s.running.Keys != {};
    var n :| n in s.running;
    hide LaunchAll, LiveCount;
    RelaunchedLate(Begin(s, a.ctx), a.order, s.running[n].value);
  }
}
