/** pkg/storage/memory.go: Stop against the cleanup goroutine, for any number of concurrent Stop callers. */
module StopHandshake {

  /** Where a Stop caller is: before the lock, holding it before the stopped check, waiting on
      cleanupDone after closing stopCleanup, about to set stopped, or back. */
  datatype Caller = Entering | Locked | Waiting | Finishing | Returned

  /** Where the cleanup goroutine is: in its select, inside cleanup, past the return, or gone. */
  datatype Cleaner = Selecting | Cleaning | Exiting | Done

  datatype Lock = Free | Held(holder: nat)

  /** Channel closes are counted: closing a closed channel is a panic. */
  datatype State = State(
    callers: seq<Caller>, cleaner: Cleaner, lock: Lock,
    stopCloses: nat, doneCloses: nat, stopped: bool, cleanups: nat)

  datatype Action =
    | Acquire(i: nat)
    | SeeStopped(i: nat)
    | CloseStop(i: nat)
    | SeeDone(i: nat)
    | Finish(i: nat)
    | TickerFires
    | FinishCleanup
    | SeeStop
    | CloseDone

  function Init(n: nat): State {
    State(seq(n, _ => Entering), Selecting, Free, 0, 0, false, 0)
  }

  predicate At(s: State, i: nat, pc: Caller) {
    i < |s.callers| && s.callers[i] == pc
  }

  predicate Enabled(s: State, a: Action) {
    match a
    case Acquire(i) => At(s, i, Entering) && s.lock.Free?
    case SeeStopped(i) => At(s, i, Locked) && s.stopped
    case CloseStop(i) => At(s, i, Locked) && !s.stopped
    case SeeDone(i) => At(s, i, Waiting) && s.doneCloses > 0
    case Finish(i) => At(s, i, Finishing)
    case TickerFires => s.cleaner.Selecting?
    case FinishCleanup => s.cleaner.Cleaning?
    case SeeStop => s.cleaner.Selecting? && s.stopCloses > 0
    case CloseDone => s.cleaner.Exiting?
  }

  function Apply(s: State, a: Action): State
    requires Enabled(s, a)
  {
    match a
    case Acquire(i) => s.(callers := s.callers[i := Locked], lock := Held(i))
    case SeeStopped(i) => s.(callers := s.callers[i := Returned], lock := Free)
    case CloseStop(i) => s.(callers := s.callers[i := Waiting], stopCloses := s.stopCloses + 1)
    case SeeDone(i) => s.(callers := s.callers[i := Finishing])
    case Finish(i) => s.(callers := s.callers[i := Returned], stopped := true, lock := Free)
    case TickerFires => s.(cleaner := Cleaning)
    case FinishCleanup => s.(cleaner := Selecting, cleanups := s.cleanups + 1)
    case SeeStop => s.(cleaner := Exiting)
    case CloseDone => s.(cleaner := Done, doneCloses := s.doneCloses + 1)
  }

  /** Every interleaving: each action enabled where it happens. */
  predicate Legal(s: State, run: seq<Action>)
    decreases |run|
  {
    run == [] || (Enabled(s, run[0]) && Legal(Apply(s, run[0]), run[1..]))
  }

  function Exec(s: State, run: seq<Action>): State
    requires Legal(s, run)
    decreases |run|
  {
    if run == [] then s else Exec(Apply(s, run[0]), run[1..])
  }

  predicate Inside(c: Caller) {
    c.Locked? || c.Waiting? || c.Finishing?
  }

  /** The stop channel has been closed: by a finished Stop, or by the caller now holding the lock. */
  predicate StopSignalled(s: State) {
    || s.stopped
    || (s.lock.Held? && (At(s, s.lock.holder, Waiting) || At(s, s.lock.holder, Finishing)))
  }

  predicate Inv(s: State) {
    && (s.lock.Held? ==> s.lock.holder < |s.callers|)
    && (forall i | 0 <= i < |s.callers| :: Inside(s.callers[i]) <==> s.lock == Held(i))
    && s.stopCloses == (if StopSignalled(s) then 1 else 0)
    && s.doneCloses == (if s.cleaner.Done? then 1 else 0)
    && (s.cleaner.Exiting? || s.cleaner.Done? ==> StopSignalled(s))
    && (s.stopped ==> s.cleaner.Done?)
    && (s.lock.Held? && s.callers[s.lock.holder].Finishing? ==> s.cleaner.Done?)
    && (s.stopped && s.lock.Held? ==> s.callers[s.lock.holder].Locked?)
    && (forall i | 0 <= i < |s.callers| :: s.callers[i].Returned? ==> s.stopped)
  }

  lemma InvStep(s: State, a: Action)
    requires Inv(s) && Enabled(s, a)
    ensures Inv(Apply(s, a))
  {
  }

  lemma {:induction false} InvRun(s: State, run: seq<Action>)
    requires Inv(s) && Legal(s, run)
    ensures Inv(Exec(s, run))
    decreases |run|
  {
    hide Inv;
    if run != [] {
      InvStep(s, run[0]);
      InvRun(Apply(s, run[0]), run[1..]);
    }
  }

  predicate SomeReturned(s: State) {
    exists i | 0 <= i < |s.callers| :: s.callers[i].Returned?
  }

  /** In every interleaving of any number of Stop callers with the cleanup goroutine, each channel is
      closed at most once, and once any Stop has returned the goroutine is gone. */
  lemma Safety(n: nat, run: seq<Action>)
    requires Legal(Init(n), run)
    ensures var s := Exec(Init(n), run);
            && s.stopCloses <= 1 && s.doneCloses <= 1
            && (SomeReturned(s) ==> s.cleaner.Done? && s.stopped)
  {
    InvRun(Init(n), run);
  }

  /** Once the cleanup goroutine is gone no run performs another cleanup. */
  lemma {:induction false} NoCleanupAfterDone(s: State, run: seq<Action>)
    requires s.cleaner.Done? && Legal(s, run)
    ensures Exec(s, run).cleaner.Done? && Exec(s, run).cleanups == s.cleanups
    decreases |run|
  {
    if run != [] {
      NoCleanupAfterDone(Apply(s, run[0]), run[1..]);
    }
  }

  lemma {:induction false} ExecAppend(s: State, run: seq<Action>, more: seq<Action>)
    requires Legal(s, run + more)
    ensures Legal(s, run) && Legal(Exec(s, run), more)
    ensures Exec(s, run + more) == Exec(Exec(s, run), more)
    decreases |run|
  {
    if run == [] {
      assert run + more == more;
    } else {
      assert (run + more)[1..] == run[1..] + more;
      ExecAppend(Apply(s, run[0]), run[1..], more);
    }
  }

  /** No cleanup runs after any Stop has returned. */
  lemma NoCleanupAfterStop(n: nat, run: seq<Action>, more: seq<Action>)
    requires Legal(Init(n), run + more)
    ensures Legal(Init(n), run)
    ensures SomeReturned(Exec(Init(n), run)) ==> Exec(Init(n), run + more).cleanups == Exec(Init(n), run).cleanups
  {
    ExecAppend(Init(n), run, more);
    Safety(n, run);
    if SomeReturned(Exec(Init(n), run)) {
      NoCleanupAfterDone(Exec(Init(n), run), more);
    }
  }

  // ----- no deadlock

  function CallerRank(c: Caller): nat {
    match c
    case Entering => 4
    case Locked => 3
    case Waiting => 2
    case Finishing => 1
    case Returned => 0
  }

  function CallersRank(cs: seq<Caller>): nat {
    if cs == [] then 0 else CallersRank(cs[..|cs| - 1]) + CallerRank(cs[|cs| - 1])
  }

  function CleanerRank(c: Cleaner): nat {
    match c
    case Cleaning => 3
    case Selecting => 2
    case Exiting => 1
    case Done => 0
  }

  /** Work left before every Stop is back, cleanups not yet begun aside. */
  function Rank(s: State): nat {
    CallersRank(s.callers) + CleanerRank(s.cleaner)
  }

  lemma {:induction false} CallersRankUpdate(cs: seq<Caller>, i: nat, c: Caller)
    requires i < |cs|
    ensures CallersRank(cs[i := c]) == CallersRank(cs) - CallerRank(cs[i]) + CallerRank(c)
    decreases |cs|
  {
    var n := |cs| - 1;
    if i < n {
      CallersRankUpdate(cs[..n], i, c);
      assert cs[i := c][..n] == cs[..n][i := c];
    } else {
      assert cs[i := c][..n] == cs[..n];
    }
  }

  /** Every action but a ticker firing leaves less work. */
  lemma RankDecreases(s: State, a: Action)
    requires Enabled(s, a) && !a.TickerFires?
    ensures Rank(Apply(s, a)) < Rank(s)
  {
    hide CallersRank;
    match a
    case Acquire(i) => CallersRankUpdate(s.callers, i, Locked);
    case SeeStopped(i) => CallersRankUpdate(s.callers, i, Returned);
    case CloseStop(i) => CallersRankUpdate(s.callers, i, Waiting);
    case SeeDone(i) => CallersRankUpdate(s.callers, i, Finishing);
    case Finish(i) => CallersRankUpdate(s.callers, i, Returned);
    case FinishCleanup =>
    case SeeStop =>
    case CloseDone =>
  }

  predicate AllReturned(s: State) {
    forall i | 0 <= i < |s.callers| :: s.callers[i].Returned?
  }

  /** Until every Stop is back, some action other than a ticker firing is enabled. */
  lemma NoDeadlock(s: State) returns (a: Action)
    requires Inv(s) && !AllReturned(s)
    ensures Enabled(s, a) && !a.TickerFires?
  {
    if s.lock.Free? {
      var i :| 0 <= i < |s.callers| && !s.callers[i].Returned?;
      assert !Inside(s.callers[i]);
      a := Acquire(i);
    } else {
      var i := s.lock.holder;
      assert Inside(s.callers[i]);
      match s.callers[i]
      case Locked => a := if s.stopped then SeeStopped(i) else CloseStop(i);
      case Finishing => a := Finish(i);
      case Waiting =>
        match s.cleaner
        case Done => a := SeeDone(i);
        case Exiting => a := CloseDone;
        case Selecting => a := SeeStop;
        case Cleaning => a := FinishCleanup;
    }
  }

  /** So from every reachable state all Stop callers can return, in at most Rank steps. */
  lemma {:induction false} StopCanFinish(s: State) returns (run: seq<Action>)
    requires Inv(s)
    ensures Legal(s, run) && AllReturned(Exec(s, run)) && |run| <= Rank(s)
    decreases Rank(s)
  {
    hide Inv, Rank, AllReturned;
    run := [];
    if !AllReturned(s) {
      var a := NoDeadlock(s);
      InvStep(s, a);
      RankDecreases(s, a);
      var rest := StopCanFinish(Apply(s, a));
      run := [a] + rest;
      assert run[1..] == rest;
    }
  }

  // ----- what the counters count

  function Closes(run: seq<Action>): nat {
    if run == [] then 0 else (if run[0].CloseStop? then 1 else 0) + Closes(run[1..])
  }

  function DoneCloses(run: seq<Action>): nat {
    if run == [] then 0 else (if run[0].CloseDone? then 1 else 0) + DoneCloses(run[1..])
  }

  function Cleanups(run: seq<Action>): nat {
    if run == [] then 0 else (if run[0].FinishCleanup? then 1 else 0) + Cleanups(run[1..])
  }

  /** The counters are the channel closes and the cleanups of the run. */
  lemma {:induction false} CountersMatch(s: State, run: seq<Action>)
    requires Legal(s, run)
    ensures var t := Exec(s, run);
            && t.stopCloses == s.stopCloses + Closes(run)
            && t.doneCloses == s.doneCloses + DoneCloses(run)
            && t.cleanups == s.cleanups + Cleanups(run)
    decreases |run|
  {
    if run != [] {
      CountersMatch(Apply(s, run[0]), run[1..]);
    }
  }
}
