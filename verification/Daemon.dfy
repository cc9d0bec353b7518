/**
 The connsel process (connsel_main.c): a main thread that initialises the interfaces, starts the
 daemon thread and waits, a daemon thread that runs the interfaces pass after pass, and one signal
 that arrives at the main thread at any time after the thread was created.  All interleavings of
 the two threads are covered; thread cancellation is deferred, as it is by default.

 The signal handler runs on top of main()'s own pthread_join of the daemon thread and joins the same
 thread again.  Two overlapping joins of one thread are undefined by POSIX; an implementation may
 let the second one wait, or return an error at once, which the handler does not look at.  The
 parameter `joinWaits` says which.
 */
module Daemon {
  import opened Seqs

  datatype Iface = Iface(hasInit: bool, hasRun: bool, hasDeinit: bool)

  /** The calls of the hooks, and the returns of the run hooks. */
  datatype Event = Init(i: nat) | Run(i: nat) | RunEnd(i: nat) | Deinit(i: nat) | RemoveInstance

  datatype Thread =
    | NotCreated
    | Disable            // about to disable cancellation
    | Pass(i: nat)       // about to look at interface i
    | InRun(i: nat)      // inside the run hook of interface i, which has cancellation points
    | Enable             // about to enable cancellation
    | TestCancel
    | Sleep              // in usleep, a cancellation point
    | Dead

  datatype Main =
    | Initialising(i: nat)
    | Creating
    | Waiting            // from creation on, in pthread_join
    | Cancelling         // the handler, before pthread_cancel
    | Joining            // the handler, in pthread_join
    | Deiniting(left: nat)
    | Removing           // the handler, before connsel_removeInstance
    | AfterWait          // main() itself past its join
    | Exited(code: int)

  /** removed: connsel_removeInstance was called. */
  datatype State = State(main: Main, thread: Thread, enabled: bool, pending: bool, removed: bool,
                         log: seq<Event>, passes: nat, passesAtCancel: nat)

  // ---------- the steps ----------

  predicate Start(s: State) {
    s == State(Initialising(0), NotCreated, true, false, false, [], 0, 0)
  }

  predicate Alive(s: State) { !s.main.Exited? }

  predicate MainStep(t: seq<Iface>, joinWaits: bool, s: State, s': State) {
    match s.main
    case Initialising(i) =>
      if i < |t| then s' == s.(main := Initialising(i + 1), log := s.log + if t[i].hasInit then [Init(i)] else [])
      else s' == s.(main := Creating)
    case Creating => s' == s.(main := Waiting, thread := Disable)
    case Waiting =>
      || (s.thread == Dead && s' == s.(main := AfterWait))
      || s' == s.(main := Cancelling)                      // SIGINT, SIGTERM, SIGQUIT or SIGHUP
      || s' == s.(main := Exited(1))                       // SIGSEGV
    case Cancelling => s' == s.(main := Joining, pending := true, passesAtCancel := s.passes)
    case Joining => (joinWaits ==> s.thread == Dead) && s' == s.(main := Deiniting(|t|))
    case Deiniting(left) =>
      if left > 0 then
        left <= |t| && s' == s.(main := Deiniting(left - 1),
                                log := s.log + if t[left - 1].hasDeinit then [Deinit(left - 1)] else [])
      else s' == s.(main := Removing)
    case Removing => s' == s.(main := Exited(0), removed := true, log := s.log + [RemoveInstance])
    case AfterWait => false
    case Exited(_) => false
  }

  predicate ThreadStep(t: seq<Iface>, s: State, s': State) {
    match s.thread
    case NotCreated => false
    case Disable => s' == s.(thread := Pass(0), enabled := false)
    case Pass(i) =>
      if i >= |t| then s' == s.(thread := Enable, passes := s.passes + 1)
      else if t[i].hasRun then s' == s.(thread := InRun(i), log := s.log + [Run(i)])
      else s' == s.(thread := Pass(i + 1))
    case InRun(i) =>
      || (s.pending && s.enabled && s' == s.(thread := Dead))   // cancelled inside the hook
      || s' == s.(thread := Pass(i + 1), log := s.log + [RunEnd(i)])
    case Enable => s' == s.(thread := TestCancel, enabled := true)
    case TestCancel => s' == s.(thread := if s.pending && s.enabled then Dead else Sleep)
    case Sleep => s' == s.(thread := if s.pending && s.enabled then Dead else Disable)
    case Dead => false
  }

  predicate Next(t: seq<Iface>, joinWaits: bool, s: State, s': State) {
    Alive(s) && (MainStep(t, joinWaits, s, s') || ThreadStep(t, s, s'))
  }

  predicate StepAt(t: seq<Iface>, joinWaits: bool, run: seq<State>, i: nat)
    requires 0 < i < |run|
  {
    Next(t, joinWaits, run[i - 1], run[i])
  }

  predicate IsRun(t: seq<Iface>, joinWaits: bool, run: seq<State>) {
    run != [] && Start(run[0]) && forall i :: 0 < i < |run| ==> StepAt(t, joinWaits, run, i)
  }

  function Last(run: seq<State>): State
    requires run != []
  {
    run[|run| - 1]
  }

  // ---------- what the log must look like ----------

  function Inits(t: seq<Iface>, n: nat): seq<Event>
    requires n <= |t|
  {
    if n == 0 then [] else Inits(t, n - 1) + if t[n - 1].hasInit then [Init(n - 1)] else []
  }

  function Runs(t: seq<Iface>, n: nat): seq<Event>
    requires n <= |t|
  {
    if n == 0 then [] else Runs(t, n - 1) + if t[n - 1].hasRun then [Run(n - 1), RunEnd(n - 1)] else []
  }

  function Passes(t: seq<Iface>, k: nat): seq<Event> {
    if k == 0 then [] else Passes(t, k - 1) + Runs(t, |t|)
  }

  /** The deinits of all interfaces but the first `left`, last one first. */
  function Deinits(t: seq<Iface>, left: nat): seq<Event>
    requires left <= |t|
    decreases |t| - left
  {
    if left == |t| then [] else Deinits(t, left + 1) + if t[left].hasDeinit then [Deinit(left)] else []
  }

  // ---------- the invariant ----------

  function InPass(t: seq<Iface>, s: State): nat {
    match s.thread
    case Pass(i) => i
    case InRun(i) => i
    case _ => 0
  }

  /** The call of a run hook that has not returned. */
  function InProgress(s: State): seq<Event> { if s.thread.InRun? then [Run(s.thread.i)] else [] }

  function RunsSoFar(t: seq<Iface>, s: State): seq<Event>
    requires InPass(t, s) <= |t|
  {
    Passes(t, s.passes) + Runs(t, InPass(t, s)) + InProgress(s)
  }

  function InitsDone(t: seq<Iface>, s: State): nat {
    if s.main.Initialising? then s.main.i else |t|
  }

  function DeinitsLeft(t: seq<Iface>, s: State): nat {
    match s.main
    case Deiniting(left) => left
    case Removing => 0
    case Exited(code) => if code == 0 then 0 else |t|
    case _ => |t|
  }

  predicate ShuttingDown(s: State) {
    s.main.Deiniting? || s.main.Removing? || s.main == Exited(0)
  }

  predicate InitEvent(e: Event) { e.Init? }

  predicate RunEvent(e: Event) { e.Run? || e.RunEnd? }

  predicate DeinitEvent(e: Event) { e.Deinit? }

  /** What the log holds of each kind, however the kinds are interleaved. */
  predicate KindsInv(t: seq<Iface>, s: State) {
    && InitsDone(t, s) <= |t| && InPass(t, s) <= |t| && DeinitsLeft(t, s) <= |t|
    && Filter(InitEvent, s.log) == Inits(t, InitsDone(t, s))
    && Filter(RunEvent, s.log) == RunsSoFar(t, s)
    && (s.thread.InRun? ==> s.thread.i < |t| && t[s.thread.i].hasRun)
    && Filter(DeinitEvent, s.log) == Deinits(t, DeinitsLeft(t, s))
  }

  /** The whole log, where the handler's join waits. */
  predicate LogInv(t: seq<Iface>, s: State) {
    && InitsDone(t, s) <= |t| && InPass(t, s) <= |t| && DeinitsLeft(t, s) <= |t|
    && s.log == Inits(t, InitsDone(t, s)) + RunsSoFar(t, s)
                + Deinits(t, DeinitsLeft(t, s)) + if s.main == Exited(0) then [RemoveInstance] else []
  }

  predicate ControlInv(joinWaits: bool, s: State) {
    && (s.main.Initialising? || s.main.Creating? <==> s.thread == NotCreated)
    && (s.thread == NotCreated ==> s.passes == 0)
    && (s.enabled <==> !(s.thread.Pass? || s.thread.InRun? || s.thread.Enable?))
    && (s.pending <==> s.main.Joining? || ShuttingDown(s))
    && (s.thread == Dead ==> s.pending)
    && (joinWaits && ShuttingDown(s) ==> s.thread == Dead)
    && !s.main.AfterWait?
    && (s.main.Exited? ==> s.main.code == 0 || s.main.code == 1)
    && (s.removed <==> s.main == Exited(0))
  }

  /** Once a cancellation is pending, at most the pass under way, or the next one, still completes. */
  predicate CancelInv(s: State) {
    s.pending ==>
      match s.thread
      case NotCreated => true
      case Disable => s.passes == s.passesAtCancel
      case Pass(_) => s.passes == s.passesAtCancel
      case InRun(_) => s.passes == s.passesAtCancel
      case Sleep => s.passes == s.passesAtCancel
      case _ => s.passesAtCancel <= s.passes <= s.passesAtCancel + 1
  }

  predicate Inv(t: seq<Iface>, joinWaits: bool, s: State) {
    ControlInv(joinWaits, s) && CancelInv(s) && KindsInv(t, s) && (joinWaits ==> LogInv(t, s))
  }

  lemma StartInv(t: seq<Iface>, joinWaits: bool, s: State)
    requires Start(s)
    ensures Inv(t, joinWaits, s)
  {
  }

  lemma ControlStep(t: seq<Iface>, joinWaits: bool, s: State, s': State)
    requires ControlInv(joinWaits, s) && CancelInv(s) && Next(t, joinWaits, s, s')
    ensures ControlInv(joinWaits, s') && CancelInv(s')
  {
  }

  lemma NothingYet(t: seq<Iface>)
    ensures Passes(t, 0) == [] && Runs(t, 0) == [] && Deinits(t, |t|) == []
  {
  }

  /** What a step of the thread adds to the calls and returns of run hooks. */
  lemma RunsStep(t: seq<Iface>, joinWaits: bool, s: State, s': State)
    requires ControlInv(joinWaits, s) && ThreadStep(t, s, s')
    requires InPass(t, s) <= |t| && (s.thread.InRun? ==> s.thread.i < |t| && t[s.thread.i].hasRun)
    ensures InPass(t, s') <= |t|
    ensures s.log <= s'.log && |s'.log| <= |s.log| + 1
    ensures RunsSoFar(t, s') == RunsSoFar(t, s) + s'.log[|s.log|..]
    ensures s'.log != s.log ==> RunEvent(s'.log[|s.log|])
  {
    NothingYet(t);
    if s.thread.InRun? {
      var i := s.thread.i;
      assert Runs(t, i + 1) == Runs(t, i) + [Run(i)] + [RunEnd(i)];
    }
  }

  lemma RunsKept(t: seq<Iface>, joinWaits: bool, s: State, s': State)
    requires ControlInv(joinWaits, s) && Alive(s) && MainStep(t, joinWaits, s, s') && InPass(t, s) <= |t|
    ensures InPass(t, s') <= |t| && RunsSoFar(t, s') == RunsSoFar(t, s)
    ensures s'.thread.InRun? ==> s'.thread == s.thread
  {
  }

  lemma LogMainStep(t: seq<Iface>, s: State, s': State)
    requires Inv(t, true, s) && Alive(s) && MainStep(t, true, s, s')
    ensures LogInv(t, s')
  {
    hide Passes, Runs, KindsInv, RunsSoFar;
    NothingYet(t);
    RunsKept(t, true, s, s');
    if s.thread == NotCreated {
      NoRunsYet(t, s);
    }
  }

  lemma NoRunsYet(t: seq<Iface>, s: State)
    requires s.thread == NotCreated && s.passes == 0
    ensures RunsSoFar(t, s) == []
  {
    NothingYet(t);
  }

  lemma LogThreadStep(t: seq<Iface>, s: State, s': State)
    requires Inv(t, true, s) && Alive(s) && ThreadStep(t, s, s')
    ensures LogInv(t, s')
  {
    hide Inits, Deinits, Passes, Runs, RunsSoFar, Filter;
    NothingYet(t);
    RunsStep(t, true, s, s');
    assert s'.log == s.log + s'.log[|s.log|..];
    assert InitsDone(t, s') == InitsDone(t, s) == |t| && DeinitsLeft(t, s') == DeinitsLeft(t, s) == |t|;
  }

  /** What one more event adds to each kind. */
  lemma Logged(log: seq<Event>, e: Event)
    ensures Filter(InitEvent, log + [e]) == if e.Init? then Filter(InitEvent, log) + [e] else Filter(InitEvent, log)
    ensures Filter(RunEvent, log + [e])
         == if RunEvent(e) then Filter(RunEvent, log) + [e] else Filter(RunEvent, log)
    ensures Filter(DeinitEvent, log + [e])
         == if e.Deinit? then Filter(DeinitEvent, log) + [e] else Filter(DeinitEvent, log)
  {
    FilterAppend(InitEvent, log, [e]);
    FilterAppend(RunEvent, log, [e]);
    FilterAppend(DeinitEvent, log, [e]);
    FilterOne(InitEvent, e);
    FilterOne(RunEvent, e);
    FilterOne(DeinitEvent, e);
  }

  lemma KindsInitStep(t: seq<Iface>, s: State, s': State)
    requires KindsInv(t, s) && s.main.Initialising? && s.main.i < |t| && s'.main == Initialising(s.main.i + 1)
    requires s'.thread == s.thread && s'.passes == s.passes
    requires s'.log == s.log + if t[s.main.i].hasInit then [Init(s.main.i)] else []
    ensures KindsInv(t, s')
  {
    hide Filter, RunsSoFar, Runs, Passes;
    RunsUnchanged(t, s, s');
    assert s.log + [] == s.log;
    Logged(s.log, Init(s.main.i));
  }

  lemma KindsDeinitStep(t: seq<Iface>, s: State, s': State)
    requires KindsInv(t, s) && s.main.Deiniting? && 0 < s.main.left <= |t| && s'.main == Deiniting(s.main.left - 1)
    requires s'.thread == s.thread && s'.passes == s.passes
    requires s'.log == s.log + if t[s.main.left - 1].hasDeinit then [Deinit(s.main.left - 1)] else []
    ensures KindsInv(t, s')
  {
    hide Filter, RunsSoFar, Runs, Passes;
    RunsUnchanged(t, s, s');
    assert s.log + [] == s.log;
    Logged(s.log, Deinit(s.main.left - 1));
  }

  lemma RunsUnchanged(t: seq<Iface>, s: State, s': State)
    requires s'.thread == s.thread && s'.passes == s.passes && InPass(t, s) <= |t|
    ensures InPass(t, s') <= |t| && RunsSoFar(t, s') == RunsSoFar(t, s)
  {
  }

  lemma KindsMainStep(t: seq<Iface>, joinWaits: bool, s: State, s': State)
    requires ControlInv(joinWaits, s) && KindsInv(t, s) && Alive(s) && MainStep(t, joinWaits, s, s')
    ensures KindsInv(t, s')
  {
    hide Filter, RunsSoFar, Inits, Runs, Passes;
    if s.main.Initialising? && s.main.i < |t| {
      KindsInitStep(t, s, s');
    } else if s.main.Deiniting? && s.main.left > 0 {
      KindsDeinitStep(t, s, s');
    } else {
      RunsKept(t, joinWaits, s, s');
      if s.main.Removing? {
        Logged(s.log, RemoveInstance);
      }
    }
  }

  lemma KindsThreadStep(t: seq<Iface>, joinWaits: bool, s: State, s': State)
    requires ControlInv(joinWaits, s) && KindsInv(t, s) && Alive(s) && ThreadStep(t, s, s')
    ensures KindsInv(t, s')
  {
    hide Inits, Deinits, Passes, Runs, RunsSoFar, Filter;
    RunsStep(t, joinWaits, s, s');
    assert InitsDone(t, s') == InitsDone(t, s) && DeinitsLeft(t, s') == DeinitsLeft(t, s);
    if s'.log != s.log {
      Logged(s.log, s'.log[|s.log|]);
      assert s'.log == s.log + [s'.log[|s.log|]];
    } else {
      assert RunsSoFar(t, s) + [] == RunsSoFar(t, s);
    }
  }

  lemma {:induction false} RunInv(t: seq<Iface>, joinWaits: bool, run: seq<State>, n: nat)
    requires IsRun(t, joinWaits, run) && n < |run|
    ensures Inv(t, joinWaits, run[n])
  {
    hide ControlInv, CancelInv, LogInv, KindsInv, MainStep, ThreadStep;
    if n == 0 {
      StartInv(t, joinWaits, run[0]);
    } else {
      RunInv(t, joinWaits, run, n - 1);
      var s, s' := run[n - 1], run[n];
      assert StepAt(t, joinWaits, run, n);
      ControlStep(t, joinWaits, s, s');
      if MainStep(t, joinWaits, s, s') {
        KindsMainStep(t, joinWaits, s, s');
        if joinWaits {
          LogMainStep(t, s, s');
        }
      } else {
        KindsThreadStep(t, joinWaits, s, s');
        if joinWaits {
          LogThreadStep(t, s, s');
        }
      }
    }
  }

  // ---------- what it means ----------

  function RunCount(t: seq<Iface>, i: nat, n: nat): nat
    requires i < |t|
  {
    if i < n && t[i].hasRun then 1 else 0
  }

  lemma {:induction false} InitEvents(t: seq<Iface>, n: nat)
    requires n <= |t|
    ensures forall e :: e in Inits(t, n) ==> e.Init?
  {
    if n > 0 {
      InitEvents(t, n - 1);
    }
  }

  /** How often an event occurs. */
  function Count(s: seq<Event>, e: Event): nat {
    if s == [] then 0 else Count(s[..|s| - 1], e) + if s[|s| - 1] == e then 1 else 0
  }

  lemma {:induction false} CountAppend(a: seq<Event>, b: seq<Event>, e: Event)
    ensures Count(a + b, e) == Count(a, e) + Count(b, e)
  {
    if b == [] {
      assert a + b == a;
    } else {
      assert (a + b)[..|a + b| - 1] == a + b[..|b| - 1];
      CountAppend(a, b[..|b| - 1], e);
    }
  }

  lemma {:induction false} RunEvents(t: seq<Iface>, n: nat)
    requires n <= |t|
    ensures forall e :: e in Runs(t, n) ==> RunEvent(e)
  {
    if n > 0 {
      RunEvents(t, n - 1);
    }
  }

  lemma {:induction false} RunTally(t: seq<Iface>, n: nat, i: nat)
    requires n <= |t| && i < |t|
    ensures Count(Runs(t, n), Run(i)) == RunCount(t, i, n) && Count(Runs(t, n), RunEnd(i)) == RunCount(t, i, n)
  {
    if n > 0 {
      RunTally(t, n - 1, i);
      CountAppend(Runs(t, n - 1), if t[n - 1].hasRun then [Run(n - 1), RunEnd(n - 1)] else [], Run(i));
      CountAppend(Runs(t, n - 1), if t[n - 1].hasRun then [Run(n - 1), RunEnd(n - 1)] else [], RunEnd(i));
      CountAppend([Run(n - 1)], [RunEnd(n - 1)], Run(i));
      CountAppend([Run(n - 1)], [RunEnd(n - 1)], RunEnd(i));
    }
  }

  lemma {:induction false} PassEvents(t: seq<Iface>, k: nat)
    ensures forall e :: e in Passes(t, k) ==> RunEvent(e)
  {
    if k > 0 {
      PassEvents(t, k - 1);
      RunEvents(t, |t|);
    }
  }

  lemma {:induction false} PassTally(t: seq<Iface>, k: nat, i: nat)
    requires i < |t| && t[i].hasRun
    ensures Count(Passes(t, k), Run(i)) == k
  {
    if k > 0 {
      PassTally(t, k - 1, i);
      RunTally(t, |t|, i);
      CountAppend(Passes(t, k - 1), Runs(t, |t|), Run(i));
    }
  }

  lemma {:induction false} DeinitEvents(t: seq<Iface>, left: nat)
    requires left <= |t|
    ensures forall e :: e in Deinits(t, left) ==> e.Deinit?
    decreases |t| - left
  {
    if left < |t| {
      DeinitEvents(t, left + 1);
    }
  }

  lemma {:induction false} DeinitTally(t: seq<Iface>, left: nat, i: nat)
    requires left <= |t| && i < |t|
    ensures Count(Deinits(t, left), Deinit(i)) == if left <= i && t[i].hasDeinit then 1 else 0
    decreases |t| - left
  {
    if left < |t| {
      DeinitTally(t, left + 1, i);
      CountAppend(Deinits(t, left + 1), if t[left].hasDeinit then [Deinit(left)] else [], Deinit(i));
    }
  }

  lemma {:induction false} CountKind(log: seq<Event>, e: Event)
    requires e.Run?
    ensures Count(Filter(RunEvent, log), e) == Count(log, e)
  {
    if log != [] {
      CountKind(log[1..], e);
      CountAppend([log[0]], log[1..], e);
      CountAppend([log[0]], Filter(RunEvent, log[1..]), e);
      assert log == [log[0]] + log[1..];
      assert [log[0]][..0] == [];
    }
  }

  /**
   Cancellation takes effect only between passes: whenever the thread has died, every interface
   with a run hook has run the same number of times, and at most one pass ended after the request.
   */
  lemma CancelledBetweenPasses(t: seq<Iface>, joinWaits: bool, run: seq<State>, n: nat, i: nat)
    requires IsRun(t, joinWaits, run) && n < |run| && run[n].thread == Dead
    requires i < |t| && t[i].hasRun
    ensures Count(run[n].log, Run(i)) == run[n].passes
    ensures run[n].passesAtCancel <= run[n].passes <= run[n].passesAtCancel + 1
  {
    RunInv(t, joinWaits, run, n);
    var s := run[n];
    CountKind(s.log, Run(i));
    DeadRuns(t, s);
    PassTally(t, s.passes, i);
  }

  /**
   Where the handler's join waits, no run hook is called or still running after a deinit in any
   reachable log, and nothing is initialised after a run.
   */
  lemma NothingRunsAfterDeinit(t: seq<Iface>, run: seq<State>, n: nat, a: nat, b: nat)
    requires IsRun(t, true, run) && n < |run| && a < b < |run[n].log|
    ensures run[n].log[a].Deinit? ==> run[n].log[b].Deinit? || run[n].log[b].RemoveInstance?
    ensures RunEvent(run[n].log[a]) ==> !run[n].log[b].Init?
  {
    hide Inits, Passes, Runs, Deinits;
    RunInv(t, true, run, n);
    var s := run[n];
    var x, p := Inits(t, InitsDone(t, s)), Passes(t, s.passes);
    var r, z := Runs(t, InPass(t, s)) + InProgress(s), Deinits(t, DeinitsLeft(t, s));
    var u := if s.main == Exited(0) then [RemoveInstance] else [];
    assert forall e: Event :: e in x ==> e.Init? by { InitEvents(t, InitsDone(t, s)); }
    assert forall e: Event :: e in p + r ==> RunEvent(e) by { PassEvents(t, s.passes); RunEvents(t, InPass(t, s)); }
    assert forall e: Event :: e in z ==> e.Deinit? by { DeinitEvents(t, DeinitsLeft(t, s)); }
    assert s.log == x + (p + r) + z + u;
    LogSplit(s.log, x, p + r, z, u);
  }

  lemma LogSplit(log: seq<Event>, x: seq<Event>, y: seq<Event>, z: seq<Event>, u: seq<Event>)
    requires log == x + y + z + u
    requires forall e :: e in x ==> e.Init?
    requires forall e :: e in y ==> RunEvent(e)
    requires forall e :: e in z ==> e.Deinit?
    requires forall e :: e in u ==> e.RemoveInstance?
    ensures forall i :: 0 <= i < |log| ==>
              && (log[i].Init? <==> i < |x|)
              && (RunEvent(log[i]) <==> |x| <= i < |x| + |y|)
              && (log[i].Deinit? <==> |x| + |y| <= i < |x| + |y| + |z|)
  {
    forall i | 0 <= i < |log|
      ensures && (log[i].Init? <==> i < |x|)
              && (RunEvent(log[i]) <==> |x| <= i < |x| + |y|)
              && (log[i].Deinit? <==> |x| + |y| <= i < |x| + |y| + |z|)
    {
      if i < |x| {
        assert log[i] == x[i] && x[i] in x;
      } else if i < |x| + |y| {
        assert log[i] == y[i - |x|] && y[i - |x|] in y;
      } else if i < |x| + |y| + |z| {
        assert log[i] == z[i - |x| - |y|] && z[i - |x| - |y|] in z;
      } else {
        assert log[i] == u[i - |x| - |y| - |z|] && u[i - |x| - |y| - |z|] in u;
      }
    }
  }

  lemma DeadRuns(t: seq<Iface>, s: State)
    requires s.thread == Dead
    ensures RunsSoFar(t, s) == Passes(t, s.passes)
  {
    NothingYet(t);
    var p := Passes(t, s.passes);
    assert p + [] + [] == p;
  }

  /**
   Every run that ends after one of the four orderly signals has initialised the interfaces in
   table order, deinitialised each interface once in the reverse order, and called
   connsel_removeInstance; where the handler's join waits, some number of whole passes lie between,
   and nothing else.
   */
  lemma OrderlyExit(t: seq<Iface>, joinWaits: bool, run: seq<State>, n: nat)
    requires IsRun(t, joinWaits, run) && n < |run| && run[n].main == Exited(0)
    ensures run[n].removed
    ensures Filter(InitEvent, run[n].log) == Inits(t, |t|) && Filter(DeinitEvent, run[n].log) == Deinits(t, 0)
    ensures forall i: nat :: i < |t| ==> Count(Inits(t, |t|), Init(i)) == if t[i].hasInit then 1 else 0
    ensures forall i: nat :: i < |t| ==> Count(Deinits(t, 0), Deinit(i)) == if t[i].hasDeinit then 1 else 0
    ensures joinWaits ==>
              && run[n].thread == Dead
              && run[n].log == Inits(t, |t|) + Passes(t, run[n].passes) + Deinits(t, 0) + [RemoveInstance]
  {
    hide Inits, Passes, Runs, Deinits, RunsSoFar, Filter;
    RunInv(t, joinWaits, run, n);
    if joinWaits {
      DeadRuns(t, run[n]);
    }
    forall i: nat | i < |t| ensures Count(Inits(t, |t|), Init(i)) == if t[i].hasInit then 1 else 0 {
      InitTally(t, |t|, i);
    }
    forall i: nat | i < |t| ensures Count(Deinits(t, 0), Deinit(i)) == if t[i].hasDeinit then 1 else 0 {
      DeinitTally(t, 0, i);
    }
  }

  /**
   A process that dies of a segmentation fault signal deinitialises nothing and does not call
   connsel_removeInstance, and main() never gets past its own join.
   */
  lemma AbruptExit(t: seq<Iface>, joinWaits: bool, run: seq<State>, n: nat)
    requires IsRun(t, joinWaits, run) && n < |run|
    ensures !run[n].main.AfterWait?
    ensures run[n].main.Exited? && run[n].main != Exited(0) ==>
              run[n].main == Exited(1) && !run[n].removed && Filter(DeinitEvent, run[n].log) == []
  {
    RunInv(t, joinWaits, run, n);
  }

  /** How many thread steps a pending cancellation can still take. */
  function StepsToDeath(t: seq<Iface>, s: State): nat
    requires InPass(t, s) <= |t|
  {
    match s.thread
    case NotCreated => 0
    case Sleep => 1
    case Disable => 2 * |t| + 4
    case Pass(i) => 2 * (|t| - i) + 3
    case InRun(i) => 2 * (|t| - i) + 2
    case Enable => 2
    case TestCancel => 1
    case Dead => 0
  }

  /** A pending cancellation is always acted on: every step of the thread comes nearer to its end. */
  lemma CancellationProgress(t: seq<Iface>, joinWaits: bool, s: State, s': State)
    requires Inv(t, joinWaits, s) && s.pending && Alive(s) && ThreadStep(t, s, s')
    ensures InPass(t, s') <= |t| && StepsToDeath(t, s') < StepsToDeath(t, s)
    ensures StepsToDeath(t, s') == 0 <==> s'.thread == Dead
  {
  }

  // ---------- the order of the hooks ----------

  lemma {:induction false} InitsInOrder(t: seq<Iface>, n: nat)
    requires n <= |t|
    ensures forall e :: e in Inits(t, n) ==> e.Init? && e.i < n && t[e.i].hasInit
    ensures forall a, b :: 0 <= a < b < |Inits(t, n)| ==> Inits(t, n)[a].i < Inits(t, n)[b].i
  {
    if n > 0 {
      InitsInOrder(t, n - 1);
      var before := Inits(t, n - 1);
      forall a | 0 <= a < |before| ensures before[a].i < n - 1 {
        assert before[a] in before;
      }
    }
  }

  lemma {:induction false} InitTally(t: seq<Iface>, n: nat, i: nat)
    requires n <= |t| && i < |t|
    ensures Count(Inits(t, n), Init(i)) == if i < n && t[i].hasInit then 1 else 0
  {
    if n > 0 {
      InitTally(t, n - 1, i);
      CountAppend(Inits(t, n - 1), if t[n - 1].hasInit then [Init(n - 1)] else [], Init(i));
    }
  }

  lemma {:induction false} DeinitsReversed(t: seq<Iface>, left: nat)
    requires left <= |t|
    ensures forall e :: e in Deinits(t, left) ==> e.Deinit? && left <= e.i < |t| && t[e.i].hasDeinit
    ensures forall a, b :: 0 <= a < b < |Deinits(t, left)| ==> Deinits(t, left)[a].i > Deinits(t, left)[b].i
    decreases |t| - left
  {
    if left < |t| {
      DeinitsReversed(t, left + 1);
      var before := Deinits(t, left + 1);
      forall a | 0 <= a < |before| ensures before[a].i > left {
        assert before[a] in before;
      }
    }
  }

  /** Of two events of run hooks, the first belongs to an earlier hook, or is the call of the same one. */
  predicate RunsBefore(x: Event, y: Event) {
    RunEvent(x) && RunEvent(y) && (x.i < y.i || (x.i == y.i && x.Run? && y.RunEnd?))
  }

  /** One pass: hook after hook, each call followed by its return. */
  lemma {:induction false} RunsInOrder(t: seq<Iface>, n: nat)
    requires n <= |t|
    ensures forall e :: e in Runs(t, n) ==> RunEvent(e) && e.i < n && t[e.i].hasRun
    ensures forall a, b :: 0 <= a < b < |Runs(t, n)| ==> RunsBefore(Runs(t, n)[a], Runs(t, n)[b])
  {
    if n > 0 {
      RunsInOrder(t, n - 1);
      var before := Runs(t, n - 1);
      forall a | 0 <= a < |before| ensures RunEvent(before[a]) && before[a].i < n - 1 {
        assert before[a] in before;
      }
    }
  }

  /** Two events of a kind stand in the log in the order of the events of that kind. */
  lemma {:induction false} FilterOrder(p: Event -> bool, log: seq<Event>, a: nat, b: nat) returns (c: nat, d: nat)
    requires a < b < |log| && p(log[a]) && p(log[b])
    ensures c < d < |Filter(p, log)| && Filter(p, log)[c] == log[a] && Filter(p, log)[d] == log[b]
  {
    var front := log[..b];
    FilterSplit(p, log, b);
    FilterSuffix(p, log, b);
    FilterAll(p, front);
    assert front[a] == log[a] && log[a] in front && log[a] in Filter(p, front);
    c :| 0 <= c < |Filter(p, front)| && Filter(p, front)[c] == log[a];
    d := |Filter(p, front)|;
  }

  /**
   In every reachable log, whether or not the handler's join waits: init hooks in table order and
   deinit hooks in reverse table order, each at most once, and only hooks that the table has.
   */
  lemma HooksInOrder(t: seq<Iface>, joinWaits: bool, run: seq<State>, n: nat, a: nat, b: nat)
    requires IsRun(t, joinWaits, run) && n < |run| && a < b < |run[n].log|
    ensures var x, y := run[n].log[a], run[n].log[b];
            && (x.Init? && y.Init? ==> x.i < y.i < |t| && t[x.i].hasInit && t[y.i].hasInit)
            && (x.Deinit? && y.Deinit? ==> y.i < x.i < |t| && t[x.i].hasDeinit && t[y.i].hasDeinit)
  {
    hide Filter, Inits, Deinits, LogInv, ControlInv;
    RunInv(t, joinWaits, run, n);
    var s := run[n];
    if s.log[a].Init? && s.log[b].Init? {
      var c, d := FilterOrder(InitEvent, s.log, a, b);
      InitsInOrder(t, InitsDone(t, s));
      assert s.log[a] in Inits(t, InitsDone(t, s)) && s.log[b] in Inits(t, InitsDone(t, s));
    }
    if s.log[a].Deinit? && s.log[b].Deinit? {
      var c, d := FilterOrder(DeinitEvent, s.log, a, b);
      DeinitsReversed(t, DeinitsLeft(t, s));
      assert s.log[a] in Deinits(t, DeinitsLeft(t, s)) && s.log[b] in Deinits(t, DeinitsLeft(t, s));
    }
  }

  /**
   Whenever the thread has died, the calls and returns of run hooks are as many passes as were
   counted, one after another, each of them a pass over the whole table in order.
   */
  lemma WholePasses(t: seq<Iface>, joinWaits: bool, run: seq<State>, n: nat, k: nat)
    requires IsRun(t, joinWaits, run) && n < |run| && run[n].thread == Dead && k < run[n].passes
    ensures var r, m := Filter(RunEvent, run[n].log), |Runs(t, |t|)|;
            |r| == run[n].passes * m && k * m + m <= |r| && r[k * m..k * m + m] == Runs(t, |t|)
  {
    hide Filter, Runs, LogInv, ControlInv, CancelInv;
    RunInv(t, joinWaits, run, n);
    DeadRuns(t, run[n]);
    PassAt(t, run[n].passes, k);
  }

  lemma {:induction false} PassAt(t: seq<Iface>, n: nat, k: nat)
    requires k < n
    ensures var r, m := Passes(t, n), |Runs(t, |t|)|;
            |r| == n * m && k * m + m <= |r| && r[k * m..k * m + m] == Runs(t, |t|)
  {
    hide Runs;
    var m, front := |Runs(t, |t|)|, Passes(t, n - 1);
    PassLength(t, n);
    PassLength(t, n - 1);
    assert n * m == (n - 1) * m + m;
    if k < n - 1 {
      PassAt(t, n - 1, k);
      assert Passes(t, n)[k * m..k * m + m] == front[k * m..k * m + m];
    }
  }

  lemma {:induction false} PassLength(t: seq<Iface>, n: nat)
    ensures |Passes(t, n)| == n * |Runs(t, |t|)|
  {
    hide Runs;
    if n > 0 {
      PassLength(t, n - 1);
      assert n * |Runs(t, |t|)| == (n - 1) * |Runs(t, |t|)| + |Runs(t, |t|)|;
    }
  }

  // ---------- when the shutdown is in order ----------

  /** No run hook is called, or is still running, after a deinit hook was called. */
  predicate Ordered(log: seq<Event>) { forall a, b :: 0 <= a < b < |log| && log[a].Deinit? ==> !RunEvent(log[b]) }

  predicate HasRunHook(t: seq<Iface>, from: nat) { exists j :: from <= j < |t| && t[j].hasRun }

  predicate HasDeinitHook(t: seq<Iface>) { exists j :: 0 <= j < |t| && t[j].hasDeinit }

  /** With a cancellation pending, a run hook is in progress or will still be called. */
  predicate StillRuns(t: seq<Iface>, thread: Thread) {
    match thread
    case Disable => HasRunHook(t, 0)
    case Pass(i) => HasRunHook(t, i)
    case InRun(_) => true
    case _ => false
  }

  /** `more` is a run that goes on from `run`. */
  predicate GoesOn(t: seq<Iface>, joinWaits: bool, run: seq<State>, more: seq<State>) {
    IsRun(t, joinWaits, more) && run <= more
  }

  lemma Extend(t: seq<Iface>, joinWaits: bool, run: seq<State>, s': State)
    requires IsRun(t, joinWaits, run) && Next(t, joinWaits, Last(run), s')
    ensures GoesOn(t, joinWaits, run, run + [s'])
  {
    hide Next, Start;
    var more := run + [s'];
    forall i | 0 < i < |more| ensures StepAt(t, joinWaits, more, i) {
      if i < |run| {
        assert StepAt(t, joinWaits, run, i);
      }
    }
  }

  /** A thread that still runs, once everything is deinitialised. */
  lemma {:induction false} RunNext(t: seq<Iface>, joinWaits: bool, run: seq<State>) returns (more: seq<State>)
    requires IsRun(t, joinWaits, run) && Last(run).main == Deiniting(0) && StillRuns(t, Last(run).thread)
    ensures GoesOn(t, joinWaits, run, more)
    ensures |Last(more).log| == |Last(run).log| + 1 && Last(run).log <= Last(more).log
    ensures RunEvent(Last(more).log[|Last(run).log|])
    decreases match Last(run).thread
              case Pass(i) => 2 * (|t| - i)
              case InRun(i) => 2 * (|t| - i) - 1
              case _ => 2 * |t| + 1
  {
    var s := Last(run);
    var s' := match s.thread
      case Disable => s.(thread := Pass(0), enabled := false)
      case Pass(i) => if t[i].hasRun then s.(thread := InRun(i), log := s.log + [Run(i)]) else s.(thread := Pass(i + 1))
      case InRun(i) => s.(thread := Pass(i + 1), log := s.log + [RunEnd(i)]);
    Extend(t, joinWaits, run, s');
    more := run + [s'];
    if s'.log == s.log {
      more := RunNext(t, joinWaits, more);
    }
  }

  /** The remaining deinits, with the thread standing still. */
  lemma {:induction false} DeinitRest(t: seq<Iface>, joinWaits: bool, run: seq<State>) returns (more: seq<State>)
    requires IsRun(t, joinWaits, run) && Last(run).main.Deiniting? && Last(run).main.left <= |t|
    requires Filter(DeinitEvent, Last(run).log) == Deinits(t, Last(run).main.left)
    ensures GoesOn(t, joinWaits, run, more)
    ensures Last(more).main == Deiniting(0) && Last(more).thread == Last(run).thread
    ensures Filter(DeinitEvent, Last(more).log) == Deinits(t, 0)
    decreases Last(run).main.left
  {
    hide Filter;
    var s := Last(run);
    more := run;
    if s.main.left > 0 {
      var j := s.main.left - 1;
      var s' := s.(main := Deiniting(j), log := s.log + if t[j].hasDeinit then [Deinit(j)] else []);
      Extend(t, joinWaits, run, s');
      if t[j].hasDeinit {
        Logged(s.log, Deinit(j));
      } else {
        assert s.log + [] == s.log;
      }
      more := DeinitRest(t, joinWaits, run + [s']);
    }
  }

  lemma {:induction false} DeinitsThere(t: seq<Iface>, left: nat)
    requires left <= |t| && exists j :: left <= j < |t| && t[j].hasDeinit
    ensures Deinits(t, left) != []
    decreases |t| - left
  {
    if !t[left].hasDeinit {
      DeinitsThere(t, left + 1);
    }
  }

  /** If the handler's join returns while the thread still runs, a run hook can go on after a deinit hook. */
  lemma Overtaken(t: seq<Iface>, joinWaits: bool, run: seq<State>) returns (more: seq<State>)
    requires IsRun(t, joinWaits, run) && Last(run).main == Deiniting(|t|)
    requires StillRuns(t, Last(run).thread) && HasDeinitHook(t)
    ensures GoesOn(t, joinWaits, run, more) && !Ordered(Last(more).log)
  {
    RunInv(t, joinWaits, run, |run| - 1);
    var done := DeinitRest(t, joinWaits, run);
    var log := Last(done).log;
    DeinitsThere(t, 0);
    FilterAll(DeinitEvent, log);
    var e := Deinits(t, 0)[0];
    assert e in Filter(DeinitEvent, log);
    var a :| 0 <= a < |log| && log[a] == e;
    more := RunNext(t, joinWaits, done);
    assert Last(more).log[a] == e && RunEvent(Last(more).log[|log|]);
  }

  /** Once the thread will not run any more, it does not. */
  lemma RunsNoMore(t: seq<Iface>, joinWaits: bool, s: State, s': State)
    requires ControlInv(joinWaits, s) && Next(t, joinWaits, s, s') && ShuttingDown(s) && !StillRuns(t, s.thread)
    ensures ShuttingDown(s') && !StillRuns(t, s'.thread)
    ensures s'.log == s.log || (|s'.log| == |s.log| + 1 && s.log <= s'.log && !RunEvent(s'.log[|s.log|]))
  {
  }

  lemma {:induction false} StaysOrdered(t: seq<Iface>, joinWaits: bool, more: seq<State>, k: nat, n: nat)
    requires IsRun(t, joinWaits, more) && k <= n < |more|
    requires more[k].main == Deiniting(|t|) && !StillRuns(t, more[k].thread)
    ensures ShuttingDown(more[n]) && !StillRuns(t, more[n].thread)
    ensures Ordered(more[n].log)
  {
    hide Next, StillRuns, LogInv, ControlInv;
    if n == k {
      RunInv(t, joinWaits, more, k);
      NothingYet(t);
      var log := more[k].log;
      FilterAll(DeinitEvent, log);
      forall a | 0 <= a < |log| ensures !log[a].Deinit? {
        assert log[a] in log && !DeinitEvent(log[a]);
      }
    } else {
      StaysOrdered(t, joinWaits, more, k, n - 1);
      RunInv(t, joinWaits, more, n - 1);
      assert StepAt(t, joinWaits, more, n);
      RunsNoMore(t, joinWaits, more[n - 1], more[n]);
      OrderedOneMore(more[n - 1].log, more[n].log);
    }
  }

  lemma OrderedOneMore(log: seq<Event>, log': seq<Event>)
    requires Ordered(log)
    requires log' == log || (|log'| == |log| + 1 && log <= log' && !RunEvent(log'[|log|]))
    ensures Ordered(log')
  {
  }

  ghost predicate OrderedFrom(t: seq<Iface>, joinWaits: bool, run: seq<State>)
    requires run != []
  {
    forall more :: GoesOn(t, joinWaits, run, more) ==> Ordered(Last(more).log)
  }

  /**
   When the handler's join has returned, the shutdown is in order on every way on if and only if
   there is no deinit hook, or no run hook is in progress and the thread will not call another one -
   in particular if the thread is dead.
   */
  lemma JoinReturnsIff(t: seq<Iface>, joinWaits: bool, run: seq<State>)
    requires IsRun(t, joinWaits, run) && Last(run).main == Deiniting(|t|)
    ensures OrderedFrom(t, joinWaits, run) <==> !HasDeinitHook(t) || !StillRuns(t, Last(run).thread)
  {
    if HasDeinitHook(t) && StillRuns(t, Last(run).thread) {
      var more := Overtaken(t, joinWaits, run);
      assert GoesOn(t, joinWaits, run, more);
    } else {
      forall more | GoesOn(t, joinWaits, run, more) ensures Ordered(Last(more).log) {
        if HasDeinitHook(t) {
          assert more[|run| - 1] == Last(run);
          StaysOrdered(t, joinWaits, more, |run| - 1, |more| - 1);
        } else {
          NoDeinits(t, joinWaits, more);
        }
      }
    }
  }

  lemma {:induction false} DeinitsEmpty(t: seq<Iface>, left: nat)
    requires left <= |t| && !HasDeinitHook(t)
    ensures Deinits(t, left) == []
    decreases |t| - left
  {
    if left < |t| {
      DeinitsEmpty(t, left + 1);
    }
  }

  lemma NoDeinits(t: seq<Iface>, joinWaits: bool, run: seq<State>)
    requires IsRun(t, joinWaits, run) && !HasDeinitHook(t)
    ensures Ordered(Last(run).log)
  {
    RunInv(t, joinWaits, run, |run| - 1);
    DeinitsEmpty(t, DeinitsLeft(t, Last(run)));
    var log := Last(run).log;
    FilterAll(DeinitEvent, log);
    forall a | 0 <= a < |log| ensures !log[a].Deinit? {
      assert log[a] in log && !DeinitEvent(log[a]);
    }
  }

  lemma {:induction false} RunsEmpty(t: seq<Iface>, n: nat)
    requires n <= |t| && !HasRunHook(t, 0)
    ensures Runs(t, n) == []
  {
    if n > 0 {
      RunsEmpty(t, n - 1);
    }
  }

  lemma {:induction false} PassesEmpty(t: seq<Iface>, k: nat)
    requires !HasRunHook(t, 0)
    ensures Passes(t, k) == []
  {
    if k > 0 {
      PassesEmpty(t, k - 1);
      RunsEmpty(t, |t|);
    }
  }

  lemma NoRuns(t: seq<Iface>, joinWaits: bool, run: seq<State>)
    requires IsRun(t, joinWaits, run) && !HasRunHook(t, 0)
    ensures Ordered(Last(run).log)
  {
    var s := Last(run);
    RunInv(t, joinWaits, run, |run| - 1);
    PassesEmpty(t, s.passes);
    RunsEmpty(t, InPass(t, s));
    FilterAll(RunEvent, s.log);
    forall b | 0 <= b < |s.log| ensures !RunEvent(s.log[b]) {
      assert s.log[b] in s.log && !RunEvent(s.log[b]);
    }
  }

  /** The signal comes as soon as the thread is created, and the join does not wait. */
  lemma SignalAtOnce(t: seq<Iface>) returns (run: seq<State>)
    ensures IsRun(t, false, run)
    ensures Last(run) == State(Deiniting(|t|), Disable, true, true, false, Inits(t, |t|), 0, 0)
  {
    run := InitAll(t, |t|);
    var s := Last(run);
    Extend(t, false, run, s.(main := Creating));
    run := run + [s.(main := Creating)];
    s := Last(run).(main := Waiting, thread := Disable);
    Extend(t, false, run, s);
    run := run + [s];
    Extend(t, false, run, s.(main := Cancelling));
    run := run + [s.(main := Cancelling)];
    s := Last(run).(main := Joining, pending := true, passesAtCancel := 0);
    Extend(t, false, run, s);
    run := run + [s];
    Extend(t, false, run, s.(main := Deiniting(|t|)));
    run := run + [s.(main := Deiniting(|t|))];
  }

  lemma {:induction false} InitAll(t: seq<Iface>, k: nat) returns (run: seq<State>)
    requires k <= |t|
    ensures IsRun(t, false, run)
    ensures Last(run) == State(Initialising(k), NotCreated, true, false, false, Inits(t, k), 0, 0)
  {
    if k == 0 {
      run := [State(Initialising(0), NotCreated, true, false, false, [], 0, 0)];
    } else {
      run := InitAll(t, k - 1);
      var s := Last(run);
      var s' := s.(main := Initialising(k), log := s.log + if t[k - 1].hasInit then [Init(k - 1)] else []);
      Extend(t, false, run, s');
      run := run + [s'];
    }
  }

  ghost predicate AlwaysOrdered(t: seq<Iface>, joinWaits: bool) {
    forall run :: IsRun(t, joinWaits, run) ==> Ordered(Last(run).log)
  }

  /**
   Over all interleavings, no run hook is ever called, or still running, after a deinit hook if and
   only if the handler's join waits, or the table has no hooks of one of the two kinds.
   */
  lemma ShutdownOrderedIff(t: seq<Iface>, joinWaits: bool)
    ensures AlwaysOrdered(t, joinWaits) <==> joinWaits || !HasRunHook(t, 0) || !HasDeinitHook(t)
  {
    if !joinWaits && HasRunHook(t, 0) && HasDeinitHook(t) {
      var run := SignalAtOnce(t);
      var more := Overtaken(t, false, run);
      assert IsRun(t, false, more);
    } else {
      forall run | IsRun(t, joinWaits, run) ensures Ordered(Last(run).log) {
        var n, log := |run| - 1, Last(run).log;
        if joinWaits {
          forall a, b | 0 <= a < b < |log| && log[a].Deinit? ensures !RunEvent(log[b]) {
            NothingRunsAfterDeinit(t, run, n, a, b);
          }
        } else if !HasDeinitHook(t) {
          NoDeinits(t, joinWaits, run);
        } else {
          NoRuns(t, joinWaits, run);
        }
      }
    }
  }

  /** The table of eth0 and wlan0, which have all three hooks. */
  const TABLE: seq<Iface> := [Iface(true, true, true), Iface(true, true, true)]

  /** For connsel itself, everything rests on the join. */
  lemma ConnselOrderedIff(joinWaits: bool)
    ensures AlwaysOrdered(TABLE, joinWaits) <==> joinWaits
  {
    assert TABLE[0].hasRun && TABLE[0].hasDeinit;
    ShutdownOrderedIff(TABLE, joinWaits);
  }

  // ---------- the loops over the interface table ----------

  /** What each loop leaves behind if nothing interrupts it; the log stands for the hooks' effects. */
  class Connsel {
    const table: seq<Iface>
    var log: seq<Event>

    constructor (table: seq<Iface>)
      ensures this.table == table && log == []
    {
      this.table, log := table, [];
    }

    method InitAll()
      modifies this
      ensures log == old(log) + Inits(table, |table|)
    {
      for i := 0 to |table|
        invariant log == old(log) + Inits(table, i)
      {
        if table[i].hasInit {
          log := log + [Init(i)];
        }
      }
    }

    method RunPass()
      modifies this
      ensures log == old(log) + Runs(table, |table|)
    {
      for i := 0 to |table|
        invariant log == old(log) + Runs(table, i)
      {
        if table[i].hasRun {
          log := log + [Run(i), RunEnd(i)];
        }
      }
    }

    method DeinitAll()
      modifies this
      ensures log == old(log) + Deinits(table, 0)
    {
      for i := |table| downto 0
        invariant log == old(log) + Deinits(table, i)
      {
        if table[i].hasDeinit {
          log := log + [Deinit(i)];
        }
      }
    }
  }
}
