/** Life cycle of the D-Bus loop thread: dbus_start_main_loop, dbus_stop_main_loop and
    dbus_server_cleanup on one controlling thread, interleaved with the loop threads it
    creates (src/dbus-server/server.c). A region under the server mutex is one step. */
module LoopLifecycle {

  /** Where a loop thread stands. Only a serving thread reads the module list. */
  datatype LoopPc =
    | Born       // created, has not reached its loop
    | LoopTop    // about to read is_running
    | Serving    // polling and handling messages
    | Leaving    // out of the loop, about to clear thread_id
    | Early      // returned before the loop, thread_id not cleared
    | Done

  /** The thread_id field: zero, the thread with that number, or what a failed
      pthread_create left behind. */
  datatype ThreadId = Zero | Tid(k: nat) | Stale

  datatype ControlPc =
    | Ready
    | Flagged                      // is_running set, about to create the thread
    | Created                      // thread created, its id not yet stored
    | CreateFailed                 // about to take is_running back
    | StopPolling(cleanup: bool)   // is_running cleared, waiting for thread_id to be zero
    | CleanupWait(round: nat)      // the second wait, at most ten rounds
    | DestroyingModules
    | Freed

  datatype State = State(
    running: bool,
    id: ThreadId,
    control: ControlPc,
    threads: seq<LoopPc>   // in order of creation
  )

  datatype Step =
    | StartCall
    | CreateThread(storesFirst: bool)  // pthread_create may store the id before or after the thread runs
    | StoreId
    | CreateFails(left: ThreadId)
    | UndoStart
    | StopCall(cleanup: bool)
    | StopPoll
    | CleanupPoll
    | DestroyModules
    | ReachLoop(k: nat)
    | ReturnEarly(k: nat)
    | ReadFlag(k: nat)
    | Serve(k: nat, pollFailed: bool)
    | Finish(k: nat)

  const CLEANUP_ROUNDS: nat := 10

  predicate At(s: State, k: nat, pc: LoopPc) {
    k < |s.threads| && s.threads[k] == pc
  }

  predicate Enabled(s: State, a: Step) {
    match a
    case StartCall => s.control.Ready?
    case CreateThread(_) => s.control.Flagged?
    case StoreId => s.control.Created?
    case CreateFails(_) => s.control.Flagged?
    case UndoStart => s.control.CreateFailed?
    case StopCall(_) => s.control.Ready?
    case StopPoll => s.control.StopPolling?
    case CleanupPoll => s.control.CleanupWait?
    case DestroyModules => s.control.DestroyingModules?
    case ReachLoop(k) => At(s, k, Born)
    case ReturnEarly(k) => At(s, k, Born)
    case ReadFlag(k) => At(s, k, LoopTop)
    case Serve(k, _) => At(s, k, Serving)
    case Finish(k) => At(s, k, Leaving)
  }

  function StopReturns(s: State, cleanup: bool): State {
    s.(control := if cleanup then CleanupWait(0) else Ready)
  }

  function Do(s: State, a: Step): State
    requires Enabled(s, a)
  {
    match a
    case StartCall => if s.running then s else s.(running := true, control := Flagged)
    case CreateThread(storesFirst) =>
      var t := s.(threads := s.threads + [Born]);
      if storesFirst then t.(id := Tid(|s.threads|), control := Ready) else t.(control := Created)
    case StoreId => s.(id := if s.threads == [] then Stale else Tid(|s.threads| - 1), control := Ready)
    case CreateFails(left) => s.(id := left, control := CreateFailed)
    case UndoStart => s.(running := false, control := Ready)
    case StopCall(cleanup) =>
      if !s.running then StopReturns(s, cleanup)
      else if s.id == Zero then StopReturns(s.(running := false), cleanup)
      else s.(running := false, control := StopPolling(cleanup))
    // The round counter of the stop loop never grows: it leaves only on a zero id.
    case StopPoll => if s.id == Zero then StopReturns(s, s.control.cleanup) else s
    case CleanupPoll =>
      if s.control.round < CLEANUP_ROUNDS && s.id != Zero
      then s.(control := CleanupWait(s.control.round + 1)) else s.(control := DestroyingModules)
    case DestroyModules => s.(control := Freed)
    case ReachLoop(k) => s.(threads := s.threads[k := LoopTop])
    case ReturnEarly(k) => s.(threads := s.threads[k := Early])
    case ReadFlag(k) => s.(threads := s.threads[k := if s.running then Serving else Leaving])
    case Serve(k, pollFailed) => s.(threads := s.threads[k := if pollFailed then Leaving else LoopTop])
    case Finish(k) => s.(threads := s.threads[k := Done], id := Zero)
  }

  predicate ValidRun(s: State, steps: seq<Step>)
    decreases |steps|
  {
    steps == [] || (Enabled(s, steps[0]) && ValidRun(Do(s, steps[0]), steps[1..]))
  }

  function Run(s: State, steps: seq<Step>): State
    requires ValidRun(s, steps)
    decreases |steps|
  {
    if steps == [] then s else Run(Do(s, steps[0]), steps[1..])
  }

  predicate Initial(s: State) {
    !s.running && s.id == Zero && s.control == Ready && s.threads == []
  }

  /** Still able to read the module list or to clear thread_id. */
  predicate Active(pc: LoopPc) {
    pc.Born? || pc.LoopTop? || pc.Serving? || pc.Leaving?
  }

  predicate NoneActive(s: State) {
    forall k :: 0 <= k < |s.threads| ==> !Active(s.threads[k])
  }

  predicate LastActive(s: State) {
    s.threads != [] && Active(s.threads[|s.threads| - 1])
  }

  /** A thread can only have been overtaken by a newer one once it is finished, and while
      one may be active the server knows it by its id. */
  predicate Inv(s: State) {
    && (forall k :: 0 <= k < |s.threads| - 1 ==> !Active(s.threads[k]))
    && match s.control
       case Ready => LastActive(s) ==> s.running && s.id == Tid(|s.threads| - 1)
       case Created => s.running && s.threads != []
       case StopPolling(_) => !s.running && (LastActive(s) ==> s.id == Tid(|s.threads| - 1))
       case Flagged => s.running && !LastActive(s)
       case CreateFailed => s.running && !LastActive(s)
       case _ => !s.running && !LastActive(s)
  }

  lemma InvStays(s: State, a: Step)
    requires Inv(s) && Enabled(s, a)
    ensures Inv(Do(s, a))
  {
  }

  lemma {:induction false} RunInv(s: State, steps: seq<Step>)
    requires Inv(s) && ValidRun(s, steps)
    ensures Inv(Run(s, steps))
    decreases |steps|
  {
    if steps != [] {
      InvStays(s, steps[0]);
      RunInv(Do(s, steps[0]), steps[1..]);
    }
  }

  /** In every interleaving at most one loop thread is active, whether pthread_create
      stores the id before or after the thread runs. */
  lemma AtMostOneLoopThread(s: State, steps: seq<Step>, i: nat, j: nat)
    requires Initial(s) && ValidRun(s, steps)
    requires i < |Run(s, steps).threads| && j < |Run(s, steps).threads|
    requires Active(Run(s, steps).threads[i]) && Active(Run(s, steps).threads[j])
    ensures i == j
  {
    RunInv(s, steps);
  }

  /** The step in which dbus_stop_main_loop returns to its caller. */
  predicate StopReturnsIn(s: State, a: Step)
    requires Enabled(s, a)
  {
    (a.StopCall? || a.StopPoll?) && !Do(s, a).control.StopPolling?
  }

  /** When dbus_stop_main_loop returns, no loop thread is active, so none will read the
      module list again before another start; and cleanup destroys the modules, even
      when its ten rounds have run out, only with no thread left to read them. */
  lemma StopMeansStopped(s: State, steps: seq<Step>, a: Step)
    requires Initial(s) && ValidRun(s, steps) && Enabled(Run(s, steps), a)
    ensures StopReturnsIn(Run(s, steps), a) ==> NoneActive(Do(Run(s, steps), a))
    ensures a.DestroyModules? ==> NoneActive(Run(s, steps))
  {
    RunInv(s, steps);
    InvStays(Run(s, steps), a);
  }

  lemma {:induction false} StaysQuiet(s: State, steps: seq<Step>)
    requires NoneActive(s) && ValidRun(s, steps)
    requires forall a :: a in steps ==> !a.CreateThread?
    ensures NoneActive(Run(s, steps)) && |Run(s, steps).threads| == |s.threads|
    decreases |steps|
  {
    if steps != [] {
      StaysQuiet(Do(s, steps[0]), steps[1..]);
    }
  }

  // ----- When the stop loop can end -----

  lemma {:induction false} StuckStays(s: State, steps: seq<Step>)
    requires Inv(s) && s.control.StopPolling? && s.id != Zero && !LastActive(s)
    requires ValidRun(s, steps)
    ensures Run(s, steps).control.StopPolling?
    decreases |steps|
  {
    if steps != [] {
      InvStays(s, steps[0]);
      assert NoneActive(s);
      StuckStays(Do(s, steps[0]), steps[1..]);
    }
  }

  /** The steps by which the last thread reaches its end once is_running is clear. */
  function ToEnd(s: State): (steps: seq<Step>)
    requires s.threads != []
  {
    var k := |s.threads| - 1;
    match s.threads[k]
    case Born => [ReachLoop(k), ReadFlag(k), Finish(k)]
    case LoopTop => [ReadFlag(k), Finish(k)]
    case Serving => [Serve(k, true), Finish(k)]
    case Leaving => [Finish(k)]
    case _ => []
  }

  lemma {:induction false} FinishReturns(s: State) returns (steps: seq<Step>)
    requires Inv(s) && s.control.StopPolling? && (s.id == Zero || LastActive(s))
    ensures ValidRun(s, steps) && !Run(s, steps).control.StopPolling?
    decreases if s.id == Zero then 0 else 1, if s.id == Zero then 0 else |ToEnd(s)|
  {
    if s.id == Zero {
      steps := [StopPoll];
      assert steps[1..] == [];
      assert ValidRun(Do(s, StopPoll), []);
      assert Run(s, steps) == Run(Do(s, StopPoll), []);
    } else {
      var a := ToEnd(s)[0];
      InvStays(s, a);
      var rest := FinishReturns(Do(s, a));
      steps := [a] + rest;
      assert steps[1..] == rest;
    }
  }

  /** The stop loop has no bound of its own: it can return exactly when the id is already
      zero or a loop thread is still active to clear it. */
  lemma StopReturnsExactlyWhen(s: State)
    requires Inv(s) && s.control.StopPolling?
    ensures (exists steps :: ValidRun(s, steps) && !Run(s, steps).control.StopPolling?)
        <==> s.id == Zero || LastActive(s)
  {
    if s.id == Zero || LastActive(s) {
      var steps := FinishReturns(s);
    } else {
      forall steps | ValidRun(s, steps)
        ensures Run(s, steps).control.StopPolling?
      {
        StuckStays(s, steps);
      }
    }
  }

  /** In the stop loop with an id that nobody will clear: by StuckStays, for ever. */
  predicate Stuck(s: State) {
    s.control.StopPolling? && s.id != Zero && !LastActive(s)
  }

  predicate NoStopCall(steps: seq<Step>) {
    forall i :: 0 <= i < |steps| ==> !steps[i].StopCall?
  }

  /** This stop does not get stuck, whatever happens. */
  ghost predicate NeverStuck(s: State) {
    forall steps :: ValidRun(s, steps) && NoStopCall(steps) ==> !Stuck(Run(s, steps))
  }

  /** The id is zero, or the last thread has reached its loop. */
  predicate SureToClear(s: State) {
    s.id == Zero || (s.threads != [] && s.threads[|s.threads| - 1] in {LoopTop, Serving, Leaving})
  }

  lemma SureStays(s: State, a: Step)
    requires Inv(s) && Enabled(s, a) && !a.StopCall?
    requires s.control.StopPolling? ==> SureToClear(s)
    ensures Do(s, a).control.StopPolling? ==> SureToClear(Do(s, a))
  {
  }

  lemma {:induction false} SureRun(s: State, steps: seq<Step>)
    requires Inv(s) && ValidRun(s, steps) && NoStopCall(steps)
    requires s.control.StopPolling? ==> SureToClear(s)
    ensures !Stuck(Run(s, steps))
    decreases |steps|
  {
    if steps != [] {
      InvStays(s, steps[0]);
      SureStays(s, steps[0]);
      SureRun(Do(s, steps[0]), steps[1..]);
    }
  }

  /** The stop is sure not to get stuck, in every interleaving, exactly when the id is zero
      or the last thread has reached its loop. A thread that is only born may still return
      early and leave the id behind; one that is done, or returned early, has done so. */
  lemma StopSureToReturnExactlyWhen(s: State)
    requires Inv(s) && s.control.StopPolling?
    ensures NeverStuck(s) <==> SureToClear(s)
  {
    if SureToClear(s) {
      forall steps | ValidRun(s, steps) && NoStopCall(steps)
        ensures !Stuck(Run(s, steps))
      {
        SureRun(s, steps);
      }
    } else if LastActive(s) {
      var steps := Then(s, [], ReturnEarly(|s.threads| - 1));
      assert Stuck(Run(s, steps));
    } else {
      assert ValidRun(s, []) && Stuck(Run(s, []));
    }
  }

  lemma {:induction false} Then(s: State, xs: seq<Step>, a: Step) returns (ys: seq<Step>)
    requires ValidRun(s, xs) && Enabled(Run(s, xs), a)
    ensures ys == xs + [a] && ValidRun(s, ys) && Run(s, ys) == Do(Run(s, xs), a)
    decreases |xs|
  {
    ys := xs + [a];
    if xs == [] {
      assert ys == [a] && ys[1..] == [];
      assert ValidRun(Do(s, a), []);
    } else {
      var rest := Then(Do(s, xs[0]), xs[1..], a);
      assert ys[1..] == rest;
    }
  }

  /** Both ways into a stuck stop occur: a thread that returns before its loop, and an id
      stored after its thread has finished. */
  lemma EarlyReturnSticks(s: State) returns (steps: seq<Step>)
    requires Initial(s)
    ensures ValidRun(s, steps) && Stuck(Run(s, steps))
  {
    steps := Then(s, [], StartCall);
    steps := Then(s, steps, CreateThread(true));
    steps := Then(s, steps, StopCall(false));
    steps := Then(s, steps, ReturnEarly(0));
  }

  lemma LateIdSticks(s: State) returns (steps: seq<Step>)
    requires Initial(s)
    ensures ValidRun(s, steps) && Stuck(Run(s, steps)) && Run(s, steps).threads == [Done]
  {
    steps := Then(s, [], StartCall);
    steps := Then(s, steps, CreateThread(false));
    steps := Then(s, steps, ReachLoop(0));
    steps := Then(s, steps, ReadFlag(0));
    steps := Then(s, steps, Serve(0, true));
    steps := Then(s, steps, Finish(0));
    steps := Then(s, steps, StoreId);
    steps := Then(s, steps, StopCall(false));
  }

  /** Own steps a thread that has reached its loop still takes once is_running is clear. */
  function Remaining(pc: LoopPc): nat {
    match pc
    case Serving => 3
    case LoopTop => 2
    case Leaving => 1
    case _ => 0
  }

  predicate StepsThread(a: Step, k: nat) {
    (a.ReachLoop? || a.ReturnEarly? || a.ReadFlag? || a.Serve? || a.Finish?) && a.k == k
  }

  function OwnSteps(steps: seq<Step>, k: nat): nat {
    if steps == [] then 0
    else (if StepsThread(steps[0], k) then 1 else 0) + OwnSteps(steps[1..], k)
  }

  /** A thread that reached its loop ends after at most three of its own steps, whatever
      the others do meanwhile, and its end zeroes the id the stop loop waits for. */
  lemma {:induction false} LoopThreadEnds(s: State, steps: seq<Step>, k: nat)
    requires Inv(s) && s.control.StopPolling? && ValidRun(s, steps) && StopPoll !in steps
    requires k < |s.threads| && s.threads[k] in {LoopTop, Serving, Leaving}
    ensures var t := Run(s, steps);
            && k < |t.threads|
            && OwnSteps(steps, k) + Remaining(t.threads[k]) <= Remaining(s.threads[k])
            && (t.threads[k] == Done ==> t.id == Zero)
            && (t.threads[k] != Done ==> Active(t.threads[k]))
    decreases |steps|
  {
    if steps != [] {
      var t := Do(s, steps[0]);
      InvStays(s, steps[0]);
      // Once the last thread is done, only the controlling thread could step.
      if t.threads[k] != Done {
        LoopThreadEnds(t, steps[1..], k);
      }
    }
  }

  // ----- While is_running is set -----

  /** No step that ends the loop: neither a stop nor a failed start nor a failed poll. */
  predicate NothingEnds(steps: seq<Step>, k: nat) {
    forall i :: 0 <= i < |steps| ==>
      !steps[i].StopCall? && !steps[i].UndoStart? && steps[i] != Serve(k, true)
  }

  /** A thread in its loop goes on serving until it is stopped or poll fails. */
  lemma {:induction false} KeepsServing(s: State, steps: seq<Step>, k: nat)
    requires s.running && k < |s.threads| && s.threads[k] in {LoopTop, Serving}
    requires ValidRun(s, steps) && NothingEnds(steps, k)
    ensures var t := Run(s, steps); t.running && k < |t.threads| && t.threads[k] in {LoopTop, Serving}
    decreases |steps|
  {
    if steps != [] {
      KeepsServing(Do(s, steps[0]), steps[1..], k);
    }
  }

  /** It comes to poll again with each round of its own. */
  lemma RoundPollsAgain(s: State, k: nat) returns (steps: seq<Step>)
    requires s.running && k < |s.threads| && s.threads[k] == Serving
    ensures |steps| == 2 && steps[0] == Serve(k, false)
    ensures ValidRun(s, steps) && Run(s, steps) == s
  {
    steps := Then(s, [], Serve(k, false));
    steps := Then(s, steps, ReadFlag(k));
  }

  /** A start of a stopped server sets the flag and brings a new thread into its loop, known
      to the server by its id; the threads before it are as they were. */
  lemma StartServes(s: State, storesFirst: bool) returns (steps: seq<Step>)
    requires s.control == Ready && !s.running
    ensures ValidRun(s, steps)
    ensures Run(s, steps) == State(true, Tid(|s.threads|), Ready, s.threads + [Serving])
  {
    var k := |s.threads|;
    steps := Then(s, [], StartCall);
    steps := Then(s, steps, CreateThread(storesFirst));
    if !storesFirst {
      steps := Then(s, steps, StoreId);
    }
    steps := Then(s, steps, ReachLoop(k));
    steps := Then(s, steps, ReadFlag(k));
    assert Run(s, steps).threads == s.threads + [Serving];
  }

  /** A start of a running server changes nothing. */
  lemma StartTwiceIsOnce(s: State)
    requires s.control == Ready && s.running
    ensures Enabled(s, StartCall) && Do(s, StartCall) == s
  {
  }

  /** A failed start leaves a stopped server that can be started again. */
  lemma FailedStartIsUndone(s: State, left: ThreadId) returns (steps: seq<Step>)
    requires s.control == Ready && !s.running
    ensures ValidRun(s, steps) && Run(s, steps) == s.(id := left)
  {
    steps := Then(s, [], StartCall);
    steps := Then(s, steps, CreateFails(left));
    steps := Then(s, steps, UndoStart);
  }

  function Times(a: Step, n: nat): (steps: seq<Step>)
    ensures |steps| == n && forall i :: 0 <= i < n ==> steps[i] == a
  {
    seq(n, _ => a)
  }

  /** The second wait of dbus_server_cleanup takes ten rounds of an id that stays. */
  lemma {:induction false} CleanupWaitsRounds(s: State, n: nat)
    requires s.control.CleanupWait? && s.id != Zero && s.control.round + n <= 10
    ensures ValidRun(s, Times(CleanupPoll, n))
    ensures Run(s, Times(CleanupPoll, n)) == s.(control := CleanupWait(s.control.round + n))
    decreases n
  {
    if n > 0 {
      assert Times(CleanupPoll, n)[1..] == Times(CleanupPoll, n - 1);
      CleanupWaitsRounds(Do(s, CleanupPoll), n - 1);
    }
  }

  /** It goes on to the modules at once when the id is zero, and otherwise after exactly
      ten rounds. */
  lemma CleanupGoesOnExactlyWhen(s: State, n: nat)
    requires s.control == CleanupWait(0) && n <= 10
    ensures s.id == Zero ==> Do(s, CleanupPoll).control == DestroyingModules
    ensures s.id != Zero ==>
      && ValidRun(s, Times(CleanupPoll, n))
      && Enabled(Run(s, Times(CleanupPoll, n)), CleanupPoll)
      && (Do(Run(s, Times(CleanupPoll, n)), CleanupPoll).control.DestroyingModules? <==> n == 10)
  {
    if s.id != Zero { CleanupWaitsRounds(s, n); }
  }

  /** A stop of a stopped server returns at once, whatever id was left behind; so does the
      one that cleanup makes. */
  lemma StopOfStopped(s: State)
    requires s.control == Ready && !s.running
    ensures Do(s, StopCall(false)) == s
    ensures Do(s, StopCall(true)) == s.(control := CleanupWait(0))
  {
  }

  /** Cleanup of a running server: it stops the loop thread, waits for it, and frees
      everything with the thread done. */
  lemma CleanupFreesServer(s: State, k: nat) returns (steps: seq<Step>)
    requires s.control == Ready && s.running && s.id == Tid(k) && At(s, k, LoopTop)
    ensures ValidRun(s, steps) && Run(s, steps) == State(false, Zero, Freed, s.threads[k := Done])
  {
    steps := Then(s, [], StopCall(true));
    steps := Then(s, steps, StopPoll);
    steps := Then(s, steps, ReadFlag(k));
    steps := Then(s, steps, Finish(k));
    steps := Then(s, steps, StopPoll);
    steps := Then(s, steps, CleanupPoll);
    steps := Then(s, steps, DestroyModules);
    assert s.threads[k := Leaving][k := Done] == s.threads[k := Done];
  }
}
