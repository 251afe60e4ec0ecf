/** Shutdown of the asynchronous logger: when the worker drains the ring, when it does
    not, and how long it takes (src/logger.c, src/main.c). */
module LoggerShutdown {
  import opened LogRing
  import opened LoggerProtocol

  predicate NoFatalQueued(s: State)
    requires s.ring.Valid()
  {
    && (forall i :: 0 <= i < s.ring.size ==> !s.ring.Contents()[i].level.Fatal?)
    && !(s.worker.Holding? && s.worker.m.level.Fatal?)
    && !s.worker.WorkerDying?
  }

  /** Some producer has seen the flag clear and has not yet taken the mutex. */
  predicate MidEnqueue(s: State) {
    exists p :: p in s.producers && s.producers[p].Passed?
  }

  /** The worker has found the ring empty, a message has come in since, and the worker
      will not look again before it tests the flag. */
  predicate Overtaken(s: State) {
    s.worker.SeenEmpty? && 0 < s.ring.size
  }

  /** Async logging is up and the shutdown flag is about to rise for the first time. */
  ghost predicate BeforeShutdown(s: State) {
    Inv(s) && s.initialized && s.async && !s.shutdown && !s.exited && NoFatalQueued(s)
  }

  predicate RaisesFlag(a: Step) {
    a == Signal || a.CleanupRaise?
  }

  predicate KeepsFileOpen(steps: seq<Step>) {
    forall i :: 0 <= i < |steps| ==> !steps[i].CleanupClose?
  }

  /** A thread got through logger_cleanup without waiting, because another one was there
      before it. */
  predicate SkipsFollow(s: State) {
    forall c :: c in s.cleaners && s.cleaners[c] == Joined(false) ==>
      exists d :: d in s.cleaners && d != c && !s.cleaners[d].Raised? && !s.cleaners[d].Stopping?
  }

  /** What holds from the raise of the flag until the file is closed. */
  ghost predicate Draining(s: State) {
    && Inv(s) && s.shutdown && s.initialized && s.async
    && NoFatalQueued(s) && !MidEnqueue(s) && !Overtaken(s)
    && (s.worker.Gone? ==> s.ring.size == 0)
    && (forall c :: c in s.cleaners ==> !s.cleaners[c].Closed? && !s.cleaners[c].Leaving?) && SkipsFollow(s)
  }

  predicate IsWorkerStep(a: Step) {
    a.WorkerLoopTest? || a.WorkerDequeue? || a.WorkerWrite? || a.WorkerFlagTest?
  }

  /** Worker steps still to come: four for each queued message, plus the way out. */
  function Work(s: State): nat {
    4 * s.ring.size +
    match s.worker
    case Gone => 0
    case Guard => 3
    case Trying => 2
    case Holding(_) => 5
    case SeenEmpty => 1
    case WorkerDying => 0
  }

  lemma RaiseStartsDraining(s: State, a: Step)
    requires BeforeShutdown(s) && RaisesFlag(a) && Enabled(s, a)
    requires !MidEnqueue(s) && !Overtaken(s)
    ensures Draining(Do(s, a))
  {
    InvStays(s, a);
  }

  lemma DequeueStaysCalm(s: State)
    requires s.ring.Valid() && NoFatalQueued(s) && Enabled(s, WorkerDequeue) && 0 < s.ring.size
    ensures Do(s, WorkerDequeue).ring.Valid() && NoFatalQueued(Do(s, WorkerDequeue))
  {
    TakeRemovesFront(s.ring);
    var c := s.ring.Contents();
    assert c[0] == s.ring.Front();
    var t := Do(s, WorkerDequeue);
    forall i | 0 <= i < t.ring.size
      ensures !t.ring.Contents()[i].level.Fatal?
    {
      assert t.ring.Contents()[i] == c[i + 1];
    }
  }

  /** Nobody gets between the flag test and the mutex any more. */
  lemma NobodyEnters(s: State, a: Step)
    requires s.ring.Valid() && Enabled(s, a) && s.shutdown && s.initialized && !MidEnqueue(s)
    ensures !MidEnqueue(Do(s, a))
  {
    var t := Do(s, a);
    forall p | p in t.producers
      ensures !t.producers[p].Passed?
    {
      assert p in s.producers ==> !s.producers[p].Passed?;
    }
  }

  lemma NoLockedEnqueue(s: State, a: Step)
    requires Enabled(s, a) && !MidEnqueue(s)
    ensures !a.LockedEnqueue?
  {
  }

  lemma QueueStaysCalm(s: State, a: Step)
    requires Draining(s) && Enabled(s, a)
    ensures Do(s, a).ring.Valid() && NoFatalQueued(Do(s, a))
  {
    RingStays(s, a);
    if a.WorkerDequeue? && 0 < s.ring.size {
      DequeueStaysCalm(s);
    } else {
      NoLockedEnqueue(s, a);
      assert Do(s, a).ring == s.ring;
    }
  }

  /** While draining, the worker's steps use up its work and nobody else adds any. */
  lemma WorkShrinks(s: State, a: Step)
    requires Draining(s) && Enabled(s, a)
    ensures if IsWorkerStep(a) then Work(Do(s, a)) < Work(s) else Work(Do(s, a)) == Work(s)
  {
    NoLockedEnqueue(s, a);
  }

  lemma SkipsStay(s: State, a: Step)
    requires Draining(s) && Enabled(s, a) && !a.CleanupClose?
    ensures var t := Do(s, a);
            SkipsFollow(t) && forall c :: c in t.cleaners ==> !t.cleaners[c].Closed? && !t.cleaners[c].Leaving?
  {
    var t := Do(s, a);
    if IsLogging(a) {
      LoggingKeepsFlags(s, a);
    }
    forall c | c in t.cleaners && t.cleaners[c] == Joined(false)
      ensures exists d :: d in t.cleaners && d != c && !t.cleaners[d].Raised? && !t.cleaners[d].Stopping?
    {
      var d :| d in s.cleaners && d != c && !s.cleaners[d].Raised? && !s.cleaners[d].Stopping?;
      assert d in t.cleaners && !t.cleaners[d].Raised? && !t.cleaners[d].Stopping?;
    }
  }

  lemma DrainingStays(s: State, a: Step)
    requires Draining(s) && Enabled(s, a) && !a.CleanupClose?
    ensures Draining(Do(s, a))
    ensures if IsWorkerStep(a) then Work(Do(s, a)) < Work(s) else Work(Do(s, a)) == Work(s)
    ensures Do(s, a).fileOpen == s.fileOpen
  {
    InvStays(s, a);
    QueueStaysCalm(s, a);
    NobodyEnters(s, a);
    WorkShrinks(s, a);
    NoLockedEnqueue(s, a);
    SkipsStay(s, a);
  }

  function WorkerSteps(steps: seq<Step>): nat {
    if steps == [] then 0
    else (if IsWorkerStep(steps[0]) then 1 else 0) + WorkerSteps(steps[1..])
  }

  /** The lines a run adds: to the output always, to the file while it is open. */
  predicate Appends(s: State, t: State) {
    && s.written <= t.written
    && t.file == if s.fileOpen then s.file + t.written[|s.written|..] else s.file
  }

  lemma StepAppends(s: State, a: Step)
    requires s.ring.Valid() && Enabled(s, a) && !a.Init?
    ensures Appends(s, Do(s, a))
  {
    var t := Do(s, a);
    if IsLogging(a) {
      OutputGrows(s, a);
      FileGrows(s, a);
      assert t.written[|s.written|..] == if t.written == s.written then [] else [t.written[|s.written|]];
    } else {
      LifecycleMovesNothing(s, a);
      LifecycleAndTheFile(s, a);
    }
  }

  lemma AppendsJoin(s: State, t: State, u: State)
    requires Appends(s, t) && Appends(t, u) && t.fileOpen == s.fileOpen
    ensures Appends(s, u)
  {
    assert u.written[|s.written|..] == t.written[|s.written|..] + u.written[|t.written|..];
  }

  lemma {:induction false} DrainingRun(s: State, steps: seq<Step>)
    requires Draining(s) && ValidRun(s, steps) && KeepsFileOpen(steps)
    ensures Draining(Run(s, steps))
    ensures WorkerSteps(steps) + Work(Run(s, steps)) <= Work(s)
    ensures Run(s, steps).fileOpen == s.fileOpen && Appends(s, Run(s, steps))
    decreases |steps|
  {
    if steps != [] {
      var t := Do(s, steps[0]);
      DrainingStays(s, steps[0]);
      StepAppends(s, steps[0]);
      DrainingRun(t, steps[1..]);
      AppendsJoin(s, t, Run(t, steps[1..]));
    }
  }

  /** `who` is about to close the file and is the only thread in logger_cleanup. */
  predicate AboutToClose(s: State, who: Caller) {
    s.cleaners.Keys == {who} && s.cleaners[who].Joined?
  }

  lemma DrainedAtClose(s: State, who: Caller)
    requires Draining(s) && AboutToClose(s, who)
    ensures s.worker.Gone? && s.ring.size == 0
  {
    assert forall d :: d in s.cleaners ==> d in s.cleaners.Keys;
    assert who in s.cleaners.Keys;
  }

  /** The log file has the message, if there is one open. */
  predicate InFile(s: State, m: Message) {
    s.fileOpen ==> m in s.file
  }

  /** It was written before the log file was opened. */
  predicate Before(s: State, m: Message)
    requires s.openedAt <= |s.written|
  {
    m in s.written[..s.openedAt]
  }

  lemma WrittenIsInFile(s: State, m: Message)
    requires FileKept(s) && m in s.written
    ensures InFile(s, m) || Before(s, m)
  {
    assert s.written == s.written[..s.openedAt] + s.written[s.openedAt..];
  }

  /** If the flag rises at a safe moment, the worker leaves with an empty ring and, when
      one thread has gone through logger_cleanup and is about to close the file, every
      accepted message is written, and is in the file unless it was written before the file
      was opened. */
  lemma ShutdownDrains(s: State, a: Step, steps: seq<Step>)
    requires BeforeShutdown(s) && RaisesFlag(a) && Enabled(s, a)
    requires !MidEnqueue(s) && !Overtaken(s)
    requires ValidRun(Do(s, a), steps) && KeepsFileOpen(steps)
    ensures var t := Run(Do(s, a), steps);
            && Inv(t)
            && (t.worker.Gone? ==> t.ring.Contents() == [] && t.workerOut == t.accepted)
            && (forall who :: AboutToClose(t, who) ==>
                  t.worker.Gone? && forall m :: m in t.accepted ==> m in t.written && (InFile(t, m) || Before(t, m)))
            && t.fileOpen == s.fileOpen && Appends(s, t)
    ensures WorkerSteps(steps) <= Work(s)
  {
    RaiseStartsDraining(s, a);
    DrainingRun(Do(s, a), steps);
    var t := Run(Do(s, a), steps);
    forall who | AboutToClose(t, who)
      ensures t.worker.Gone? && forall m :: m in t.accepted ==> m in t.written && (InFile(t, m) || Before(t, m))
    {
      DrainedAtClose(t, who);
      forall m | m in t.accepted
        ensures InFile(t, m) || Before(t, m)
      {
        WrittenIsInFile(t, m);
      }
    }
  }

  /** The drain cannot get stuck: until the worker has left, it can always step. */
  lemma DrainNeverBlocks(s: State)
    requires Draining(s) && !s.exited
    ensures s.worker.Gone? || exists a :: IsWorkerStep(a) && Enabled(s, a)
  {
    match s.worker
    case Gone =>
    case Guard => assert IsWorkerStep(WorkerLoopTest) && Enabled(s, WorkerLoopTest);
    case Trying => assert IsWorkerStep(WorkerDequeue) && Enabled(s, WorkerDequeue);
    case Holding(_) => assert IsWorkerStep(WorkerWrite) && Enabled(s, WorkerWrite);
    case SeenEmpty => assert IsWorkerStep(WorkerFlagTest) && Enabled(s, WorkerFlagTest);
  }

  // ----- The other direction: an unsafe moment loses a message -----

  lemma RunCons(s: State, a: Step, rest: seq<Step>)
    requires s.ring.Valid() && Enabled(s, a) && ValidRun(Do(s, a), rest)
    ensures ValidRun(s, [a] + rest) && Run(s, [a] + rest) == Run(Do(s, a), rest)
  {
    assert ([a] + rest)[1..] == rest;
  }

  lemma {:induction false} RunConcat(s: State, xs: seq<Step>, ys: seq<Step>)
    requires ValidRun(s, xs) && ValidRun(Run(s, xs), ys)
    ensures ValidRun(s, xs + ys) && Run(s, xs + ys) == Run(Run(s, xs), ys)
    decreases |xs|
  {
    if xs == [] {
      assert xs + ys == ys;
    } else {
      RunConcat(Do(s, xs[0]), xs[1..], ys);
      RunCons(s, xs[0], xs[1..] + ys);
      assert xs + ys == [xs[0]] + (xs[1..] + ys);
    }
  }

  lemma Extend(s: State, xs: seq<Step>, a: Step)
    requires ValidRun(s, xs) && Run(s, xs).ring.Valid() && Enabled(Run(s, xs), a)
    ensures ValidRun(s, xs + [a]) && Run(s, xs + [a]) == Do(Run(s, xs), a)
  {
    RunCons(Run(s, xs), a, []);
    assert [a] + [] == [a];
    RunConcat(s, xs, [a]);
  }

  /** A run with one more step. */
  lemma Then(s: State, xs: seq<Step>, a: Step) returns (ys: seq<Step>)
    requires ValidRun(s, xs) && Run(s, xs).ring.Valid() && Enabled(Run(s, xs), a)
    ensures ys == xs + [a] && ValidRun(s, ys) && Run(s, ys) == Do(Run(s, xs), a)
  {
    ys := xs + [a];
    Extend(s, xs, a);
  }

  /** Everything but the ring, the worker and its output is as before. */
  predicate SameOutside(s: State, t: State) {
    && t.shutdown == s.shutdown && t.running == s.running && t.initialized == s.initialized
    && t.async == s.async && t.exited == s.exited && t.producers == s.producers && t.cleaners == s.cleaners
  }

  /** Under shutdown, with nothing in the worker's way. */
  ghost predicate RunningOut(s: State) {
    && Inv(s) && s.shutdown && !s.exited && NoFatalQueued(s) && !Overtaken(s)
    && (s.worker.Gone? ==> s.ring.size == 0)
  }

  function NextWorkerStep(s: State): Step {
    match s.worker
    case Guard => WorkerLoopTest
    case Trying => WorkerDequeue
    case Holding(_) => WorkerWrite
    case _ => WorkerFlagTest
  }

  lemma WorkerStepRunsOut(s: State, a: Step)
    requires RunningOut(s) && !s.worker.Gone? && a == NextWorkerStep(s)
    ensures Enabled(s, a) && RunningOut(Do(s, a)) && Work(Do(s, a)) < Work(s)
  {
    InvStays(s, a);
    if a.WorkerDequeue? && 0 < s.ring.size { DequeueStaysCalm(s); }
  }

  lemma WorkerStepStaysInside(s: State, a: Step)
    requires s.ring.Valid() && IsWorkerStep(a) && Enabled(s, a)
    ensures SameOutside(s, Do(s, a))
  {
    LoggingKeepsFlags(s, a);
  }

  /** The worker alone can empty the ring and leave. */
  lemma WorkerRunsOut(s: State) returns (steps: seq<Step>)
    requires RunningOut(s)
    ensures ValidRun(s, steps) && KeepsFileOpen(steps)
    ensures var t := Run(s, steps); Inv(t) && t.worker.Gone? && t.ring.size == 0 && SameOutside(s, t)
    decreases Work(s)
  {
    if s.worker.Gone? {
      return [];
    }
    var a := NextWorkerStep(s);
    WorkerStepRunsOut(s, a);
    WorkerStepStaysInside(s, a);
    var rest := WorkerRunsOut(Do(s, a));
    steps := [a] + rest;
    assert steps[1..] == rest;
  }

  /** The steps of one thread from the raised flag to the close, with the worker gone. */
  lemma RaisedReachesClose(s: State, who: Caller) returns (steps: seq<Step>)
    requires s.ring.Valid() && s.async && s.running && !s.exited && s.worker.Gone? && s.cleaners == map[who := Raised]
    ensures ValidRun(s, steps) && KeepsFileOpen(steps)
    ensures AboutToClose(Run(s, steps), who) && Run(s, steps).ring == s.ring
  {
    steps := Then(s, [], CleanupTest(who));
    steps := Then(s, steps, CleanupClear(who));
    steps := Then(s, steps, CleanupJoin(who));
  }

  /** From a state whose worker has left, cleanup reaches the point where it closes the
      file, whatever is still queued. */
  lemma CleanupReachesClose(s: State, who: Caller) returns (steps: seq<Step>)
    requires Inv(s) && s.initialized && s.async && !s.exited && s.worker.Gone? && s.shutdown
    requires s.cleaners == map[who := Raised] || (s.cleaners == map[] && who == MainThread)
    ensures ValidRun(s, steps) && KeepsFileOpen(steps)
    ensures AboutToClose(Run(s, steps), who) && Run(s, steps).ring == s.ring
  {
    assert !Stopped(s);
    if who in s.cleaners {
      steps := RaisedReachesClose(s, who);
    } else {
      assert Enabled(s, CleanupRaise(MainThread));
      var t := Do(s, CleanupRaise(MainThread));
      assert t.cleaners == map[MainThread := Raised];
      var rest := RaisedReachesClose(t, MainThread);
      RunCons(s, CleanupRaise(MainThread), rest);
      steps := [CleanupRaise(MainThread)] + rest;
    }
  }

  /** The ring is empty whenever logger_cleanup gets to closing the file. */
  ghost predicate AlwaysDrained(t: State) {
    forall steps, who :: ValidRun(t, steps) && KeepsFileOpen(steps) && AboutToClose(Run(t, steps), who)
      ==> Run(t, steps).ring.size == 0
  }

  /** Who cleans up after the step `a`. */
  function Closer(a: Step): Caller {
    if a.CleanupRaise? then a.who else MainThread
  }

  lemma OvertakenLoses(s: State, a: Step)
    requires BeforeShutdown(s) && RaisesFlag(a) && Enabled(s, a) && Overtaken(s)
    ensures !AlwaysDrained(Do(s, a))
  {
    var t := Do(s, a);
    InvStays(s, a);
    var u := Do(t, WorkerFlagTest);
    InvStays(t, WorkerFlagTest);
    var rest := CleanupReachesClose(u, Closer(a));
    var steps := [WorkerFlagTest] + rest;
    assert steps[1..] == rest;
    assert ValidRun(t, steps) && Run(t, steps) == Run(u, rest);
  }

  lemma MidEnqueueLoses(s: State, a: Step)
    requires BeforeShutdown(s) && RaisesFlag(a) && Enabled(s, a) && MidEnqueue(s) && !Overtaken(s)
    ensures !AlwaysDrained(Do(s, a))
  {
    var t := Do(s, a);
    InvStays(s, a);
    var p :| p in s.producers && s.producers[p].Passed?;
    var xs := WorkerRunsOut(t);
    var u := Run(t, xs);
    var late := LockedEnqueue(p);
    var v := Do(u, late);
    InvStays(u, late);
    var rest := CleanupReachesClose(v, Closer(a));
    var ys := [late] + rest;
    assert ys[1..] == rest;
    RunConcat(t, xs, ys);
    assert ValidRun(t, xs + ys) && KeepsFileOpen(xs + ys);
  }

  /** When no FATAL is queued, shutdown drains in every interleaving exactly if the flag
      rises while no producer is between its flag test and the mutex and the worker has
      not been overtaken. */
  lemma DrainsExactlyWhen(s: State, a: Step)
    requires BeforeShutdown(s) && RaisesFlag(a) && Enabled(s, a)
    ensures AlwaysDrained(Do(s, a)) <==> !MidEnqueue(s) && !Overtaken(s)
  {
    if Overtaken(s) {
      OvertakenLoses(s, a);
    } else if MidEnqueue(s) {
      MidEnqueueLoses(s, a);
    } else {
      forall steps, who | ValidRun(Do(s, a), steps) && KeepsFileOpen(steps) && AboutToClose(Run(Do(s, a), steps), who)
        ensures Run(Do(s, a), steps).ring.size == 0
      {
        ShutdownDrains(s, a, steps);
      }
    }
  }

  // ----- States that do occur -----

  const First: Message := Message(0, Info)

  /** The logger initialised, and one producer with a message formed. */
  predicate OneFormed(s: State) {
    && s.initialized && s.async && s.running && !s.shutdown && !s.exited && s.fileOpen && s.minLevel == Debug
    && s.worker == Guard && s.cleaners == map[] && s.producers == map[0 := Formed(First)]
    && s.issued == [First] && s.accepted == s.workerOut == s.written == []
    && s.ring.Valid() && s.ring.Contents() == []
  }

  lemma OneFormedIsReachable(s: State) returns (steps: seq<Step>)
    requires Initial(s)
    ensures ValidRun(s, steps) && OneFormed(Run(s, steps)) && BeforeShutdown(Run(s, steps))
  {
    InitialInv(s);
    steps := Then(s, [], Init(true, true, Debug, true));
    steps := Then(s, steps, LogCall(0, Info));
    RunInv(s, steps);
  }

  /** The same with the message past the flag test, and then in the ring. */
  predicate OnePassed(s: State) {
    && s.initialized && s.async && s.running && !s.shutdown && !s.exited && s.fileOpen && s.minLevel == Debug
    && s.worker == Guard && s.cleaners == map[] && s.producers == map[0 := Passed(First)]
    && s.issued == [First] && s.accepted == s.workerOut == s.written == []
    && s.ring.Valid() && s.ring.Contents() == []
  }

  predicate OneQueued(s: State) {
    && s.initialized && s.async && s.running && !s.shutdown && !s.exited && s.fileOpen && s.minLevel == Debug
    && s.worker == Guard && s.cleaners == map[] && s.producers == map[]
    && s.issued == s.accepted == [First] && s.workerOut == s.written == []
    && s.ring.Valid() && s.ring.Contents() == [First]
  }

  lemma OnePassedIsReachable(s: State) returns (steps: seq<Step>)
    requires Initial(s)
    ensures ValidRun(s, steps) && OnePassed(Run(s, steps)) && BeforeShutdown(Run(s, steps))
  {
    InitialInv(s);
    var before := OneFormedIsReachable(s);
    steps := Then(s, before, Submit(0));
    RunInv(s, steps);
  }

  lemma OneQueuedIsReachable(s: State) returns (steps: seq<Step>)
    requires Initial(s)
    ensures ValidRun(s, steps) && OneQueued(Run(s, steps)) && BeforeShutdown(Run(s, steps))
  {
    InitialInv(s);
    var before := OnePassedIsReachable(s);
    PutAppends(Run(s, before).ring, First);
    steps := Then(s, before, LockedEnqueue(0));
    RunInv(s, steps);
  }

  /** A producer between its flag test and the mutex is a reachable state. */
  lemma MidEnqueueIsReachable(s: State) returns (steps: seq<Step>)
    requires Initial(s)
    ensures ValidRun(s, steps)
    ensures var t := Run(s, steps); BeforeShutdown(t) && MidEnqueue(t) && !Overtaken(t)
    ensures !AlwaysDrained(Do(Run(s, steps), Signal))
  {
    steps := OnePassedIsReachable(s);
    var t := Run(s, steps);
    assert t.producers[0].Passed?;
    MidEnqueueLoses(t, Signal);
  }

  /** So is an overtaken worker: one message logged between the worker's look at the empty
      ring and its look at the flag is enough, with no producer left between its flag test
      and the mutex and no FATAL anywhere. */
  lemma OvertakenIsReachable(s: State) returns (steps: seq<Step>)
    requires Initial(s)
    ensures ValidRun(s, steps)
    ensures var t := Run(s, steps); BeforeShutdown(t) && !MidEnqueue(t) && Overtaken(t)
    ensures !AlwaysDrained(Do(Run(s, steps), Signal))
  {
    InitialInv(s);
    steps := OnePassedIsReachable(s);
    steps := Then(s, steps, WorkerLoopTest);
    steps := Then(s, steps, WorkerDequeue);
    PutAppends(Run(s, steps).ring, First);
    steps := Then(s, steps, LockedEnqueue(0));
    RunInv(s, steps);
    var t := Run(s, steps);
    assert t.producers == map[] && t.ring.Contents() == [First];
    OvertakenLoses(t, Signal);
  }

  /** A producer can log a FATAL under shutdown, writes it itself and turns to cleanup. */
  lemma FatalGoesSync(s: State, p: nat) returns (steps: seq<Step>)
    requires Inv(s) && s.initialized && s.shutdown && !s.exited && p !in s.producers
    ensures ValidRun(s, steps) && Run(s, steps).ring.Valid()
    ensures var m := Message(|s.issued|, Fatal);
            var t := Run(s, steps);
            && t == s.(producers := s.producers[p := Dying], issued := s.issued + [m],
                       written := s.written + [m], file := t.file)
  {
    steps := [];
    steps := Then(s, steps, LogCall(p, Fatal));
    steps := Then(s, steps, Submit(p));
    steps := Then(s, steps, SyncWrite(p));
    assert s.producers[p := Formed(Message(|s.issued|, Fatal))][p := Fallback(Message(|s.issued|, Fatal))][p := Dying]
        == s.producers[p := Dying];
  }

  /** A second cleanup does not wait: whenever one thread is waiting for the worker, a
      FATAL logged by any other closes the file at once, whatever is still queued. */
  lemma SecondCleanupClosesEarly(s: State, who: Caller, p: nat) returns (steps: seq<Step>)
    requires Inv(s) && s.initialized && s.async && s.shutdown && !s.exited
    requires who in s.cleaners && s.cleaners[who].Joining?
    requires p !in s.producers && Producer(p) !in s.cleaners
    ensures ValidRun(s, steps)
    ensures var t := Run(s, steps);
            !t.fileOpen && t.ring == s.ring && t.worker == s.worker
            && t.written == s.written + [Message(|s.issued|, Fatal)]
  {
    assert Stopped(s);
    var c := Producer(p);
    steps := FatalGoesSync(s, p);
    steps := Then(s, steps, CleanupRaise(c));
    steps := Then(s, steps, CleanupTest(c));
    steps := Then(s, steps, CleanupClose(c));
  }

  lemma StrandedStep(s: State, a: Step)
    requires Inv(s) && s.worker.WorkerDying? && Enabled(s, a)
    ensures var t := Do(s, a);
            t.ring.Valid() && t.worker.WorkerDying? && s.ring.Contents() <= t.ring.Contents()
            && t.workerOut == s.workerOut
  {
    if a.LockedEnqueue? {
      if s.ring.size < CAPACITY { PutAppends(s.ring, s.producers[a.p].m); }
    } else if IsLogging(a) {
      LoggingAndTheWorker(s, a);
      OutputGrows(s, a);
      assert Do(s, a).ring == s.ring;
    } else {
      LifecycleMovesNothing(s, a);
      if a.Init? { InitFindsNoWorker(s, a); }
    }
  }

  /** A FATAL processed by the worker makes it join itself: it never dequeues again, and
      what is queued behind the FATAL stays queued in every continuation. */
  lemma {:induction false} WorkerFatalStrandsQueue(s: State, steps: seq<Step>)
    requires Inv(s) && s.worker.WorkerDying? && ValidRun(s, steps)
    ensures var t := Run(s, steps);
            t.ring.Valid() && t.worker.WorkerDying? && s.ring.Contents() <= t.ring.Contents()
            && t.workerOut == s.workerOut
    decreases |steps|
  {
    if steps != [] {
      InvStays(s, steps[0]);
      StrandedStep(s, steps[0]);
      WorkerFatalStrandsQueue(Do(s, steps[0]), steps[1..]);
    }
  }
}
