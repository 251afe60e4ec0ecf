/** From the close of the log file to the reset of the flags, and what a producer that
    is still inside logger_log can do after it (src/logger.c). */
module LoggerReset {
  import opened LogRing
  import opened LoggerProtocol
  import opened LoggerShutdown

  // ----- Up to the reset -----

  /** The drain is over and the flag is still up. */
  ghost predicate Rested(s: State) {
    Inv(s) && s.initialized && s.async && s.shutdown && !MidEnqueue(s) && s.worker.Gone? && s.ring.size == 0
  }

  lemma RestedStays(s: State, a: Step)
    requires Rested(s) && Enabled(s, a) && !a.CleanupReset?
    ensures Rested(Do(s, a))
  {
    InvStays(s, a);
    NobodyEnters(s, a);
    NoLockedEnqueue(s, a);
    if IsLogging(a) {
      LoggingKeepsFlags(s, a);
      LoggingAndTheWorker(s, a);
      assert Do(s, a).ring == s.ring;
    } else {
      LifecycleMovesNothing(s, a);
    }
  }

  /** Once a thread that cleans up alone is about to close the file, the ring is empty and
      the worker gone until the flags are reset. */
  lemma {:induction false} DrainedUntilReset(s: State, steps: seq<Step>)
    requires Rested(s) || (Draining(s) && exists who :: AboutToClose(s, who))
    requires ValidRun(s, steps) && forall i :: 0 <= i < |steps| ==> !steps[i].CleanupReset?
    ensures Rested(Run(s, steps))
    decreases |steps|
  {
    if !Rested(s) {
      var who :| AboutToClose(s, who);
      DrainedAtClose(s, who);
    }
    if steps != [] {
      RestedStays(s, steps[0]);
      DrainedUntilReset(Do(s, steps[0]), steps[1..]);
    }
  }

  // ----- After the reset -----

  /** Some producer is past the test of g_logger_initialized and has not left its message
      anywhere. */
  predicate ProducerInside(s: State) {
    exists p :: p in s.producers && (s.producers[p].Formed? || s.producers[p].Passed?)
  }

  predicate WithoutInit(steps: seq<Step>) {
    forall i :: 0 <= i < |steps| ==> !steps[i].Init?
  }

  /** Until the logger is initialised again, nothing gets into the ring. */
  ghost predicate StaysEmpty(t: State) {
    forall steps :: ValidRun(t, steps) && WithoutInit(steps) ==> Run(t, steps).ring.size == 0
  }

  lemma NobodyInside(s: State, a: Step)
    requires s.ring.Valid() && Enabled(s, a) && !a.Init?
    requires !s.initialized && !ProducerInside(s) && s.ring.size == 0
    ensures var t := Do(s, a); t.ring.Valid() && !t.initialized && !ProducerInside(t) && t.ring.size == 0
  {
    var t := Do(s, a);
    if IsLogging(a) {
      LoggingKeepsFlags(s, a);
      forall p | p in t.producers
        ensures !t.producers[p].Formed? && !t.producers[p].Passed?
      {
        assert p in s.producers ==> !s.producers[p].Formed? && !s.producers[p].Passed?;
      }
    } else {
      LifecycleMovesNothing(s, a);
    }
  }

  lemma {:induction false} NobodyInsideRun(s: State, steps: seq<Step>)
    requires s.ring.Valid() && ValidRun(s, steps) && WithoutInit(steps)
    requires !s.initialized && !ProducerInside(s) && s.ring.size == 0
    ensures Run(s, steps).ring.size == 0
    decreases |steps|
  {
    if steps != [] {
      NobodyInside(s, steps[0]);
      NobodyInsideRun(Do(s, steps[0]), steps[1..]);
    }
  }

  /** With the flag down again, a producer inside puts its message into the ring. */
  lemma LateProducerEnqueues(s: State, p: nat) returns (steps: seq<Step>)
    requires s.ring.Valid() && s.ring.size == 0 && s.async && !s.shutdown && !s.exited
    requires p in s.producers && (s.producers[p].Formed? || s.producers[p].Passed?)
    ensures ValidRun(s, steps) && WithoutInit(steps) && Run(s, steps).ring.size == 1
  {
    steps := [];
    if s.producers[p].Formed? {
      steps := Then(s, steps, Submit(p));
    }
    PutAppends(s.ring, s.producers[p].m);
    steps := Then(s, steps, LockedEnqueue(p));
  }

  /** The reset takes the flag down although producers may still be inside logger_log, and
      no worker is left. Whoever resets, nothing gets into the ring unseen exactly when no
      producer is inside at that moment. */
  lemma EmptyAfterResetExactlyWhen(s: State, who: Caller)
    requires Inv(s) && s.async && s.worker.Gone? && s.ring.size == 0 && !s.exited
    requires who in s.cleaners && s.cleaners[who].Closed?
    ensures StaysEmpty(Do(s, CleanupReset(who))) <==> !ProducerInside(s)
  {
    var t := Do(s, CleanupReset(who));
    if p :| p in s.producers && (s.producers[p].Formed? || s.producers[p].Passed?) {
      var steps := LateProducerEnqueues(t, p);
    } else {
      forall steps | ValidRun(t, steps) && WithoutInit(steps)
        ensures Run(t, steps).ring.size == 0
      {
        NobodyInsideRun(t, steps);
      }
    }
  }

  // ----- Messages lost this way -----

  lemma JoinerFinishes(s: State, who: Caller) returns (steps: seq<Step>)
    requires s.ring.Valid() && !s.exited && s.worker.Gone? && s.cleaners == map[who := Joining]
    ensures ValidRun(s, steps)
    ensures Run(s, steps) == s.(cleaners := if who.MainThread? then map[] else map[who := Leaving],
                                fileOpen := false, initialized := false, shutdown := false)
  {
    steps := Then(s, [], CleanupJoin(who));
    steps := Then(s, steps, CleanupClose(who));
    steps := Then(s, steps, CleanupReset(who));
    assert Run(s, steps).cleaners == if who.MainThread? then map[] else map[who := Leaving];
  }

  /** A thread gets through logger_cleanup past a producer with a message formed. */
  lemma CleanupPasses(s: State, who: Caller) returns (steps: seq<Step>)
    requires Inv(s) && s.initialized && s.async && s.running && !s.exited && s.worker == Guard && s.ring.size == 0
    requires s.cleaners == map[] && MayCleanUp(s, who)
    ensures ValidRun(s, steps) && steps != [] && steps[0] == CleanupRaise(who)
    ensures Run(s, steps) == s.(running := false, worker := Gone, fileOpen := false, initialized := false,
                                shutdown := false, cleaners := if who.MainThread? then map[] else map[who := Leaving])
  {
    steps := Then(s, [], CleanupRaise(who));
    steps := Then(s, steps, CleanupTest(who));
    steps := Then(s, steps, CleanupClear(who));
    steps := Then(s, steps, WorkerLoopTest);
    var t := Run(s, steps);
    assert t.cleaners == map[who := Joining];
    assert t == s.(shutdown := true, running := false, worker := Gone, cleaners := map[who := Joining]);
    var rest := JoinerFinishes(t, who);
    RunConcat(s, steps, rest);
    steps := steps + rest;
  }

  /** The producer with the message formed puts it into the ring. */
  lemma FirstComesLate(s: State) returns (steps: seq<Step>)
    requires s.ring.Valid() && s.ring.Contents() == [] && s.async && !s.shutdown && !s.exited
    requires 0 in s.producers && s.producers[0] == Formed(First)
    ensures ValidRun(s, steps)
    ensures var t := Run(s, steps);
            && t.ring.Valid() && t.ring.Contents() == [First]
            && t == s.(ring := t.ring, producers := s.producers - {0}, accepted := s.accepted + [First])
  {
    steps := Then(s, [], Submit(0));
    assert s.ring.size == 0;
    PutAppends(s.ring, First);
    steps := Then(s, steps, LockedEnqueue(0));
    assert Run(s, steps).producers == s.producers - {0};
  }

  /** A message lost when the main thread cleans up, from the start of the program, although
      the flag rose at a moment from which shutdown drains. */
  lemma LateEnqueueIsReachable(s: State) returns (before: seq<Step>, after: seq<Step>)
    requires Initial(s)
    ensures ValidRun(s, before)
    ensures var b := Run(s, before);
            && BeforeShutdown(b) && !MidEnqueue(b) && !Overtaken(b)
            && after != [] && after[0] == CleanupRaise(MainThread) && ValidRun(b, after)
    ensures var t := Run(Run(s, before), after);
            && t.ring.Valid() && t.worker.Gone? && !t.fileOpen && !t.initialized
            && t.accepted == t.ring.Contents() == [First] && t.written == []
  {
    before := OneFormedIsReachable(s);
    var b := Run(s, before);
    after := CleanupPasses(b, MainThread);
    var rest := FirstComesLate(Run(b, after));
    RunConcat(b, after, rest);
    after := after + rest;
  }

  /** The same when a producer that wrote a FATAL cleans up: it has reset the flags and not
      yet called exit. */
  lemma LateEnqueueBeforeExit(s: State) returns (steps: seq<Step>)
    requires Initial(s)
    ensures ValidRun(s, steps)
    ensures var t := Run(s, steps);
            && t.ring.Valid() && t.worker.Gone? && !t.fileOpen && !t.initialized && !t.exited
            && t.cleaners == map[Producer(1) := Leaving]
            && t.accepted == t.ring.Contents() == [First] && t.written == [Message(1, Fatal)]
  {
    InitialInv(s);
    var formed := OneFormedIsReachable(s);
    steps := Then(s, formed, Signal);
    var raised := Run(s, steps);
    RunInv(s, steps);
    var fatal := FatalGoesSync(raised, 1);
    var dying := Run(raised, fatal);
    RunInv(raised, fatal);
    var clean := CleanupPasses(dying, Producer(1));
    var reset := Run(dying, clean);
    var late := FirstComesLate(reset);
    RunConcat(dying, clean, late);
    RunConcat(raised, fatal, clean + late);
    RunConcat(s, steps, fatal + (clean + late));
    steps := steps + (fatal + (clean + late));
  }
}
