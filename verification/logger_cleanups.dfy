/** Several threads inside logger_cleanup at once: when going through it means that the
    worker has left (src/logger.c). */
module LoggerCleanups {
  import opened LogRing
  import opened LoggerProtocol
  import opened LoggerShutdown

  predicate NobodyElseComes(steps: seq<Step>) {
    forall i :: 0 <= i < |steps| ==> !steps[i].CleanupRaise? && !steps[i].CleanupClose?
  }

  /** Every thread about to close the file finds the worker gone. */
  predicate JoinedMeansGone(s: State) {
    forall c :: c in s.cleaners && s.cleaners[c].Joined? ==> s.worker.Gone?
  }

  ghost predicate AlwaysWaits(s: State) {
    forall steps :: ValidRun(s, steps) && NobodyElseComes(steps) ==> JoinedMeansGone(Run(s, steps))
  }

  predicate AtMostOneCleaner(s: State) {
    forall c, d :: c in s.cleaners && d in s.cleaners ==> c == d
  }

  lemma AloneMeansWaited(s: State)
    requires Draining(s) && (s.worker.Gone? || AtMostOneCleaner(s))
    ensures JoinedMeansGone(s)
  {
  }

  lemma StaysAlone(s: State, a: Step)
    requires Draining(s) && Enabled(s, a) && !a.CleanupRaise? && !a.CleanupClose?
    requires s.worker.Gone? || AtMostOneCleaner(s)
    ensures Draining(Do(s, a)) && (Do(s, a).worker.Gone? || AtMostOneCleaner(Do(s, a)))
  {
    DrainingStays(s, a);
    var t := Do(s, a);
    if IsLogging(a) {
      LoggingKeepsFlags(s, a);
      LoggingAndTheWorker(s, a);
    } else {
      LifecycleMovesNothing(s, a);
      assert forall c :: c in t.cleaners ==> c in s.cleaners;
    }
  }

  lemma {:induction false} AloneRun(s: State, steps: seq<Step>)
    requires Draining(s) && (s.worker.Gone? || AtMostOneCleaner(s))
    requires ValidRun(s, steps) && NobodyElseComes(steps)
    ensures JoinedMeansGone(Run(s, steps))
    decreases |steps|
  {
    if steps == [] {
      AloneMeansWaited(s);
    } else {
      StaysAlone(s, steps[0]);
      AloneRun(Do(s, steps[0]), steps[1..]);
    }
  }

  /** A thread that comes second to stopping the worker is through at once. */
  lemma SecondSkips(s: State, c: Caller) returns (steps: seq<Step>)
    requires Inv(s) && s.async && !s.exited && Stopped(s) && !s.worker.Gone?
    requires c in s.cleaners && s.cleaners[c].Raised?
    ensures ValidRun(s, steps) && NobodyElseComes(steps) && !JoinedMeansGone(Run(s, steps))
  {
    steps := Then(s, [], CleanupTest(c));
    var t := Run(s, steps);
    assert c in t.cleaners && t.cleaners[c].Joined?;
  }

  /** So is one that joins the worker while another does. */
  lemma SecondJoins(s: State, c: Caller, d: Caller) returns (steps: seq<Step>)
    requires Inv(s) && !s.exited && !s.worker.Gone? && c != d
    requires c in s.cleaners && s.cleaners[c].Joining? && d in s.cleaners && s.cleaners[d].Joining?
    ensures ValidRun(s, steps) && NobodyElseComes(steps) && !JoinedMeansGone(Run(s, steps))
  {
    steps := Then(s, [], CleanupJoin(c));
    var t := Run(s, steps);
    assert c in t.cleaners && t.cleaners[c].Joined?;
  }

  /** How far a thread is from waiting for the worker. */
  function ToJoining(pc: CleanerPc): nat {
    match pc
    case Raised => 2
    case Stopping => 1
    case _ => 0
  }

  /** The next step of a thread that is not yet waiting. */
  function Onward(s: State, c: Caller): Step
    requires c in s.cleaners
  {
    if s.cleaners[c].Raised? then CleanupTest(c) else CleanupClear(c)
  }

  lemma OnwardSteps(s: State, c: Caller, d: Caller)
    requires Draining(s) && !s.exited && c in s.cleaners && d in s.cleaners && c != d
    requires s.cleaners[c].Raised? || s.cleaners[c].Stopping?
    ensures Enabled(s, Onward(s, c))
    ensures var t := Do(s, Onward(s, c));
            && Draining(t) && t.exited == s.exited && t.worker == s.worker && c in t.cleaners && d in t.cleaners
            && t.cleaners[d] == s.cleaners[d] && ToJoining(t.cleaners[c]) < ToJoining(s.cleaners[c])
  {
    DrainingStays(s, Onward(s, c));
  }

  /** Of two threads inside, one can be brought through while the worker is still there. */
  lemma TwoCleanersSkip(s: State, c: Caller, d: Caller) returns (steps: seq<Step>)
    requires Draining(s) && !s.exited && !s.worker.Gone?
    requires c in s.cleaners && d in s.cleaners && c != d
    ensures ValidRun(s, steps) && NobodyElseComes(steps) && !JoinedMeansGone(Run(s, steps))
    decreases ToJoining(s.cleaners[c]) + ToJoining(s.cleaners[d])
  {
    if s.cleaners[c].Joined? || s.cleaners[d].Joined? {
      return [];
    }
    if s.cleaners[c].Joining? && s.cleaners[d].Joining? {
      steps := SecondJoins(s, c, d);
    } else if s.cleaners[c].Joining? && s.cleaners[d].Raised? {
      assert Stopped(s);
      steps := SecondSkips(s, d);
    } else if s.cleaners[c].Joining? {
      OnwardSteps(s, d, c);
      var rest := TwoCleanersSkip(Do(s, Onward(s, d)), c, d);
      RunCons(s, Onward(s, d), rest);
      steps := [Onward(s, d)] + rest;
    } else {
      OnwardSteps(s, c, d);
      var rest := TwoCleanersSkip(Do(s, Onward(s, c)), c, d);
      RunCons(s, Onward(s, c), rest);
      steps := [Onward(s, c)] + rest;
    }
  }

  /** While shutdown drains, getting through logger_cleanup means that the worker has left,
      in every continuation in which no further thread enters it, exactly when the worker
      has left already or at most one thread is inside. */
  lemma AlwaysWaitsExactlyWhen(s: State)
    requires Draining(s) && !s.exited
    ensures AlwaysWaits(s) <==> s.worker.Gone? || AtMostOneCleaner(s)
  {
    if s.worker.Gone? || AtMostOneCleaner(s) {
      forall steps | ValidRun(s, steps) && NobodyElseComes(steps)
        ensures JoinedMeansGone(Run(s, steps))
      {
        AloneRun(s, steps);
      }
    } else {
      var c, d :| c in s.cleaners && d in s.cleaners && c != d;
      var steps := TwoCleanersSkip(s, c, d);
    }
  }

  lemma RaisedWaits(s: State) returns (steps: seq<Step>)
    requires Draining(s) && s.running && !s.exited && s.cleaners == map[MainThread := Raised]
    ensures ValidRun(s, steps) && Draining(Run(s, steps))
    ensures Run(s, steps) == s.(running := false, cleaners := map[MainThread := Joining])
  {
    DrainingStays(s, CleanupTest(MainThread));
    steps := Then(s, [], CleanupTest(MainThread));
    DrainingStays(Run(s, steps), CleanupClear(MainThread));
    steps := Then(s, steps, CleanupClear(MainThread));
    assert Run(s, steps).cleaners == map[MainThread := Joining];
  }

  /** The main thread up to waiting for the worker. */
  lemma MainWaits(s: State) returns (steps: seq<Step>)
    requires BeforeShutdown(s) && OneQueued(s)
    ensures ValidRun(s, steps) && Draining(Run(s, steps))
    ensures Run(s, steps) == s.(shutdown := true, running := false, cleaners := map[MainThread := Joining])
  {
    RaiseStartsDraining(s, CleanupRaise(MainThread));
    var r := Do(s, CleanupRaise(MainThread));
    assert r == s.(shutdown := true, cleaners := map[MainThread := Raised]);
    var rest := RaisedWaits(r);
    RunCons(s, CleanupRaise(MainThread), rest);
    steps := [CleanupRaise(MainThread)] + rest;
  }

  /** The main thread waiting for the worker with a message queued is a reachable state, and
      from there a FATAL closes the file on it. */
  lemma ClosedOnQueueIsReachable(s: State) returns (waiting: seq<Step>, rest: seq<Step>)
    requires Initial(s)
    ensures ValidRun(s, waiting)
    ensures var t := Run(s, waiting);
            && Draining(t) && !t.exited && t.worker == Guard && t.cleaners == map[MainThread := Joining]
            && t.fileOpen && t.ring.Contents() == [First] && ValidRun(t, rest)
    ensures var u := Run(Run(s, waiting), rest);
            !u.fileOpen && u.worker == Guard && u.ring.Valid() && u.ring.Contents() == [First] && First !in u.written
  {
    InitialInv(s);
    var queued := OneQueuedIsReachable(s);
    var wait := MainWaits(Run(s, queued));
    RunConcat(s, queued, wait);
    waiting := queued + wait;
    rest := SecondCleanupClosesEarly(Run(s, waiting), MainThread, 0);
  }
}
