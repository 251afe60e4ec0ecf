/** What becomes of the messages accepted before and behind a FATAL: the worker that
    processes one ends there (src/logger.c). */
module LoggerFatal {
  import opened LogRing
  import opened LoggerProtocol
  import opened LoggerShutdown

  predicate EndsInFatal(out: seq<Message>) {
    out != [] && out[|out| - 1].level.Fatal?
  }

  /** Only the last message the worker has output can be a FATAL, and the worker is on its
      way to exit exactly when it is. */
  predicate FatalIsLast(s: State) {
    && (forall i :: 0 <= i < |s.workerOut| - 1 ==> !s.workerOut[i].level.Fatal?)
    && (EndsInFatal(s.workerOut) <==> s.worker.WorkerDying?)
  }

  lemma DiesOfFatal(s: State, a: Step)
    requires s.ring.Valid() && Enabled(s, a) && IsLogging(a)
    ensures Do(s, a).worker.WorkerDying? <==> s.worker.WorkerDying? || (a.WorkerWrite? && s.worker.m.level.Fatal?)
  {
    match a
    case LogCall(_, _) =>
    case Submit(_) =>
    case LockedEnqueue(_) =>
    case SyncWrite(_) =>
    case WorkerLoopTest =>
    case WorkerDequeue =>
    case WorkerWrite =>
    case WorkerFlagTest =>
  }

  lemma FatalStaysLast(s: State, a: Step)
    requires Inv(s) && FatalIsLast(s) && Enabled(s, a)
    ensures FatalIsLast(Do(s, a))
  {
    var t := Do(s, a);
    if IsLogging(a) {
      OutputGrows(s, a);
      DiesOfFatal(s, a);
      assert a.WorkerWrite? ==> t.workerOut[|t.workerOut| - 1] == s.worker.m;
    } else {
      LifecycleMovesNothing(s, a);
      if a.Init? { InitFindsNoWorker(s, a); }
    }
  }

  lemma {:induction false} FatalRun(s: State, steps: seq<Step>)
    requires Inv(s) && FatalIsLast(s) && ValidRun(s, steps)
    ensures Inv(Run(s, steps)) && FatalIsLast(Run(s, steps))
    decreases |steps|
  {
    if steps != [] {
      InvStays(s, steps[0]);
      FatalStaysLast(s, steps[0]);
      FatalRun(Do(s, steps[0]), steps[1..]);
    }
  }

  /** A prefix in which only the last message can be a FATAL lies within the part that is
      processed. */
  lemma WithinUpToFatal(out: seq<Message>, all: seq<Message>)
    requires out <= all && forall i :: 0 <= i < |out| - 1 ==> !out[i].level.Fatal?
    ensures out <= UpToFatal(all)
    ensures EndsInFatal(out) ==> out == UpToFatal(all)
  {
    if out != [] {
      var k := |out| - 1;
      var done, rest := all[..k], all[k..];
      assert all == done + rest && out == done + [rest[0]];
      UpToFatalAfter(done, rest);
    }
  }

  /** In every run the worker outputs the accepted messages in order and never past the
      first FATAL among them; and it is on its way to exit exactly when it has output all of
      that part and the part ends in a FATAL. */
  lemma OutputStopsAtFatal(s: State, steps: seq<Step>)
    requires Initial(s) && ValidRun(s, steps)
    ensures var t := Run(s, steps);
            && t.workerOut <= UpToFatal(t.accepted)
            && (forall i :: 0 <= i < |t.workerOut| && t.workerOut[i].level.Fatal? ==>
                  i == |t.workerOut| - 1 && t.worker.WorkerDying?)
            && (t.worker.WorkerDying? <==> t.workerOut == UpToFatal(t.accepted) && EndsInFatal(t.workerOut))
  {
    InitialInv(s);
    FatalRun(s, steps);
    var t := Run(s, steps);
    assert t.workerOut <= t.accepted;
    WithinUpToFatal(t.workerOut, t.accepted);
  }

  // ----- Which accepted messages can still be output -----

  lemma AcceptedGrows(s: State, a: Step)
    requires s.ring.Valid() && Enabled(s, a)
    ensures s.accepted <= Do(s, a).accepted
  {
    if !IsLogging(a) { LifecycleMovesNothing(s, a); }
  }

  lemma {:induction false} AcceptedGrowsRun(s: State, steps: seq<Step>)
    requires ValidRun(s, steps)
    ensures s.accepted <= Run(s, steps).accepted
    decreases |steps|
  {
    if steps != [] {
      AcceptedGrows(s, steps[0]);
      AcceptedGrowsRun(Do(s, steps[0]), steps[1..]);
    }
  }

  /** A message accepted behind a FATAL is not output in any continuation. */
  lemma BehindFatalNeverOutput(s: State, steps: seq<Step>, i: nat, j: nat)
    requires Inv(s) && FatalIsLast(s) && ValidRun(s, steps)
    requires i < j < |s.accepted| && s.accepted[i].level.Fatal?
    ensures |Run(s, steps).workerOut| <= j
  {
    FatalRun(s, steps);
    AcceptedGrowsRun(s, steps);
    var t := Run(s, steps);
    assert t.workerOut <= t.accepted;
    assert i < |t.workerOut| ==> t.workerOut[i] == t.accepted[i] == s.accepted[i];
  }

  /** The worker is there and will look at the ring again. */
  predicate WorkerComesBack(s: State) {
    !s.exited && !s.worker.Gone? && !(s.worker.SeenEmpty? && s.shutdown)
  }

  /** Worker steps until the j-th accepted message is output. */
  function Distance(s: State, j: nat): int {
    4 * (j + 1 - |s.workerOut|) +
    match s.worker
    case Holding(_) => 0
    case Trying => 1
    case Guard => 2
    case _ => 3
  }

  lemma WorkerAdvances(s: State, j: nat, a: Step)
    requires Inv(s) && FatalIsLast(s) && WorkerComesBack(s)
    requires |s.workerOut| <= j < |s.accepted| && forall i :: 0 <= i < j ==> !s.accepted[i].level.Fatal?
    requires a == NextWorkerStep(s)
    ensures Enabled(s, a)
    ensures var t := Do(s, a);
            && Inv(t) && FatalIsLast(t) && t.accepted == s.accepted && Distance(t, j) < Distance(s, j)
            && (|t.workerOut| <= j ==> WorkerComesBack(t))
  {
    assert s.workerOut <= s.accepted;
    assert !s.worker.WorkerDying?;
    InvStays(s, a);
    FatalStaysLast(s, a);
    LoggingKeepsFlags(s, a);
    OutputGrows(s, a);
    if a.WorkerWrite? {
      assert s.accepted[|s.workerOut|] == s.worker.m;
    }
  }

  lemma WorkerReaches(s: State, j: nat) returns (steps: seq<Step>)
    requires Inv(s) && FatalIsLast(s) && j < |s.accepted|
    requires |s.workerOut| <= j ==> WorkerComesBack(s)
    requires forall i :: 0 <= i < j ==> !s.accepted[i].level.Fatal?
    ensures ValidRun(s, steps) && j < |Run(s, steps).workerOut|
    decreases if |s.workerOut| <= j then Distance(s, j) else 0
  {
    if |s.workerOut| > j {
      return [];
    }
    var a := NextWorkerStep(s);
    WorkerAdvances(s, j, a);
    var rest := WorkerReaches(Do(s, a), j);
    RunCons(s, a, rest);
    steps := [a] + rest;
  }

  /** While the worker comes back to the ring, an accepted message can still be output by it
      exactly when no FATAL was accepted before that message. */
  lemma OutputReachedExactlyWhen(s: State, j: nat)
    requires Inv(s) && FatalIsLast(s) && j < |s.accepted|
    requires WorkerComesBack(s)
    ensures (exists steps :: ValidRun(s, steps) && j < |Run(s, steps).workerOut|)
       <==> forall i :: 0 <= i < j ==> !s.accepted[i].level.Fatal?
  {
    if i :| 0 <= i < j && s.accepted[i].level.Fatal? {
      forall steps | ValidRun(s, steps)
        ensures |Run(s, steps).workerOut| <= j
      {
        BehindFatalNeverOutput(s, steps, i, j);
      }
    } else {
      var steps := WorkerReaches(s, j);
    }
  }

  /** A worker on its way to exit with a message queued behind the FATAL, from the start of
      the program. */
  lemma StrandedQueueIsReachable(s: State) returns (steps: seq<Step>)
    requires Initial(s)
    ensures ValidRun(s, steps)
    ensures var t := Run(s, steps);
            && Inv(t) && t.worker.WorkerDying? && t.workerOut == [Message(0, Fatal)]
            && t.ring.Contents() == [Message(1, Info)]
  {
    var queued := TwoQueued(s);
    steps := FatalProcessed(Run(s, queued));
    RunConcat(s, queued, steps);
    steps := queued + steps;
  }

  /** A FATAL and a message behind it, both in the ring. */
  ghost predicate FatalAhead(s: State) {
    && Inv(s) && !s.exited && s.worker == Guard && s.running && s.workerOut == []
    && s.ring.Contents() == [Message(0, Fatal), Message(1, Info)]
  }

  lemma OneMore(s: State, level: Level) returns (steps: seq<Step>)
    requires Inv(s) && s.initialized && s.async && !s.shutdown && !s.exited && s.minLevel == Debug
    requires s.producers == map[] && s.ring.size < CAPACITY
    ensures ValidRun(s, steps)
    ensures var t := Run(s, steps);
            var m := Message(|s.issued|, level);
            && Inv(t) && t.ring.Contents() == s.ring.Contents() + [m]
            && t == s.(ring := t.ring, issued := s.issued + [m], accepted := s.accepted + [m])
  {
    var m := Message(|s.issued|, level);
    steps := Then(s, [], LogCall(0, level));
    steps := Then(s, steps, Submit(0));
    assert Run(s, steps).producers == map[0 := Passed(m)];
    PutAppends(s.ring, m);
    steps := Then(s, steps, LockedEnqueue(0));
    assert Run(s, steps).producers == map[];
    RunInv(s, steps);
  }

  lemma TwoQueued(s: State) returns (steps: seq<Step>)
    requires Initial(s)
    ensures ValidRun(s, steps) && FatalAhead(Run(s, steps))
  {
    InitialInv(s);
    var start := Then(s, [], Init(true, true, Debug, true));
    RunInv(s, start);
    var a := Run(s, start);
    var one := OneMore(a, Fatal);
    var b := Run(a, one);
    var two := OneMore(b, Info);
    RunConcat(a, one, two);
    RunConcat(s, start, one + two);
    steps := start + (one + two);
    assert s.ring.Contents() == [];
    assert Run(s, steps).ring.Contents() == [Message(0, Fatal), Message(1, Info)];
  }

  lemma FatalProcessed(s: State) returns (steps: seq<Step>)
    requires FatalAhead(s)
    ensures ValidRun(s, steps)
    ensures var t := Run(s, steps);
            && Inv(t) && t.worker.WorkerDying? && t.workerOut == [Message(0, Fatal)]
            && t.ring.Contents() == [Message(1, Info)]
  {
    TakeRemovesFront(s.ring);
    steps := Then(s, [], WorkerLoopTest);
    steps := Then(s, steps, WorkerDequeue);
    steps := Then(s, steps, WorkerWrite);
    RunInv(s, steps);
    var c := s.ring.Contents();
    assert c[0] == s.ring.Front() && c[1..] == s.ring.Take().Contents();
    assert c[1..] == [Message(1, Info)];
  }
}
