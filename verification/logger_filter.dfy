/** What the configuration given to logger_init does to the messages logged under it, and
    what one call of logger_log does when nothing interferes (src/logger.c). */
module LoggerFilter {
  import opened LogRing
  import opened LoggerProtocol
  import opened LoggerShutdown
  import opened LoggerReset

  // ----- Which calls are taken -----

  lemma LevelsAreOrdered()
    ensures Debug.Rank() < Info.Rank() < Warn.Rank() < Error.Rank() < Fatal.Rank()
  {
  }

  /** Every message from the n-th on is of this level or a graver one. */
  predicate FilteredFrom(s: State, n: nat, level: Level) {
    forall i :: n <= i < |s.issued| ==> s.issued[i].level.Rank() >= level.Rank()
  }

  lemma FilterStays(s: State, a: Step, n: nat, level: Level)
    requires s.ring.Valid() && Enabled(s, a) && !a.Init?
    requires s.minLevel == level && n <= |s.issued| && FilteredFrom(s, n, level)
    ensures var t := Do(s, a); t.minLevel == level && n <= |t.issued| && FilteredFrom(t, n, level)
  {
    StepIssues(s, a);
    if IsLogging(a) { LoggingKeepsFlags(s, a); }
  }

  lemma {:induction false} FilterRun(s: State, steps: seq<Step>, n: nat, level: Level)
    requires s.ring.Valid() && ValidRun(s, steps) && WithoutInit(steps)
    requires s.minLevel == level && n <= |s.issued| && FilteredFrom(s, n, level)
    ensures Run(s, steps).minLevel == level && FilteredFrom(Run(s, steps), n, level)
    decreases |steps|
  {
    if steps != [] {
      FilterStays(s, steps[0], n, level);
      RingStays(s, steps[0]);
      FilterRun(Do(s, steps[0]), steps[1..], n, level);
    }
  }

  /** From an initialisation with some level to the next one, only messages of that level or
      a graver one come into being, and every such call is taken while the logger is up. */
  lemma LevelFilterExact(s: State, init: Step, steps: seq<Step>, p: nat, level: Level)
    requires s.ring.Valid() && init.Init? && Enabled(s, init)
    requires ValidRun(Do(s, init), steps) && WithoutInit(steps)
    ensures var t := Run(Do(s, init), steps);
            && FilteredFrom(t, |s.issued|, init.level)
            && (t.initialized && !t.exited && p !in t.producers ==>
                  (Enabled(t, LogCall(p, level)) <==> level.Rank() >= init.level.Rank()))
  {
    FilterRun(Do(s, init), steps, |s.issued|, init.level);
  }

  /** The messages that the calls of a run bring into being, numbered from `n`. */
  function Calls(steps: seq<Step>, n: nat): seq<Message> {
    if steps == [] then []
    else if steps[0].LogCall? then [Message(n, steps[0].level)] + Calls(steps[1..], n + 1)
    else Calls(steps[1..], n)
  }

  lemma Grouped(done: seq<Message>, m: Message, more: seq<Message>)
    ensures (done + [m]) + more == done + ([m] + more)
  {
  }

  /** One message for each call that was taken, with the level of the call, in order. */
  lemma {:induction false} IssuedAreTheCalls(s: State, steps: seq<Step>)
    requires s.ring.Valid() && ValidRun(s, steps)
    ensures Run(s, steps).issued == s.issued + Calls(steps, |s.issued|)
    decreases |steps|
  {
    if steps != [] {
      var a, rest, n := steps[0], steps[1..], |s.issued|;
      StepIssues(s, a);
      RingStays(s, a);
      IssuedAreTheCalls(Do(s, a), rest);
      if a.LogCall? { Grouped(s.issued, Message(n, a.level), Calls(rest, n + 1)); }
    }
  }

  lemma SilentStep(s: State, a: Step)
    requires s.ring.Valid() && Enabled(s, a) && !a.Init? && !s.initialized
    ensures !Do(s, a).initialized && Do(s, a).issued == s.issued
  {
    StepIssues(s, a);
    if IsLogging(a) {
      LoggingKeepsFlags(s, a);
    } else {
      match a
      case Signal =>
      case CleanupRaise(_) =>
      case CleanupTest(_) =>
      case CleanupClear(_) =>
      case CleanupJoin(_) =>
      case CleanupClose(_) =>
      case CleanupReset(_) =>
      case SkipCleanup(_) =>
      case Exit(_) =>
      case Init(_, _, _, _) =>
    }
  }

  /** A logger that is not initialised takes no call, and nobody cleans it up. */
  lemma {:induction false} SilentUntilInit(s: State, steps: seq<Step>)
    requires s.ring.Valid() && !s.initialized && ValidRun(s, steps) && WithoutInit(steps)
    ensures Run(s, steps).issued == s.issued && !Run(s, steps).initialized
    ensures forall i :: 0 <= i < |steps| ==> !steps[i].LogCall? && !steps[i].CleanupRaise?
    decreases |steps|
  {
    if steps != [] {
      SilentStep(s, steps[0]);
      RingStays(s, steps[0]);
      SilentUntilInit(Do(s, steps[0]), steps[1..]);
    }
  }

  // ----- The flags, told by the steps of a run -----

  datatype Flag = RunningFlag | ShutdownFlag | InitializedFlag | AsyncFlag | FileFlag

  function Value(s: State, f: Flag): bool {
    match f
    case RunningFlag => s.running
    case ShutdownFlag => s.shutdown
    case InitializedFlag => s.initialized
    case AsyncFlag => s.async
    case FileFlag => s.fileOpen
  }

  predicate Raises(a: Step, f: Flag) {
    match f
    case RunningFlag => a.Init? && a.wantAsync
    case ShutdownFlag => a.Signal? || a.CleanupRaise?
    case InitializedFlag => a.Init?
    case AsyncFlag => a.Init? && a.wantAsync && a.created
    case FileFlag => a.Init? && a.logFile
  }

  predicate Clears(a: Step, f: Flag) {
    match f
    case RunningFlag => a.CleanupClear?
    case ShutdownFlag => a.CleanupReset?
    case InitializedFlag => a.CleanupReset?
    case AsyncFlag => a.Init? && !(a.wantAsync && a.created)
    case FileFlag => a.CleanupClose? || (a.Init? && !a.logFile)
  }

  predicate ClearedIn(steps: seq<Step>, f: Flag) {
    exists i :: 0 <= i < |steps| && Clears(steps[i], f)
  }

  /** Some step raised the flag and none took it down after that. */
  predicate RaisedIn(steps: seq<Step>, f: Flag) {
    exists i :: 0 <= i < |steps| && Raises(steps[i], f) && !ClearedIn(steps[i + 1..], f)
  }

  lemma FlagStep(s: State, a: Step, f: Flag)
    requires s.ring.Valid() && Enabled(s, a)
    ensures Value(Do(s, a), f) <==> Raises(a, f) || (Value(s, f) && !Clears(a, f))
  {
    if IsLogging(a) {
      LoggingKeepsFlags(s, a);
      FileGrows(s, a);
    }
  }

  lemma Tails(steps: seq<Step>, i: nat)
    requires i < |steps| && 0 < i
    ensures steps[i] == steps[1..][i - 1] && steps[i + 1..] == steps[1..][i..]
  {
  }

  lemma ClearedCons(steps: seq<Step>, f: Flag)
    requires steps != []
    ensures ClearedIn(steps, f) <==> Clears(steps[0], f) || ClearedIn(steps[1..], f)
  {
    forall i | 0 < i < |steps| { Tails(steps, i); }
    if i :| 0 <= i < |steps[1..]| && Clears(steps[1..][i], f) { assert Clears(steps[i + 1], f); }
  }

  lemma RaisedCons(steps: seq<Step>, f: Flag)
    requires steps != []
    ensures RaisedIn(steps, f) <==> RaisedIn(steps[1..], f) || (Raises(steps[0], f) && !ClearedIn(steps[1..], f))
  {
    forall i | 0 < i < |steps| { Tails(steps, i); }
    if i :| 0 <= i < |steps[1..]| && Raises(steps[1..][i], f) && !ClearedIn(steps[1..][i + 1..], f) {
      assert Raises(steps[i + 1], f) && !ClearedIn(steps[i + 1 + 1..], f);
    }
    if i :| 0 <= i < |steps| && Raises(steps[i], f) && !ClearedIn(steps[i + 1..], f) {
      if 0 < i { assert Raises(steps[1..][i - 1], f) && !ClearedIn(steps[1..][i - 1 + 1..], f); }
    }
  }

  /** A flag is up after a run exactly when a step raised it, or it was up before, and no
      step took it down since. */
  lemma {:induction false} FlagsExactly(s: State, steps: seq<Step>, f: Flag)
    requires s.ring.Valid() && ValidRun(s, steps)
    ensures Value(Run(s, steps), f) <==> RaisedIn(steps, f) || (Value(s, f) && !ClearedIn(steps, f))
    decreases |steps|
  {
    if steps != [] {
      var a, rest := steps[0], steps[1..];
      FlagStep(s, a, f);
      RingStays(s, a);
      FlagsExactly(Do(s, a), rest, f);
      ClearedCons(steps, f);
      RaisedCons(steps, f);
    }
  }

  /** The signal handler can run at any moment until the program exits, and does no more. */
  lemma SignalAtAnyMoment(s: State)
    requires s.ring.Valid()
    ensures Enabled(s, Signal) <==> !s.exited
    ensures !s.exited ==> Do(s, Signal) == s.(shutdown := true)
  {
  }

  // ----- One call on its own -----

  /** logger_log without interference: the message is queued exactly when asynchronous
      logging is up, shutdown has not begun and fewer than a thousand are queued; otherwise
      the caller writes it, and goes on to cleanup and exit only if it is a FATAL. */
  lemma UninterruptedLog(s: State, p: nat, level: Level) returns (steps: seq<Step>)
    requires s.ring.Valid() && !s.exited && s.initialized && p !in s.producers && level.Rank() >= s.minLevel.Rank()
    ensures ValidRun(s, steps)
    ensures var t := Run(s, steps);
            var m := Message(|s.issued|, level);
            var queued := s.async && !s.shutdown && s.ring.size < 1000;
            && t.ring.Valid()
            && t.ring.Contents() == s.ring.Contents() + (if queued then [m] else [])
            && t.written == s.written + (if queued then [] else [m])
            && (if !queued && level.Fatal? then p in t.producers && t.producers[p].Dying? else p !in t.producers)
  {
    var m := Message(|s.issued|, level);
    steps := Then(s, [], LogCall(p, level));
    steps := Then(s, steps, Submit(p));
    var u := Run(s, steps);
    assert u.ring == s.ring && u.written == s.written;
    if s.async && !s.shutdown {
      if s.ring.size < 1000 { PutAppends(s.ring, m); }
      steps := Then(s, steps, LockedEnqueue(p));
    }
    if !(s.async && !s.shutdown && s.ring.size < 1000) {
      steps := Then(s, steps, SyncWrite(p));
    }
  }

  // ----- Synchronous logging, and no log file -----

  predicate NobodyPassed(s: State) {
    forall p :: p in s.producers ==> !s.producers[p].Passed?
  }

  lemma SyncStep(s: State, a: Step)
    requires s.ring.Valid() && Enabled(s, a) && !a.Init? && !s.async && NobodyPassed(s)
    ensures var t := Do(s, a); !t.async && NobodyPassed(t) && t.accepted == s.accepted
  {
    if IsLogging(a) {
      LoggingKeepsFlags(s, a);
      match a
      case LogCall(_, _) =>
      case Submit(_) =>
      case LockedEnqueue(_) =>
      case SyncWrite(_) =>
      case WorkerLoopTest =>
      case WorkerDequeue =>
      case WorkerWrite =>
      case WorkerFlagTest =>
    } else {
      LifecycleMovesNothing(s, a);
      assert Do(s, a).async == s.async;
    }
  }

  lemma {:induction false} SyncRun(s: State, steps: seq<Step>)
    requires s.ring.Valid() && !s.async && NobodyPassed(s) && ValidRun(s, steps) && WithoutInit(steps)
    ensures Run(s, steps).accepted == s.accepted
    decreases |steps|
  {
    if steps != [] {
      SyncStep(s, steps[0]);
      RingStays(s, steps[0]);
      SyncRun(Do(s, steps[0]), steps[1..]);
    }
  }

  lemma {:induction false} NoFileRun(s: State, steps: seq<Step>)
    requires s.ring.Valid() && !s.fileOpen && ValidRun(s, steps) && WithoutInit(steps)
    ensures Run(s, steps).file == s.file && !Run(s, steps).fileOpen
    decreases |steps|
  {
    if steps != [] {
      var a := steps[0];
      RingStays(s, a);
      if IsLogging(a) { FileGrows(s, a); } else { LifecycleAndTheFile(s, a); }
      NoFileRun(Do(s, a), steps[1..]);
    }
  }

  /** An initialisation without asynchronous logging, or whose worker could not be created,
      queues nothing up to the next one, and one without a log file writes no line to it. */
  lemma ModeIsObeyed(s: State, init: Step, steps: seq<Step>)
    requires s.ring.Valid() && init.Init? && Enabled(s, init)
    requires ValidRun(Do(s, init), steps) && WithoutInit(steps)
    ensures var t := Run(Do(s, init), steps);
            && (!(init.wantAsync && init.created) && NobodyPassed(s) ==> t.accepted == s.accepted)
            && (!init.logFile ==> t.file == [])
  {
    var u := Do(s, init);
    if !(init.wantAsync && init.created) && NobodyPassed(s) { SyncRun(u, steps); }
    if !init.logFile { NoFileRun(u, steps); }
  }

  // ----- Joining and exiting -----

  /** Threads wait only for a worker that was created. */
  predicate WaitsForCreated(s: State) {
    forall c :: c in s.cleaners && (s.cleaners[c].Stopping? || s.cleaners[c].Joining?) ==> s.async
  }

  lemma WaitsStays(s: State, a: Step)
    requires s.ring.Valid() && Enabled(s, a) && WaitsForCreated(s)
    ensures WaitsForCreated(Do(s, a))
  {
    if IsLogging(a) {
      LoggingKeepsFlags(s, a);
    } else {
      var t := Do(s, a);
      assert !a.Init? ==> t.async == s.async;
      assert a.Init? ==> t.cleaners == map[];
    }
  }

  lemma {:induction false} JoinsOnlyCreated(s: State, steps: seq<Step>)
    requires s.ring.Valid() && WaitsForCreated(s) && ValidRun(s, steps)
    ensures WaitsForCreated(Run(s, steps))
    decreases |steps|
  {
    if steps != [] {
      WaitsStays(s, steps[0]);
      RingStays(s, steps[0]);
      JoinsOnlyCreated(Do(s, steps[0]), steps[1..]);
    }
  }

  /** Some thread is on its way to exit, or has got there. */
  predicate Doomed(s: State) {
    || s.exited || s.worker.WorkerDying?
    || (exists p :: p in s.producers && s.producers[p].Dying?)
    || (exists c :: c in s.cleaners && !c.MainThread?)
  }

  predicate OnlyByFatal(s: State) {
    && (Doomed(s) ==> HasFatal(s.written))
    && (MainThread in s.cleaners ==> !s.cleaners[MainThread].Leaving?)
  }

  lemma FatalKept(a: seq<Message>, b: seq<Message>)
    requires a <= b && HasFatal(a)
    ensures HasFatal(b)
  {
    var i :| 0 <= i < |a| && a[i].level.Fatal?;
    assert b[i] == a[i];
  }

  lemma OnlyByFatalStays(s: State, a: Step)
    requires s.ring.Valid() && Enabled(s, a) && OnlyByFatal(s)
    ensures OnlyByFatal(Do(s, a))
  {
    var t := Do(s, a);
    if IsLogging(a) {
      OutputGrows(s, a);
      LoggingKeepsFlags(s, a);
      if Doomed(s) {
        FatalKept(s.written, t.written);
      } else if a.WorkerWrite? || a.SyncWrite? {
        assert t.written[|s.written|] == if a.WorkerWrite? then s.worker.m else s.producers[a.p].m;
      }
      LoggingDooms(s, a);
    } else {
      LifecycleMovesNothing(s, a);
      LifecycleDooms(s, a);
    }
  }

  lemma WhoDies(s: State, a: Step, p: nat)
    requires s.ring.Valid() && Enabled(s, a) && IsLogging(a)
    ensures p in Do(s, a).producers && Do(s, a).producers[p].Dying? ==>
      (p in s.producers && s.producers[p].Dying?) || (a == SyncWrite(p) && s.producers[p].m.level.Fatal?)
    ensures Do(s, a).worker.WorkerDying? ==> s.worker.WorkerDying? || (a.WorkerWrite? && s.worker.m.level.Fatal?)
  {
    match a
    case LogCall(_, _) =>
    case Submit(_) =>
    case LockedEnqueue(_) =>
    case SyncWrite(_) =>
    case WorkerLoopTest =>
    case WorkerDequeue =>
    case WorkerWrite =>
    case WorkerFlagTest =>
  }

  lemma LoggingDooms(s: State, a: Step)
    requires s.ring.Valid() && Enabled(s, a) && IsLogging(a)
    ensures Doomed(Do(s, a)) ==>
      Doomed(s) || (a.WorkerWrite? && s.worker.m.level.Fatal?) || (a.SyncWrite? && s.producers[a.p].m.level.Fatal?)
  {
    LoggingKeepsFlags(s, a);
    forall p { WhoDies(s, a, p); }
  }

  lemma LifecycleDooms(s: State, a: Step)
    requires !IsLogging(a) && LifecycleEnabled(s, a)
    requires MainThread in s.cleaners ==> !s.cleaners[MainThread].Leaving?
    ensures var t := Lifecycle(s, a);
            (Doomed(t) ==> Doomed(s)) && (MainThread in t.cleaners ==> !t.cleaners[MainThread].Leaving?)
  {
    var t := Lifecycle(s, a);
    assert forall c :: c in t.cleaners && !c.MainThread? ==>
      || c in s.cleaners || (c.Worker? && s.worker.WorkerDying?)
      || (c.Producer? && c.p in s.producers && s.producers[c.p].Dying?);
  }

  lemma {:induction false} OnlyByFatalRun(s: State, steps: seq<Step>)
    requires s.ring.Valid() && OnlyByFatal(s) && ValidRun(s, steps)
    ensures OnlyByFatal(Run(s, steps))
    decreases |steps|
  {
    if steps != [] {
      OnlyByFatalStays(s, steps[0]);
      RingStays(s, steps[0]);
      OnlyByFatalRun(Do(s, steps[0]), steps[1..]);
    }
  }

  /** The logger ends the program only after a FATAL was written. */
  lemma ExitsOnlyAfterFatal(s: State, steps: seq<Step>)
    requires Initial(s) && ValidRun(s, steps)
    ensures Run(s, steps).exited ==> HasFatal(Run(s, steps).written)
  {
    OnlyByFatalRun(s, steps);
  }

  lemma JoinedExits(s: State, c: Caller) returns (steps: seq<Step>)
    requires s.ring.Valid() && !s.exited && !c.MainThread? && s.cleaners == map[c := Joined(false)]
    ensures ValidRun(s, steps)
    ensures Run(s, steps).exited && !Run(s, steps).fileOpen && Run(s, steps).written == s.written
  {
    steps := Then(s, [], CleanupClose(c));
    steps := Then(s, steps, CleanupReset(c));
    steps := Then(s, steps, Exit(c));
  }

  /** A producer that wrote a FATAL closes the file and ends the program. */
  lemma DyingExits(s: State, p: nat) returns (steps: seq<Step>)
    requires s.ring.Valid() && s.initialized && !s.async && !s.exited && s.cleaners == map[]
    requires p in s.producers && s.producers[p].Dying?
    ensures ValidRun(s, steps)
    ensures Run(s, steps).exited && !Run(s, steps).fileOpen && Run(s, steps).written == s.written
  {
    var c := Producer(p);
    steps := Then(s, [], CleanupRaise(c));
    steps := Then(s, steps, CleanupTest(c));
    var t := Run(s, steps);
    assert t == s.(shutdown := true, cleaners := map[c := Joined(false)]);
    var rest := JoinedExits(t, c);
    RunConcat(s, steps, rest);
    steps := steps + rest;
  }

  /** And with synchronous logging a FATAL does end it, with the file closed. */
  lemma FatalExits(s: State, p: nat) returns (steps: seq<Step>)
    requires s.ring.Valid() && s.initialized && !s.async && !s.exited && s.cleaners == map[] && p !in s.producers
    ensures ValidRun(s, steps)
    ensures var t := Run(s, steps);
            t.exited && !t.fileOpen && t.written == s.written + [Message(|s.issued|, Fatal)]
  {
    steps := Then(s, [], LogCall(p, Fatal));
    steps := Then(s, steps, Submit(p));
    steps := Then(s, steps, SyncWrite(p));
    var rest := DyingExits(Run(s, steps), p);
    RunConcat(s, steps, rest);
    steps := steps + rest;
  }

  lemma WorkerJoinsItself(s: State) returns (steps: seq<Step>)
    requires s.ring.Valid() && s.initialized && s.async && s.running && !s.exited
    requires s.worker.WorkerDying? && s.cleaners == map[]
    ensures ValidRun(s, steps)
    ensures Run(s, steps) == s.(shutdown := true, running := false, cleaners := map[Worker := Joined(false)])
  {
    steps := Then(s, [], CleanupRaise(Worker));
    steps := Then(s, steps, CleanupTest(Worker));
    steps := Then(s, steps, CleanupClear(Worker));
    steps := Then(s, steps, CleanupJoin(Worker));
    assert Run(s, steps).cleaners == map[Worker := Joined(false)];
  }

  /** A worker that wrote a FATAL does not wait for itself: its join may fail at once, and it
      ends the program with the ring as it is. */
  lemma WorkerFatalExits(s: State) returns (steps: seq<Step>)
    requires s.ring.Valid() && s.initialized && s.async && s.running && !s.exited
    requires s.worker.WorkerDying? && s.cleaners == map[]
    ensures ValidRun(s, steps)
    ensures var t := Run(s, steps); t.exited && !t.fileOpen && t.written == s.written
  {
    steps := WorkerJoinsItself(s);
    var rest := JoinedExits(Run(s, steps), Worker);
    RunConcat(s, steps, rest);
    steps := steps + rest;
  }

  /** So does a thread whose FATAL finds the logger cleaned up already. */
  lemma LateFatalExits(s: State, p: nat) returns (steps: seq<Step>)
    requires s.ring.Valid() && !s.initialized && !s.exited
    requires p in s.producers && s.producers[p].Dying? && Producer(p) !in s.cleaners
    ensures ValidRun(s, steps) && Run(s, steps).exited
    ensures Run(s, steps).written == s.written && Run(s, steps).ring == s.ring
  {
    steps := Then(s, [], SkipCleanup(Producer(p)));
    steps := Then(s, steps, Exit(Producer(p)));
  }
}
