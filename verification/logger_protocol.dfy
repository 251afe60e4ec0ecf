/** The asynchronous logger as a state machine: any number of producers, the worker,
    a thread running logger_cleanup and the signal handler, interleaved at the points
    where the code reads a flag, holds the log mutex or writes a message
    (src/logger.c, src/main.c). */
module LoggerProtocol {
  import opened LogRing

  /** Where a producer stands inside logger_log. A producer that is not in the map is
      outside. */
  datatype ProducerPc =
    | Formed(m: Message)    // level test passed, message built
    | Passed(m: Message)    // shutdown flag seen clear, mutex not yet taken
    | Fallback(m: Message)  // about to process the message synchronously
    | Dying                 // wrote a FATAL, calls logger_cleanup and exit

  datatype WorkerPc =
    | Gone                  // not created, or returned
    | Guard                 // at the loop test
    | Trying                // loop entered, about to dequeue
    | Holding(m: Message)   // dequeued, not yet written
    | SeenEmpty             // dequeue found nothing, flag not yet tested
    | WorkerDying           // wrote a FATAL, calls logger_cleanup and exit

  datatype Caller = MainThread | Producer(p: nat) | Worker

  /** Where a thread stands inside logger_cleanup. Several can be there at once: a thread
      that wrote a FATAL calls it too. */
  datatype CleanerPc =
    | Raised                 // shutdown flag set
    | Stopping               // async logging and running seen, about to clear running
    | Joining                // running cleared, waiting for the worker
    | Joined(waited: bool)   // about to close the file, with the worker seen gone or not
    | Closed                 // about to reset the flags
    | Leaving                // back in process_message, about to call exit

  datatype State = State(
    ring: Ring,
    shutdown: bool,
    running: bool,
    initialized: bool,
    async: bool,
    minLevel: Level,
    fileOpen: bool,
    exited: bool,
    producers: map<nat, ProducerPc>,
    worker: WorkerPc,
    cleaners: map<Caller, CleanerPc>,
    issued: seq<Message>,     // every message that passed the filter, by id
    accepted: seq<Message>,   // in the order the ring took them
    workerOut: seq<Message>,  // in the order the worker processed them
    written: seq<Message>,    // process_message calls, any thread
    openedAt: nat,            // how many of them were made before the log file was opened
    file: seq<Message>        // those made while it was open
  )

  datatype Step =
    | LogCall(p: nat, level: Level)
    | Submit(p: nat)
    | LockedEnqueue(p: nat)
    | SyncWrite(p: nat)
    | WorkerLoopTest
    | WorkerDequeue
    | WorkerWrite
    | WorkerFlagTest
    | Signal
    | CleanupRaise(who: Caller)
    | CleanupTest(who: Caller)
    | CleanupClear(who: Caller)
    | CleanupJoin(who: Caller)
    | CleanupClose(who: Caller)
    | CleanupReset(who: Caller)
    | SkipCleanup(who: Caller)
    | Exit(who: Caller)
    | Init(wantAsync: bool, created: bool, level: Level, logFile: bool)

  predicate MayCleanUp(s: State, who: Caller) {
    && who !in s.cleaners
    && (who.Producer? ==> who.p in s.producers && s.producers[who.p].Dying?)
    && (who.Worker? ==> s.worker.WorkerDying?)
  }

  /** The steps of threads inside logger_log and of the worker. */
  predicate IsLogging(a: Step) {
    a.LogCall? || a.Submit? || a.LockedEnqueue? || a.SyncWrite?
    || a.WorkerLoopTest? || a.WorkerDequeue? || a.WorkerWrite? || a.WorkerFlagTest?
  }

  predicate LoggingEnabled(s: State, a: Step)
    requires IsLogging(a)
  {
    match a
    case LogCall(p, level) => p !in s.producers && s.initialized && level.Rank() >= s.minLevel.Rank()
    case Submit(p) => p in s.producers && s.producers[p].Formed?
    case LockedEnqueue(p) => p in s.producers && s.producers[p].Passed?
    case SyncWrite(p) => p in s.producers && s.producers[p].Fallback?
    case WorkerLoopTest => s.worker.Guard?
    case WorkerDequeue => s.worker.Trying?
    case WorkerWrite => s.worker.Holding?
    case WorkerFlagTest => s.worker.SeenEmpty?
  }

  /** pthread_join returns when the worker has left. A thread that joins itself, or one that
      another thread is joining already, may be refused at once. */
  predicate JoinReturns(s: State, who: Caller) {
    || s.worker.Gone? || who.Worker?
    || exists d :: d in s.cleaners && d != who && s.cleaners[d].Joining?
  }

  predicate LifecycleEnabled(s: State, a: Step)
    requires !IsLogging(a)
  {
    match a
    case Signal => true
    case CleanupRaise(who) => s.initialized && MayCleanUp(s, who)
    case CleanupTest(who) => who in s.cleaners && s.cleaners[who].Raised?
    case CleanupClear(who) => who in s.cleaners && s.cleaners[who].Stopping?
    case CleanupJoin(who) => who in s.cleaners && s.cleaners[who].Joining? && JoinReturns(s, who)
    case CleanupClose(who) => who in s.cleaners && s.cleaners[who].Joined?
    case CleanupReset(who) => who in s.cleaners && s.cleaners[who].Closed?
    // logger_cleanup has nothing to do; the thread goes on to exit.
    case SkipCleanup(who) => !s.initialized && !who.MainThread? && MayCleanUp(s, who)
    case Exit(who) => who in s.cleaners && s.cleaners[who].Leaving?
    case Init(_, _, _, _) => !s.initialized && s.cleaners == map[]
  }

  predicate Enabled(s: State, a: Step) {
    !s.exited && if IsLogging(a) then LoggingEnabled(s, a) else LifecycleEnabled(s, a)
  }

  /** process_message: console, then the file while it is open. */
  function Process(s: State, m: Message): State {
    s.(written := s.written + [m], file := if s.fileOpen then s.file + [m] else s.file)
  }

  function LogCalled(s: State, p: nat, level: Level): State {
    var m := Message(|s.issued|, level);
    s.(producers := s.producers[p := Formed(m)], issued := s.issued + [m])
  }

  /** The choice of logger_log and the flag test of enqueue_message. */
  function Submitted(s: State, p: nat): State
    requires p in s.producers && s.producers[p].Formed?
  {
    var m := s.producers[p].m;
    s.(producers := s.producers[p := if s.async && !s.shutdown then Passed(m) else Fallback(m)])
  }

  /** The locked region of enqueue_message. */
  function Enqueued(s: State, p: nat): State
    requires s.ring.Valid() && p in s.producers && s.producers[p].Passed?
  {
    var m := s.producers[p].m;
    if s.ring.size >= CAPACITY then s.(producers := s.producers[p := Fallback(m)])
    else s.(producers := s.producers - {p}, ring := s.ring.Put(m), accepted := s.accepted + [m])
  }

  function SyncWritten(s: State, p: nat): State
    requires p in s.producers && s.producers[p].Fallback?
  {
    var m := s.producers[p].m;
    Process(s, m).(producers := if m.level.Fatal? then s.producers[p := Dying] else s.producers - {p})
  }

  /** dequeue_message. */
  function Dequeued(s: State): State
    requires s.ring.Valid()
  {
    if s.ring.size == 0 then s.(worker := SeenEmpty)
    else s.(worker := Holding(s.ring.Front()), ring := s.ring.Take())
  }

  function WorkerWritten(s: State): State
    requires s.worker.Holding?
  {
    var m := s.worker.m;
    Process(s, m).(workerOut := s.workerOut + [m], worker := if m.level.Fatal? then WorkerDying else Guard)
  }

  /** The signal handler, logger_cleanup and logger_init. */
  function Lifecycle(s: State, a: Step): State
    requires !IsLogging(a) && LifecycleEnabled(s, a)
  {
    match a
    case Signal => s.(shutdown := true)
    case CleanupRaise(who) => s.(shutdown := true, cleaners := s.cleaners[who := Raised])
    case CleanupTest(who) =>
      s.(cleaners := s.cleaners[who := if s.async && s.running then Stopping else Joined(false)])
    case CleanupClear(who) => s.(running := false, cleaners := s.cleaners[who := Joining])
    case CleanupJoin(who) => s.(cleaners := s.cleaners[who := Joined(s.worker.Gone?)])
    case CleanupClose(who) => s.(fileOpen := false, cleaners := s.cleaners[who := Closed])
    case CleanupReset(who) =>
      s.(initialized := false, shutdown := false,
         cleaners := if who.MainThread? then s.cleaners - {who} else s.cleaners[who := Leaving])
    case SkipCleanup(who) => s.(cleaners := s.cleaners[who := Leaving])
    case Exit(who) => s.(exited := true)
    case Init(wantAsync, created, level, logFile) =>
      s.(initialized := true,
         async := wantAsync && created,
         running := wantAsync || s.running,
         worker := if wantAsync && created then Guard else s.worker,
         minLevel := level,
         fileOpen := logFile,
         file := [],
         openedAt := |s.written|)
  }

  function Do(s: State, a: Step): (t: State)
    requires s.ring.Valid() && Enabled(s, a)
  {
    match a
    case LogCall(p, level) => LogCalled(s, p, level)
    case Submit(p) => Submitted(s, p)
    case LockedEnqueue(p) => Enqueued(s, p)
    case SyncWrite(p) => SyncWritten(s, p)
    case WorkerLoopTest => s.(worker := if s.running || s.ring.size > 0 then Trying else Gone)
    case WorkerDequeue => Dequeued(s)
    case WorkerWrite => WorkerWritten(s)
    case WorkerFlagTest => s.(worker := if s.shutdown then Gone else Guard)
    case _ => Lifecycle(s, a)
  }

  // ----- Runs -----

  predicate ValidRun(s: State, steps: seq<Step>)
    decreases |steps|
  {
    steps == [] ||
    (s.ring.Valid() && Enabled(s, steps[0]) && ValidRun(Do(s, steps[0]), steps[1..]))
  }

  function Run(s: State, steps: seq<Step>): State
    requires ValidRun(s, steps)
    decreases |steps|
  {
    if steps == [] then s else Run(Do(s, steps[0]), steps[1..])
  }

  /** The program before logger_init: static storage, nothing running. */
  predicate Initial(s: State) {
    && s.ring.Valid() && s.ring.head == s.ring.size == 0
    && !s.shutdown && !s.running && !s.initialized && !s.async && !s.fileOpen && !s.exited
    && s.producers == map[] && s.worker == Gone && s.cleaners == map[]
    && s.issued == s.accepted == s.workerOut == s.written == s.file == [] && s.openedAt == 0
  }

  // ----- Where a message is -----

  predicate Carries(pc: ProducerPc, m: Message) {
    !pc.Dying? && pc.m == m
  }

  function Carriers(producers: map<nat, ProducerPc>, m: Message): set<nat> {
    set p | p in producers && Carries(producers[p], m)
  }

  function InWorker(w: WorkerPc, m: Message): nat {
    if w.Holding? && w.m == m then 1 else 0
  }

  /** How many times `m` occurs among the producers' hands, the ring, the worker's
      hands and the written messages. */
  function Places(s: State, m: Message): nat
    requires s.ring.Valid()
  {
    |Carriers(s.producers, m)| + Queued(s.ring, m) + InWorker(s.worker, m) + multiset(s.written)[m]
  }

  predicate Issued(s: State, m: Message) {
    m.id < |s.issued| && s.issued[m.id] == m
  }

  ghost predicate Accounted(s: State)
    requires s.ring.Valid()
  {
    forall m :: Places(s, m) == if Issued(s, m) then 1 else 0
  }

  function InHand(w: WorkerPc): seq<Message> {
    if w.Holding? then [w.m] else []
  }

  /** The worker's output, then what it holds, then the queue: acceptance order. */
  predicate Fifo(s: State)
    requires s.ring.Valid()
  {
    s.accepted == s.workerOut + InHand(s.worker) + s.ring.Contents()
  }

  /** A thread has been through the part of logger_cleanup that stops the worker. */
  predicate Stopped(s: State) {
    exists c :: c in s.cleaners && !s.cleaners[c].Raised? && !s.cleaners[c].Stopping?
  }

  /** A thread is waiting for the worker, or the worker is on its way to exit. */
  predicate AwaitsWorker(s: State) {
    exists c :: c in s.cleaners && (s.cleaners[c].Joining? || c.Worker?)
  }

  /** What the control flags promise about one another. */
  predicate Flags(s: State) {
    && (s.async && Stopped(s) ==> !s.running)
    && (s.initialized && s.async && !Stopped(s) ==> s.running)
    && (!s.initialized && s.async ==> !s.running)
    && (s.initialized && s.cleaners != map[] ==> s.shutdown)
    && (forall c :: c in s.cleaners && s.cleaners[c].Leaving? ==> !s.initialized)
  }

  predicate WorkerLife(s: State) {
    && (!s.async ==> s.worker.Gone?)
    && (!s.exited && !s.worker.Gone? ==> s.running || AwaitsWorker(s))
    && (forall c :: c in s.cleaners && s.cleaners[c] == Joined(true) ==> s.worker.Gone?)
    && (Worker in s.cleaners ==> s.worker.WorkerDying?)
    && (s.initialized && s.async && !s.shutdown ==> !s.worker.Gone?)
  }

  predicate Control(s: State) {
    && Flags(s) && WorkerLife(s)
    && (forall m :: m in s.workerOut ==> m in s.written)
  }

  /** While the log file is open it holds what was processed since it was opened. */
  predicate FileKept(s: State) {
    s.openedAt <= |s.written| && (s.fileOpen ==> s.file == s.written[s.openedAt..])
  }

  ghost predicate Inv(s: State) {
    s.ring.Valid() && Accounted(s) && Fifo(s) && Control(s) && FileKept(s)
  }

  // ----- Every step keeps the invariant -----

  lemma RingStays(s: State, a: Step)
    requires s.ring.Valid() && Enabled(s, a)
    ensures Do(s, a).ring.Valid()
  {
    if a.LockedEnqueue? && s.ring.size < CAPACITY { PutAppends(s.ring, s.producers[a.p].m); }
    if a.WorkerDequeue? && 0 < s.ring.size { TakeRemovesFront(s.ring); }
  }

  lemma Split(c: set<nat>, p: nat)
    ensures |c| == |c - {p}| + if p in c then 1 else 0
  {
    if p in c { assert c == (c - {p}) + {p}; } else { assert c == c - {p}; }
  }

  /** Only producer `p` may change hands: its effect on who carries `m`. */
  lemma CarriersChange(before: map<nat, ProducerPc>, after: map<nat, ProducerPc>, p: nat, m: Message)
    requires after - {p} == before - {p}
    ensures |Carriers(after, m)| - (if p in Carriers(after, m) then 1 else 0)
         == |Carriers(before, m)| - (if p in Carriers(before, m) then 1 else 0)
  {
    Split(Carriers(after, m), p);
    Split(Carriers(before, m), p);
    assert Carriers(after, m) - {p} == Carriers(before, m) - {p} by {
      forall q | q != p
        ensures q in Carriers(after, m) <==> q in Carriers(before, m)
      {
        assert q in after <==> q in after - {p};
        assert q in before <==> q in before - {p};
        if q in after - {p} { assert (after - {p})[q] == (before - {p})[q]; }
      }
    }
  }

  function Has(producers: map<nat, ProducerPc>, p: nat, m: Message): nat {
    if p in producers && Carries(producers[p], m) then 1 else 0
  }

  lemma CarriersPut(producers: map<nat, ProducerPc>, p: nat, pc: ProducerPc, m: Message)
    ensures |Carriers(producers[p := pc], m)| + Has(producers, p, m)
         == |Carriers(producers, m)| + if Carries(pc, m) then 1 else 0
  {
    CarriersChange(producers, producers[p := pc], p, m);
  }

  lemma CarriersDrop(producers: map<nat, ProducerPc>, p: nat, m: Message)
    ensures |Carriers(producers - {p}, m)| + Has(producers, p, m) == |Carriers(producers, m)|
  {
    CarriersChange(producers, producers - {p}, p, m);
  }

  lemma LogCallAccounts(s: State, p: nat, level: Level, m: Message)
    requires s.ring.Valid() && p !in s.producers
    ensures LogCalled(s, p, level).ring == s.ring
    ensures Places(LogCalled(s, p, level), m)
         == Places(s, m) + if m == Message(|s.issued|, level) then 1 else 0
  {
    CarriersPut(s.producers, p, Formed(Message(|s.issued|, level)), m);
  }

  lemma SubmitAccounts(s: State, p: nat, m: Message)
    requires s.ring.Valid() && p in s.producers && s.producers[p].Formed?
    ensures Submitted(s, p).ring == s.ring && Places(Submitted(s, p), m) == Places(s, m)
  {
    CarriersPut(s.producers, p, Submitted(s, p).producers[p], m);
  }

  /** What the locked region of enqueue_message takes from the producer it gives to
      the ring, unless the ring is full. */
  lemma EnqueueMoves(s: State, p: nat, m: Message)
    requires s.ring.Valid() && p in s.producers && s.producers[p].Passed?
    ensures var t := Enqueued(s, p);
            var moved := if s.ring.size < CAPACITY && s.producers[p].m == m then 1 else 0;
            && t.ring.Valid()
            && Queued(t.ring, m) == Queued(s.ring, m) + moved
            && |Carriers(t.producers, m)| + moved == |Carriers(s.producers, m)|
  {
    var x := s.producers[p].m;
    if s.ring.size < CAPACITY {
      PutCounts(s.ring, x, m);
      CarriersDrop(s.producers, p, m);
    } else {
      CarriersPut(s.producers, p, Fallback(x), m);
    }
  }

  lemma EnqueueAccounts(s: State, p: nat, m: Message)
    requires s.ring.Valid() && p in s.producers && s.producers[p].Passed?
    ensures Enqueued(s, p).ring.Valid() && Places(Enqueued(s, p), m) == Places(s, m)
  {
    EnqueueMoves(s, p, m);
  }

  lemma SyncWriteAccounts(s: State, p: nat, m: Message)
    requires s.ring.Valid() && p in s.producers && s.producers[p].Fallback?
    ensures SyncWritten(s, p).ring == s.ring && Places(SyncWritten(s, p), m) == Places(s, m)
  {
    CarriersPut(s.producers, p, Dying, m);
    CarriersDrop(s.producers, p, m);
  }

  /** What the worker takes from the ring it holds. */
  lemma DequeueAccounts(s: State, m: Message)
    requires s.ring.Valid() && s.worker.Trying?
    ensures Dequeued(s).ring.Valid() && Places(Dequeued(s), m) == Places(s, m)
  {
    if 0 < s.ring.size {
      TakeCounts(s.ring, m);
    }
  }

  lemma WriteAccounts(s: State, m: Message)
    requires s.ring.Valid() && s.worker.Holding?
    ensures WorkerWritten(s).ring == s.ring && Places(WorkerWritten(s), m) == Places(s, m)
  {
  }

  predicate MovesMessages(a: Step) {
    a.LogCall? || a.Submit? || a.LockedEnqueue? || a.SyncWrite? || a.WorkerDequeue? || a.WorkerWrite?
  }

  /** Starting and stopping leave the producers, the ring and the written messages alone. */
  lemma LifecycleMovesNothing(s: State, a: Step)
    requires !IsLogging(a) && LifecycleEnabled(s, a)
    ensures var t := Lifecycle(s, a);
            && t.ring == s.ring && t.issued == s.issued && t.accepted == s.accepted
            && t.producers == s.producers && t.written == s.written && t.workerOut == s.workerOut
            && (t.worker == s.worker || (a.Init? && t.worker == Guard))
  {
    match a
    case Signal =>
    case CleanupRaise(_) =>
    case CleanupTest(_) =>
    case CleanupClear(_) =>
    case CleanupJoin(_) =>
    case CleanupClose(_) =>
    case CleanupReset(_) =>
    case SkipCleanup(_) =>
    case Exit(_) =>
    case Init(_, _, _, _) =>
  }

  lemma OthersAccount(s: State, a: Step, m: Message)
    requires s.ring.Valid() && Enabled(s, a) && !MovesMessages(a) && (a.Init? ==> s.worker.Gone?)
    ensures Do(s, a).ring == s.ring && Do(s, a).issued == s.issued
    ensures Places(Do(s, a), m) == Places(s, m)
  {
    if !IsLogging(a) { LifecycleMovesNothing(s, a); }
  }

  lemma StepAccounts(s: State, a: Step, m: Message)
    requires s.ring.Valid() && Enabled(s, a) && (a.Init? ==> s.worker.Gone?)
    ensures Do(s, a).ring.Valid()
    ensures Places(Do(s, a), m)
         == Places(s, m) + if a.LogCall? && m == Message(|s.issued|, a.level) then 1 else 0
  {
    match a
    case LogCall(p, level) => LogCallAccounts(s, p, level, m);
    case Submit(p) => SubmitAccounts(s, p, m);
    case LockedEnqueue(p) => EnqueueAccounts(s, p, m);
    case SyncWrite(p) => SyncWriteAccounts(s, p, m);
    case WorkerDequeue => DequeueAccounts(s, m);
    case WorkerWrite => WriteAccounts(s, m);
    case _ => OthersAccount(s, a, m);
  }

  lemma StepIssues(s: State, a: Step)
    requires s.ring.Valid() && Enabled(s, a)
    ensures Do(s, a).issued == if a.LogCall? then s.issued + [Message(|s.issued|, a.level)] else s.issued
  {
    if !IsLogging(a) { LifecycleMovesNothing(s, a); }
  }

  lemma AccountedStays(s: State, a: Step)
    requires s.ring.Valid() && Enabled(s, a) && Accounted(s) && (a.Init? ==> s.worker.Gone?)
    ensures Do(s, a).ring.Valid() && Accounted(Do(s, a))
  {
    RingStays(s, a);
    forall m
      ensures Places(Do(s, a), m) == if Issued(Do(s, a), m) then 1 else 0
    {
      assert Places(s, m) == if Issued(s, m) then 1 else 0;
      StepAccounts(s, a, m);
      StepIssues(s, a);
    }
  }

  lemma EnqueueKeepsFifo(s: State, p: nat)
    requires s.ring.Valid() && Fifo(s) && Enabled(s, LockedEnqueue(p)) && s.ring.size < CAPACITY
    ensures Do(s, LockedEnqueue(p)).ring.Valid() && Fifo(Do(s, LockedEnqueue(p)))
  {
    PutAppends(s.ring, s.producers[p].m);
  }

  lemma DequeueKeepsFifo(s: State)
    requires s.ring.Valid() && Fifo(s) && Enabled(s, WorkerDequeue) && 0 < s.ring.size
    ensures Do(s, WorkerDequeue).ring.Valid() && Fifo(Do(s, WorkerDequeue))
  {
    TakeRemovesFront(s.ring);
  }

  lemma WriteKeepsFifo(s: State)
    requires s.ring.Valid() && Fifo(s) && Enabled(s, WorkerWrite)
    ensures Fifo(Do(s, WorkerWrite))
  {
  }

  lemma FifoStays(s: State, a: Step)
    requires s.ring.Valid() && Fifo(s) && Enabled(s, a) && (a.Init? ==> s.worker.Gone?)
    ensures Do(s, a).ring.Valid() && Fifo(Do(s, a))
  {
    if a.LockedEnqueue? && s.ring.size < CAPACITY {
      EnqueueKeepsFifo(s, a.p);
    } else if a.WorkerDequeue? && 0 < s.ring.size {
      DequeueKeepsFifo(s);
    } else if a.WorkerWrite? {
      WriteKeepsFifo(s);
    } else {
      assert Do(s, a).ring == s.ring && InHand(Do(s, a).worker) == InHand(s.worker);
    }
  }

  /** What a step inside logger_log or of the worker adds to the output, and to the
      worker's part of it. */
  lemma OutputGrows(s: State, a: Step)
    requires s.ring.Valid() && Enabled(s, a) && IsLogging(a)
    ensures var t := Do(s, a);
            if a.WorkerWrite? then t.workerOut == s.workerOut + [s.worker.m] && t.written == s.written + [s.worker.m]
            else if a.SyncWrite? then t.workerOut == s.workerOut && t.written == s.written + [s.producers[a.p].m]
            else t.workerOut == s.workerOut && t.written == s.written
  {
    match a
    case LogCall(_, _) =>
    case Submit(_) =>
    case LockedEnqueue(_) =>
    case SyncWrite(_) =>
    case WorkerLoopTest =>
    case WorkerDequeue =>
    case WorkerWrite =>
    case WorkerFlagTest =>
  }

  /** The flags such a step leaves alone, and what it may do to the worker. */
  lemma LoggingKeepsFlags(s: State, a: Step)
    requires s.ring.Valid() && Enabled(s, a) && IsLogging(a)
    ensures var t := Do(s, a);
            && t.cleaners == s.cleaners && t.running == s.running && t.async == s.async && t.shutdown == s.shutdown
            && t.initialized == s.initialized && t.exited == s.exited && t.minLevel == s.minLevel
  {
    match a
    case LogCall(_, _) =>
    case Submit(_) =>
    case LockedEnqueue(_) =>
    case SyncWrite(_) =>
    case WorkerLoopTest =>
    case WorkerDequeue =>
    case WorkerWrite =>
    case WorkerFlagTest =>
  }

  lemma LoggingAndTheWorker(s: State, a: Step)
    requires s.ring.Valid() && Enabled(s, a) && IsLogging(a)
    ensures s.worker.Gone? || s.worker.WorkerDying? ==> Do(s, a).worker == s.worker
    ensures Do(s, a).worker.Gone? && !s.worker.Gone? ==> !s.running || s.shutdown
  {
    match a
    case LogCall(_, _) =>
    case Submit(_) =>
    case LockedEnqueue(_) =>
    case SyncWrite(_) =>
    case WorkerLoopTest =>
    case WorkerDequeue =>
    case WorkerWrite =>
    case WorkerFlagTest =>
  }

  lemma LoggingKeepsControl(s: State, a: Step)
    requires s.ring.Valid() && Enabled(s, a) && Control(s) && IsLogging(a)
    ensures Control(Do(s, a))
  {
    var t := Do(s, a);
    OutputGrows(s, a);
    LoggingKeepsFlags(s, a);
    LoggingAndTheWorker(s, a);
    assert Stopped(t) == Stopped(s) && AwaitsWorker(t) == AwaitsWorker(s);
  }

  lemma RaiseKeepsControl(s: State, who: Caller)
    requires s.ring.Valid() && Enabled(s, CleanupRaise(who)) && Control(s)
    ensures Control(Do(s, CleanupRaise(who)))
  {
    var t := Do(s, CleanupRaise(who));
    assert forall c :: c in s.cleaners ==> c in t.cleaners && t.cleaners[c] == s.cleaners[c];
    assert forall c :: c in t.cleaners && c != who ==> c in s.cleaners && t.cleaners[c] == s.cleaners[c];
  }

  lemma TestKeepsControl(s: State, who: Caller)
    requires s.ring.Valid() && Enabled(s, CleanupTest(who)) && Control(s)
    ensures Control(Do(s, CleanupTest(who)))
  {
    var t := Do(s, CleanupTest(who));
    assert who in t.cleaners;
    assert forall c :: c in s.cleaners && c != who ==> c in t.cleaners && t.cleaners[c] == s.cleaners[c];
    assert forall c :: c in t.cleaners && c != who ==> c in s.cleaners && t.cleaners[c] == s.cleaners[c];
  }

  lemma ClearKeepsControl(s: State, who: Caller)
    requires s.ring.Valid() && Enabled(s, CleanupClear(who)) && Control(s)
    ensures Control(Do(s, CleanupClear(who)))
  {
    var t := Do(s, CleanupClear(who));
    assert who in t.cleaners && t.cleaners[who].Joining?;
    assert Stopped(t) && AwaitsWorker(t);
    assert forall c :: c in s.cleaners && c != who ==> c in t.cleaners && t.cleaners[c] == s.cleaners[c];
  }

  /** Steps of a thread that is past stopping the worker. */
  lemma FinishKeepsControl(s: State, a: Step, who: Caller)
    requires s.ring.Valid() && Enabled(s, a) && Control(s)
    requires a == CleanupJoin(who) || a == CleanupClose(who) || a == CleanupReset(who)
    ensures Control(Do(s, a))
  {
    var t := Do(s, a);
    assert Stopped(s) by { assert who in s.cleaners && !s.cleaners[who].Raised? && !s.cleaners[who].Stopping?; }
    assert who in t.cleaners ==> Stopped(t) by {
      assert who in t.cleaners ==> !t.cleaners[who].Raised? && !t.cleaners[who].Stopping?;
    }
    assert forall c :: c in s.cleaners && c != who ==> c in t.cleaners && t.cleaners[c] == s.cleaners[c];
    assert forall c :: c in t.cleaners && c != who ==> c in s.cleaners && t.cleaners[c] == s.cleaners[c];
  }

  lemma SkipKeepsControl(s: State, who: Caller)
    requires s.ring.Valid() && Enabled(s, SkipCleanup(who)) && Control(s)
    ensures Control(Do(s, SkipCleanup(who)))
  {
    var t := Do(s, SkipCleanup(who));
    assert forall c :: c in s.cleaners ==> c in t.cleaners && t.cleaners[c] == s.cleaners[c];
    assert forall c :: c in t.cleaners && c != who ==> c in s.cleaners && t.cleaners[c] == s.cleaners[c];
  }

  /** logger_init never meets a worker of an earlier life. */
  lemma InitFindsNoWorker(s: State, a: Step)
    requires Enabled(s, a) && a.Init? && Control(s)
    ensures s.worker.Gone? && !Stopped(s) && !AwaitsWorker(s)
  {
  }

  lemma SignalKeepsControl(s: State, a: Step)
    requires s.ring.Valid() && Enabled(s, a) && Control(s) && (a == Signal || a.Exit? || a.Init?)
    ensures Control(Do(s, a))
  {
    var t := Do(s, a);
    if a.Init? { InitFindsNoWorker(s, a); }
    assert t.cleaners == s.cleaners;
    assert Stopped(t) == Stopped(s) && AwaitsWorker(t) == AwaitsWorker(s);
  }

  lemma ControlStays(s: State, a: Step)
    requires s.ring.Valid() && Enabled(s, a) && Control(s)
    ensures Control(Do(s, a))
  {
    match a
    case CleanupRaise(who) => RaiseKeepsControl(s, who);
    case CleanupTest(who) => TestKeepsControl(s, who);
    case CleanupClear(who) => ClearKeepsControl(s, who);
    case CleanupJoin(who) => FinishKeepsControl(s, a, who);
    case CleanupClose(who) => FinishKeepsControl(s, a, who);
    case CleanupReset(who) => FinishKeepsControl(s, a, who);
    case Signal => SignalKeepsControl(s, a);
    case SkipCleanup(who) => SkipKeepsControl(s, who);
    case Exit(_) => SignalKeepsControl(s, a);
    case Init(_, _, _, _) => SignalKeepsControl(s, a);
    case _ => LoggingKeepsControl(s, a);
  }

  /** What a step inside logger_log or of the worker adds to the open file. */
  lemma FileGrows(s: State, a: Step)
    requires s.ring.Valid() && Enabled(s, a) && IsLogging(a)
    ensures var t := Do(s, a);
            && t.fileOpen == s.fileOpen && t.openedAt == s.openedAt
            && t.file == if !s.fileOpen then s.file
                         else if a.WorkerWrite? then s.file + [s.worker.m]
                         else if a.SyncWrite? then s.file + [s.producers[a.p].m]
                         else s.file
  {
    match a
    case LogCall(_, _) =>
    case Submit(_) =>
    case LockedEnqueue(_) =>
    case SyncWrite(_) =>
    case WorkerLoopTest =>
    case WorkerDequeue =>
    case WorkerWrite =>
    case WorkerFlagTest =>
  }

  lemma LifecycleAndTheFile(s: State, a: Step)
    requires !IsLogging(a) && LifecycleEnabled(s, a)
    ensures var t := Lifecycle(s, a);
            if a.Init? then t.file == [] && t.openedAt == |s.written|
            else t.file == s.file && t.openedAt == s.openedAt && (t.fileOpen ==> s.fileOpen)
  {
    match a
    case Signal =>
    case CleanupRaise(_) =>
    case CleanupTest(_) =>
    case CleanupClear(_) =>
    case CleanupJoin(_) =>
    case CleanupClose(_) =>
    case CleanupReset(_) =>
    case SkipCleanup(_) =>
    case Exit(_) =>
    case Init(_, _, _, _) =>
  }

  lemma FileStays(s: State, a: Step)
    requires s.ring.Valid() && Enabled(s, a) && FileKept(s)
    ensures FileKept(Do(s, a))
  {
    var t := Do(s, a);
    if IsLogging(a) {
      FileGrows(s, a);
      OutputGrows(s, a);
      if t.written != s.written {
        assert t.written[t.openedAt..] == s.written[s.openedAt..] + [t.written[|s.written|]];
      }
    } else {
      LifecycleAndTheFile(s, a);
      LifecycleMovesNothing(s, a);
      assert a.Init? ==> t.written[t.openedAt..] == [];
    }
  }

  lemma InvStays(s: State, a: Step)
    requires Inv(s) && Enabled(s, a)
    ensures Inv(Do(s, a))
  {
    ControlStays(s, a);
    if a.Init? { InitFindsNoWorker(s, a); }
    FifoStays(s, a);
    AccountedStays(s, a);
    FileStays(s, a);
  }

  lemma InitialInv(s: State)
    requires Initial(s)
    ensures Inv(s)
  {
    forall m ensures Places(s, m) == 0 {
      assert Carriers(s.producers, m) == {};
    }
  }

  lemma {:induction false} RunInv(s: State, steps: seq<Step>)
    requires Inv(s) && ValidRun(s, steps)
    ensures Inv(Run(s, steps))
    decreases |steps|
  {
    if steps != [] {
      InvStays(s, steps[0]);
      RunInv(Do(s, steps[0]), steps[1..]);
    }
  }

  /** In every interleaving, an issued message is in exactly one place, and is never
      written twice. */
  lemma ExactlyOnePlace(s: State, steps: seq<Step>, m: Message)
    requires Initial(s) && ValidRun(s, steps)
    ensures var t := Run(s, steps);
            && t.ring.Valid()
            && (Issued(t, m) ==>
                 |Carriers(t.producers, m)| + Queued(t.ring, m) + InWorker(t.worker, m) + multiset(t.written)[m] == 1)
            && (!Issued(t, m) ==> m !in t.written && m !in t.ring.Contents() && Carriers(t.producers, m) == {})
  {
    InitialInv(s);
    RunInv(s, steps);
    var t := Run(s, steps);
    assert Places(t, m) == if Issued(t, m) then 1 else 0;
  }

  /** Through any number of init/cleanup cycles the ring stays a bounded queue and the
      worker's output is a prefix of the acceptance order. */
  lemma RingRefinesFifo(s: State, steps: seq<Step>)
    requires Initial(s) && ValidRun(s, steps)
    ensures var t := Run(s, steps);
            && t.ring.Valid()
            && t.ring.size <= 1000 && t.ring.tail == (t.ring.head + t.ring.size) % 1000
            && t.workerOut <= t.accepted
            && |t.workerOut| + |InHand(t.worker)| <= |t.accepted|
            && t.accepted[|t.workerOut| + |InHand(t.worker)|..] == t.ring.Contents()
  {
    InitialInv(s);
    RunInv(s, steps);
  }
}
