# A verified model of the headless Wayland server and its test renderer

The repository is a headless Wayland server. Clients hand it shared-memory buffers; it
announces each attached buffer in a D-Bus signal, and a Vulkan renderer maps the file
behind it and shows it. This project models the parts that keep state of their own and
proves what they promise, in Dafny 4.11. `dafny verify dfyconfig.toml` checks all of it.

| part | modules | source |
|---|---|---|
| shared | `Options`, `Strings` | |
| asynchronous logger | `LogRing`, `LoggerProtocol`, `LoggerShutdown`, `LoggerReset`, `LoggerCleanups`, `LoggerFatal`, `LoggerFilter` | `src/logger.c`, `src/main.c` |
| module list, dispatch, introspection | `ModuleLib`, `ModuleRegistry`, `Dispatch`, `IntrospectionFormat`, `Introspection`, `IntrospectionGenerator`, `IntrospectionRoundTrip`, `RootIntrospection` | `src/dbus-server/` |
| D-Bus loop thread | `LoopLifecycle` | `src/dbus-server/server.c` |
| shared memory | `ShmSizes`, `ShmResources`, `ShmServer` | `src/wayland/shm.c`, `src/wayland/buffer.c` |
| buffer hand-off | `Handoff`, `RenderBuffers`, `Addressing` | `src/wayland/compositor_surface.c`, `src/dbus-server/modules/buffer_module.c`, `test-renderer/src/` |
| frames in flight | `FramesInFlight` | `test-renderer/src/vulkan.c` |
| configuration file | `ConfigFormat`, `ConfigReader` | `src/config.c` |

Concurrent parts (logger, loop thread, frames in flight) are state machines whose steps
are the points where the code reads a flag, holds a mutex or makes a call; theorems are
about every run. Code that updates objects, lists or buffers in place is a class or an
array method, proved against a function of the old state; the theorems are about that
function. Outcomes of the kernel, of allocations and of libraries are arguments of the
steps.

## Where the code falls short of its intent

Each of these is kept as the code has it, with the exact condition under which the intent
is met and an input at which it is not.

- **Shutdown can lose an accepted message in three ways**, besides the two that follow. (1) A
  producer that has seen the shutdown flag clear enqueues after the worker has left. (2) A
  worker that has found the ring empty leaves on the flag although a message came in
  between. With one thread cleaning up, the ring is empty at the close in every interleaving
  exactly when neither is the case as the flag rises (`LoggerShutdown.DrainsExactlyWhen`;
  `LoggerShutdown.MidEnqueueIsReachable`, `LoggerShutdown.OvertakenIsReachable`). (3) Cleanup
  takes the flag down again at its end, and a producer still inside `logger_log` then enqueues
  with no worker left, also while the thread that cleaned up after a FATAL has yet to call
  `exit`. After the reset nothing gets into the ring until the next initialisation exactly
  when no producer is between the first test of `logger_log` and the ring
  (`LoggerReset.EmptyAfterResetExactlyWhen`, `LoggerReset.LateEnqueueIsReachable`,
  `LoggerReset.LateEnqueueBeforeExit`).
- **A second cleanup does not wait.** While the drain goes on, getting through
  `logger_cleanup` means that the worker has left, in every continuation in which nobody else
  enters it, exactly when the worker is gone already or at most one thread is inside
  (`LoggerCleanups.AlwaysWaitsExactlyWhen`). A FATAL logged by any producer makes a second one
  and closes the file on what is queued (`LoggerShutdown.SecondCleanupClosesEarly`,
  `LoggerCleanups.ClosedOnQueueIsReachable`).
- **A FATAL handled by the worker** makes it join itself; it never dequeues again. An accepted
  message can still be output by a worker that comes back to the ring exactly when no FATAL
  was accepted before it (`LoggerFatal.OutputReachedExactlyWhen`,
  `LoggerFatal.OutputStopsAtFatal`, `LoggerFatal.StrandedQueueIsReachable`).
- **The stop loop has no bound of its own.** `wait_step_s` is an `int` holding 0. The stop can
  return exactly when the thread id is zero or a loop thread is still active
  (`LoopLifecycle.StopReturnsExactlyWhen`); it is sure not to get stuck exactly when the id is
  zero or the last thread has reached its loop (`LoopLifecycle.StopSureToReturnExactlyWhen`;
  `LoopLifecycle.EarlyReturnSticks`, `LoopLifecycle.LateIdSticks`).
- **The dispatcher unlocks once too often** when a module handles a call
  (`Dispatch.LocksAndErrors`). It ends exactly when nobody serves the call or the selected
  handler at some point does not answer NOT_YET_HANDLED (`Dispatch.TerminatesExactlyWhen`,
  `Dispatch.RefusalKeepsBusy`).
- **Adding a module that is already listed** cuts off the modules behind it. The list stays a
  list exactly when the module is not the last one, which is tied into a ring
  (`ModuleRegistry.Registry.Add`).
- **A destroyed buffer stays in its pool's list.** Tearing down the pool, or adding a
  buffer to it, is sound exactly when the listed buffers it touches were not destroyed
  before (`ShmResources.TeardownSoundExactlyWhen`, `ShmResources.InsertSoundExactlyWhen`;
  `ShmResources.DestroyedBufferIsTouched`).
- **`width * 4` wraps in `int`.** An accepted buffer lies in its pool exactly when its width is
  below 2^29 (`ShmSizes.AcceptedFitsExactlyWhen`, `ShmSizes.WideBufferAccepted`), and in a
  file below 2^31 bytes the same goes for the texels (`Addressing.TexelsInFile`).
- **Attach drops the offset and announces its own stride.** The texels are the client's pixels
  exactly when the offset is 0 and, besides, there is only one row or the client's stride is
  the one announced: `4 * width` for widths below 2^30, wrapped to 32 bits from there on
  (`Addressing.TexelsAreThePixelsExactlyWhen`, `Addressing.ShiftedAndPaddedMisread`). The
  format announced is always XRGB8888 (`Addressing.AnnouncedFormatExactlyWhen`).
- **An out-of-date acquire leaves the fence reset with nothing submitted**, and the next wait
  on it never returns; the wait can return, and is sure not to hang, exactly when the call
  before did not give up like that (`FramesInFlight.WaitReturnsExactlyWhen`,
  `FramesInFlight.WaitSureToReturnExactlyWhen`, `FramesInFlight.AbandonIsReachable`).
- **The renderer closes one descriptor**: that of the last successful update, or descriptor 0
  if there was none. What it closes is what it received exactly when it received a single
  descriptor, and that one came into use or is 0
  (`RenderBuffers.LastFrameStands`, `RenderBuffers.DescriptorsClosedExactlyWhen`;
  `RenderBuffers.FirstDescriptorStaysOpen`, and the coincidence `RenderBuffers.FailedZeroIsClosed`).
- **Leading blanks stay in configuration values**, because `trim_string` moves only its own
  pointer. The sample configuration writes blanks around the equals sign, so its
  `log_level = debug` is read as info and its booleans as false. A padded line is read
  correctly exactly when no blank precedes the value or the value is info or false
  (`ConfigFormat.PaddedLevelReadExactlyWhen`, `ConfigFormat.PaddedFlagReadExactlyWhen`;
  `ConfigFormat.SampleLevelMisread`).

## Model

| member | source | states |
|---|---|---|
| `LogRing.PutAppends` | src/logger.c:89-91 | storing at the tail and wrapping it appends to the queued messages and disturbs no older one |
| `LogRing.TakeRemovesFront` | src/logger.c:106-108 | advancing the head removes exactly the oldest message |
| `LogRing.UpToFatalIsPrefix` | src/logger.c:154-164 | what the worker processes is a prefix of the queue that stops at the first FATAL |
| `LogRing.LogQueue.EnqueueMessage` | src/logger.c:77-95 | accepted iff not shutting down and not full; the contents grow by the message at the end or stay |
| `LogRing.LogQueue.DequeueMessage` | src/logger.c:98-112 | yields the oldest message iff there is one and leaves the rest in order |
| `LogRing.LogQueue.WorkerThread` | src/logger.c:167-185 | the loop, followed for any number of turns, outputs the queue in order and never past the first FATAL; it ends iff running is down, the flag is up or a FATAL is met, with all of that part output |
| `LoggerProtocol.EnqueueMoves` | src/logger.c:82-94 | the locked region moves a message from its producer to the ring, or changes nothing when full |
| `LoggerProtocol.AccountedStays` | src/logger.c:77-277 | every step of every thread keeps each issued message in exactly one place |
| `LoggerProtocol.FifoStays` | src/logger.c:77-185 | every step keeps acceptance order = output, then the worker's message, then the ring |
| `LoggerProtocol.ControlStays` | src/logger.c:187-245 | every step, with any number of threads in cleanup and the test and the clearing of running apart, keeps the relations between running, shutdown, initialized, the worker and who waits for it |
| `LoggerProtocol.FileStays` | src/logger.c:115-130 | every step keeps the open log file equal to what was processed since it was opened |
| `LoggerProtocol.ExactlyOnePlace` | src/logger.c:77-277 | in every interleaving of producers, worker, signal and init/cleanup cycles an issued message is in exactly one of: a producer's hands, the ring, the worker's hands, written once |
| `LoggerProtocol.RingRefinesFifo` | src/logger.c:12-112 | in every run tail = (head + size) mod 1000, the worker's output is a prefix of acceptance order and the ring holds the rest |
| `LoggerShutdown.RaiseStartsDraining` | src/main.c:21-29 | the signal handler or cleanup, at a safe moment, starts the drain |
| `LoggerShutdown.WorkShrinks` | src/logger.c:167-185 | each worker step uses up drain work and no other step adds any |
| `LoggerShutdown.DrainingStays` | src/logger.c:167-185 | until the file is closed no step makes a message unreachable for the worker |
| `LoggerShutdown.ShutdownDrains` | src/logger.c:223-240 | after a flag raised at a safe moment the worker leaves only with an empty ring, within a bounded number of its steps, and a thread that cleans up alone gets to the close only when every accepted message is written, and in the log file unless written before it was opened |
| `LoggerShutdown.DrainNeverBlocks` | src/logger.c:167-185 | while draining, the worker has left or can step |
| `LoggerShutdown.WorkerRunsOut` | src/logger.c:167-185 | under shutdown the worker alone can empty the ring and leave |
| `LoggerShutdown.CleanupReachesClose` | src/logger.c:223-235 | with the worker gone, the thread that cleans up gets to closing the file whatever is queued |
| `LoggerShutdown.OvertakenLoses` | src/logger.c:173-179 | a message that came in after the worker's look at the ring is lost in some run |
| `LoggerShutdown.MidEnqueueLoses` | src/logger.c:78-82 | a producer past its flag test loses its message in some run |
| `LoggerShutdown.DrainsExactlyWhen` | src/logger.c:167-240 | with one thread cleaning up, the ring is empty at the close in every interleaving iff neither of the two holds when the flag rises |
| `LoggerShutdown.OvertakenIsReachable` | src/logger.c:170-181 | one message logged at the wrong moment reaches the lossy state from the start of the program |
| `LoggerShutdown.MidEnqueueIsReachable` | src/logger.c:78-82 | a producer between flag test and mutex is reached from the start of the program |
| `LoggerShutdown.SecondCleanupClosesEarly` | src/logger.c:154-164 | from any state in which a thread waits for the worker, a FATAL of another producer can close the file with the queue as it is |
| `LoggerShutdown.WorkerFatalStrandsQueue` | src/logger.c:159-163 | after a FATAL the worker outputs nothing more and what is queued stays queued in every continuation |
| `LoggerReset.DrainedUntilReset` | src/logger.c:237-244 | once the thread that cleans up alone is about to close the file, worker gone and ring empty hold until the flags are reset |
| `LoggerReset.EmptyAfterResetExactlyWhen` | src/logger.c:243-275 | after the reset, by whatever thread, nothing gets into the ring, in every continuation without another init, iff no producer is inside logger_log before the ring |
| `LoggerReset.LateEnqueueIsReachable` | src/logger.c:243-275 | from the start of the program, with the flag raised at a safe moment, a message is accepted after the reset, with worker gone and file closed, and never written |
| `LoggerReset.LateEnqueueBeforeExit` | src/logger.c:159-164 | the same while a producer that wrote a FATAL has reset the flags and not yet called exit |
| `LoggerCleanups.AlwaysWaitsExactlyWhen` | src/logger.c:223-241 | while draining, every thread through logger_cleanup finds the worker gone, in every continuation in which nobody else enters, iff the worker is gone or at most one thread is inside |
| `LoggerCleanups.ClosedOnQueueIsReachable` | src/logger.c:229-241 | the main thread waiting with a message queued is reached from the start of the program, and a FATAL from there closes the file on it |
| `LoggerFatal.OutputStopsAtFatal` | src/logger.c:154-185 | in every run the worker's output lies within the accepted messages up to the first FATAL, and the worker is on its way to exit iff it has output that FATAL |
| `LoggerFatal.BehindFatalNeverOutput` | src/logger.c:154-185 | a message accepted behind a FATAL is not output in any continuation |
| `LoggerFatal.OutputReachedExactlyWhen` | src/logger.c:167-185 | while the worker comes back to the ring, an accepted message can still be output iff no FATAL was accepted before it |
| `LoggerFatal.StrandedQueueIsReachable` | src/logger.c:159-163 | a worker on its way to exit with a message queued is reached from the start of the program |
| `LoggerFilter.LevelsAreOrdered` | src/logger.c:250 | the levels are strictly ordered from debug to fatal |
| `LoggerFilter.LevelFilterExact` | src/logger.c:193-251 | after any initialisation and until the next, every message that comes into being has at least the configured level, and a call of a producer outside is taken iff its level is |
| `LoggerFilter.IssuedAreTheCalls` | src/logger.c:248-266 | over any run, one message for each call that was taken, with that level, in order |
| `LoggerFilter.SilentUntilInit` | src/logger.c:224-251 | until the logger is initialised no call is taken and nobody cleans it up |
| `LoggerFilter.FlagsExactly` | src/logger.c:187-245 | over any run each of running, shutdown, initialized, asynchronous logging and the open file is up iff a step raised it, or it was up, and none took it down since |
| `LoggerFilter.SignalAtAnyMoment` | src/main.c:21-24 | until the program exits the handler can run at any moment, and raises the shutdown flag only |
| `LoggerFilter.UninterruptedLog` | src/logger.c:248-277 | a call on its own queues its message iff logging is asynchronous, shutdown has not begun and fewer than 1000 are queued; else the caller writes it, and goes on to exit only for a FATAL |
| `LoggerFilter.ModeIsObeyed` | src/logger.c:193-211 | without asynchronous logging, or with a worker that could not be created, nothing is queued until the next initialisation; without a log file no line gets into one |
| `LoggerFilter.JoinsOnlyCreated` | src/logger.c:230-235 | in every run the worker is waited for only while asynchronous logging is up |
| `LoggerFilter.ExitsOnlyAfterFatal` | src/logger.c:159-164 | in every run the logger ends the program only after a FATAL was written |
| `LoggerFilter.FatalExits` | src/logger.c:154-164 | with synchronous logging a FATAL is written, closes the file and ends the program |
| `LoggerFilter.WorkerFatalExits` | src/logger.c:159-164 | a worker that wrote a FATAL can get through its own join, close the file and end the program |
| `LoggerFilter.LateFatalExits` | src/logger.c:159-224 | a FATAL that finds the logger cleaned up still ends the program |
| `LoopLifecycle.AtMostOneLoopThread` | src/dbus-server/server.c:526-557 | in every interleaving of start, stop and cleanup with the loop threads, at most one is active |
| `LoopLifecycle.StopMeansStopped` | src/dbus-server/server.c:338-379 | when the stop returns no loop thread can read the module list, and cleanup destroys modules only then |
| `LoopLifecycle.StaysQuiet` | src/dbus-server/server.c:279-335 | with none active, none becomes active without another start |
| `LoopLifecycle.StopReturnsExactlyWhen` | src/dbus-server/server.c:362-378 | the stop loop can return iff the id is zero or a thread is still active |
| `LoopLifecycle.StopSureToReturnExactlyWhen` | src/dbus-server/server.c:338-378 | no interleaving gets the stop stuck on an id nobody clears iff the id is zero or the last thread has reached its loop |
| `LoopLifecycle.EarlyReturnSticks` | src/dbus-server/server.c:256-277 | a thread that returns before its loop leaves a stop stuck, from the start of the program |
| `LoopLifecycle.LateIdSticks` | src/dbus-server/server.c:543 | so does an id stored after its thread has finished |
| `LoopLifecycle.LoopThreadEnds` | src/dbus-server/server.c:279-332 | a thread that reached its loop ends within three of its own steps of the flag being cleared, and zeroes the id |
| `LoopLifecycle.KeepsServing` | src/dbus-server/server.c:279-328 | a thread in its loop stays there, with the flag set, over every run without a stop, an undone start or a failed poll of its own |
| `LoopLifecycle.RoundPollsAgain` | src/dbus-server/server.c:279-304 | a poll that did not fail leads back to the poll |
| `LoopLifecycle.StartServes` | src/dbus-server/server.c:526-557 | a start of a stopped server brings a new thread into its loop, known by its id, and leaves the earlier ones alone |
| `LoopLifecycle.StartTwiceIsOnce` | src/dbus-server/server.c:532-537 | a start of a running server changes nothing |
| `LoopLifecycle.FailedStartIsUndone` | src/dbus-server/server.c:543-550 | a start whose thread could not be created leaves a stopped server, so that it can be started again |
| `LoopLifecycle.StopOfStopped` | src/dbus-server/server.c:343-347 | a stop of a stopped server returns at once, whatever id is left behind |
| `LoopLifecycle.CleanupGoesOnExactlyWhen` | src/dbus-server/server.c:563-577 | the second wait goes on at once with a zero id, and else after exactly ten rounds |
| `LoopLifecycle.CleanupFreesServer` | src/dbus-server/server.c:560-594 | cleanup of a running server can stop the thread, wait for it and free everything, with the thread done |
| `ShmSizes.RequiredSizeExact` | src/wayland/shm.c:85 | on all arguments the 64-bit required size is the true one, or 2^64 more where that is negative |
| `ShmSizes.RefusedExactlyWhen` | src/wayland/shm.c:68-94 | which check refuses a request, each in true integers: the first that fails decides |
| `ShmSizes.AcceptedExactlyWhen` | src/wayland/shm.c:68-94 | for every pool size and request: accepted iff it starts in the pool, has pixels, a stride of at least the wrapped bound, ends in the pool and has one of the six formats |
| `ShmSizes.AcceptedBelowLimitExactlyWhen` | src/wayland/shm.c:68-94 | below width 2^29 the bound on the stride is four bytes a pixel |
| `ShmSizes.FullPoolIsAccepted` | test-client/client-xdg.c:132-154 | a buffer of packed rows that fills its pool to the last byte is accepted |
| `ShmSizes.SizesAreExact` | src/wayland/buffer.c:38 | for an accepted width below 2^29 the 64-bit and the 32-bit size are the true ones |
| `ShmSizes.AcceptedFitsExactlyWhen` | src/wayland/shm.c:68-94 | an accepted buffer has all its pixels in the pool iff its width is below 2^29 |
| `ShmSizes.WideBufferAccepted` | src/wayland/shm.c:78-89 | a request that passes every check with its first pixel outside the pool |
| `ShmResources.CreatePoolKeeps` | src/wayland/shm.c:164-211 | every outcome of create_pool keeps descriptors, mappings and lists accounted for |
| `ShmResources.CreateBufferKeeps` | src/wayland/shm.c:60-116 | so does every outcome of create_buffer |
| `ShmResources.DestroyBufferKeeps` | src/wayland/shm.c:49-58 | so does destroying a buffer on its own |
| `ShmResources.DestroyPoolKeeps` | src/wayland/shm.c:139-162 | so does tearing down a pool whose listed buffers are live |
| `ShmResources.PoolMadeExactlyWhen` | src/wayland/shm.c:164-211 | a pool of that size and descriptor comes into being iff descriptor, size, memory, mapping and resource are there; else a received descriptor is closed at once |
| `ShmResources.BufferMadeExactlyWhen` | src/wayland/shm.c:60-116 | below width 2^29 a buffer with the true size and the pool's descriptor heads the pool's list iff the request lies in the pool and the allocations succeed; else nothing changes |
| `ShmResources.ResourcesBalance` | src/wayland/shm.c:49-211 | in every run each received descriptor is closed once per receipt or owned by one live pool, mappings likewise, and a live buffer uses the descriptor of a live pool that lists it |
| `ShmResources.TeardownSoundExactlyWhen` | src/wayland/shm.c:139-149 | after any run, tearing down a pool touches no freed buffer iff none of its listed buffers was destroyed on its own |
| `ShmResources.InsertSoundExactlyWhen` | src/wayland/shm.c:110-111 | after any run, adding an accepted buffer touches no freed buffer iff the newest listed one was not destroyed on its own |
| `ShmResources.DestroyedBufferIsTouched` | src/wayland/shm.c:110-149 | after create_pool, create_buffer and destroying the buffer, neither teardown nor another create_buffer is sound |
| `ShmServer.Server.CreatePool` | src/wayland/shm.c:164-211 | the handler with all its failure branches makes exactly the model's transition |
| `ShmServer.Server.CreateBuffer` | src/wayland/shm.c:60-116 | the verdict of the checks in order, and the model's transition, or a touched freed buffer exactly where the model says |
| `ShmServer.Server.DestroyBuffer` | src/wayland/shm.c:49-58 | frees the buffer and leaves the list as it is |
| `ShmServer.Server.DestroyPool` | src/wayland/shm.c:139-162 | the loop over the list, munmap, close and unlink make the model's transition, or touch a freed buffer exactly where the model says |
| `ModuleLib.FirstMatchIsFirst` | src/dbus-server/module-lib.c:244-267 | a lookup fails iff no (interface, method) entry answers, and else yields the first that does |
| `ModuleLib.LookupExactly` | src/dbus-server/module-lib.c:249-264 | told on the lists: a lookup yields a method iff it is the first of that name in an interface of that name and path |
| `ModuleLib.AddMethodShadows` | src/dbus-server/module-lib.c:224-241 | registering a method changes only the lookups it answers, and those unless an earlier interface answered |
| `ModuleLib.AddInterfaceIsInert` | src/dbus-server/module-lib.c:202-221 | a new interface changes no lookup |
| `ModuleLib.InterfaceNode.AddMethod` | src/dbus-server/module-lib.c:224-241 | the new method becomes the head, the rest stays; without interface, name or memory nothing changes; a signature that could not be copied is missing |
| `ModuleLib.ModuleNode.AddInterface` | src/dbus-server/module-lib.c:202-221 | the new interface becomes the head, the rest stays; without module, name, path or memory nothing changes |
| `ModuleLib.ModuleNode.AddMethodTo` | src/dbus-server/module-lib.c:236-238 | adding to one interface leaves the module's others as they are |
| `ModuleLib.ModuleNode.FindMethod` | src/dbus-server/module-lib.c:244-267 | the nested search equals the first match in the flattened list |
| `ModuleRegistry.Registry.Add` | src/dbus-server/server.c:399-416 | a new module is appended; a listed one cuts off those behind it; the list stays acyclic with the tail at its end iff the module was not the last |
| `ModuleRegistry.Registry.Find` | src/dbus-server/server.c:419-435 | the first module of that name, or null iff there is none |
| `ModuleRegistry.Registry.Unlink` | src/dbus-server/server.c:448-456 | the pointer surgery, at the head, middle or tail, drops exactly that node |
| `ModuleRegistry.Registry.Remove` | src/dbus-server/server.c:438-467 | removes and destroys the first module of that name only |
| `ModuleRegistry.Registry.RemoveAll` | src/dbus-server/server.c:470-487 | destroys every module in list order and leaves an empty list |
| `ModuleRegistry.RestDrop` | src/dbus-server/server.c:446-461 | one more module destroyed drops out of the rest and nothing else moves |
| `ModuleRegistry.RunsConserveModules` | src/dbus-server/server.c:399-487 | over any run each module added is listed or destroyed, once, and the list keeps the order of adding |
| `ModuleRegistry.NamesAreQueues` | src/dbus-server/server.c:399-487 | over any run, with any names: the modules of a name that are listed are those of a queue to which adding appends, from which removing takes the first and which removing all empties; the others were destroyed in the order of adding |
| `ModuleRegistry.RemovingAllLeavesNone` | src/dbus-server/server.c:470-487 | a run that ends with removing all destroys every module that was added, once |
| `Dispatch.SelectedIsFirst` | src/dbus-server/server.c:199-216 | the handler selected is that of the first module whose first matching method has one; none iff no module has |
| `Dispatch.SelectedExactly` | src/dbus-server/server.c:199-216 | told on the lists: a handler is selected iff it is that of the first matching method of the first module whose first matching method has one |
| `Dispatch.TerminatesExactlyWhen` | src/dbus-server/server.c:201-216 | for any sequence of replies the loop ends iff no handler is selected or some reply is not NOT_YET_HANDLED |
| `Dispatch.RefusalKeepsBusy` | src/dbus-server/server.c:209-215 | a single module whose handler always refuses keeps the loop going for ever |
| `Dispatch.LocksAndErrors` | src/dbus-server/server.c:197-231 | locks and unlocks balance iff nobody handles the call, one unlock too many otherwise; the error goes out in the first case only |
| `Dispatch.OneHandlerRuns` | src/dbus-server/server.c:199-216 | with no refusal, exactly the selected handler is called, once |
| `Dispatch.HandleMethodCall` | src/dbus-server/server.c:194-232 | for any handlers, the loop over the linked list followed for any number of turns performs exactly the modelled events and ends exactly when the model does |
| `Dispatch.EndsAs` | src/dbus-server/server.c:199-232 | a loop that ended called only the selected handler, up to its first reply that is not a refusal, or nobody and sent the error |
| `Dispatch.CreateBufferModule` | src/dbus-server/modules/buffer_module.c:27-51 | with any outcome of the allocations: null without module or interface, else one interface with the methods that could be added, newest first |
| `IntrospectionFormat.LexBack` | src/dbus-server/module-lib.c:70-92 | the text of any clean lines lexes back to their tokens |
| `IntrospectionGenerator.AppendMethod` | src/dbus-server/module-lib.c:36-56 | the appends for one method spell its element, with an argument per non-empty signature |
| `IntrospectionGenerator.GenerateInterface` | src/dbus-server/module-lib.c:24-64 | an interface shown at the path yields its lines, any other nothing |
| `IntrospectionGenerator.GenerateHeader` | src/dbus-server/module-lib.c:70-80 | the fixed start spells the declaration, the node and the standard interface |
| `IntrospectionGenerator.GenerateModule` | src/dbus-server/module-lib.c:67-94 | the appends spell exactly the lines of the interfaces shown at the path, none for a null module |
| `IntrospectionRoundTrip.InterfacesBack` | src/dbus-server/module-lib.c:82-90 | parsing the interface lines gives the interfaces of the path, in list order, and stops at what follows |
| `IntrospectionRoundTrip.ModuleRoundTrip` | src/dbus-server/module-lib.c:67-94 | parsing a module's document recovers exactly its interfaces at the path with all methods and signatures |
| `IntrospectionRoundTrip.DocumentTellsExactly` | src/dbus-server/module-lib.c:24-94 | told without the describing functions: the document holds the interfaces whose path is the one asked for, each with its methods and the arguments its signatures ask for, in list order, none missing |
| `IntrospectionRoundTrip.StandardTold` | src/dbus-server/module-lib.c:76-80 | the standard interface has one method, with one output argument |
| `IntrospectionRoundTrip.RootRoundTrip` | src/dbus-server/server.c:86-148 | parsing the root document recovers exactly the child nodes |
| `IntrospectionRoundTrip.TextDeterminesInterfaces` | src/dbus-server/module-lib.c:67-94 | equal documents mean equal interfaces: the printer is injective |
| `IntrospectionRoundTrip.ParsedIsNested` | src/dbus-server/module-lib.c:67-94 | in any document that parses, every opened element is closed, innermost first |
| `RootIntrospection.LastSlashBound` | src/dbus-server/server.c:114-118 | the last slash has no slash behind it |
| `RootIntrospection.NodeNameExactly` | src/dbus-server/server.c:112-118 | a path has a node name iff it is what follows the last slash and is not empty |
| `RootIntrospection.NodeNameMissing` | src/dbus-server/server.c:112-117 | there is none iff the path is missing, has no slash or ends in one |
| `RootIntrospection.RootListsComponents` | src/dbus-server/server.c:104-142 | for any modules the names listed are last components of interface paths, each once, and all of them unless there are more than 100 |
| `RootIntrospection.RootNamesExact` | src/dbus-server/server.c:104-142 | the names are distinct, at most 100, in order of first occurrence, and one is missing only when 100 others occurred before it |
| `RootIntrospection.CapStep` | src/dbus-server/server.c:120-136 | one more name is appended iff it is new and the array is not full, also past the cap |
| `RootIntrospection.AlreadySeen` | src/dbus-server/server.c:121-127 | the scan finds exactly the names recorded so far |
| `RootIntrospection.AppendNode` | src/dbus-server/server.c:112-138 | one interface extends the array and the text by its node name, or neither |
| `RootIntrospection.GenerateRoot` | src/dbus-server/server.c:86-148 | the nested loops spell the document of exactly those names over all modules |
| `RootIntrospection.HandleIntrospect` | src/dbus-server/server.c:151-179 | the reply is the document of the first module with an interface at the path, or the root's |
| `RootIntrospection.ReplyReadsBack` | src/dbus-server/server.c:151-187 | for any path the reply parses to that module's interfaces there, or to the distinct node names |
| `RootIntrospection.ReplyTellsExactly` | src/dbus-server/server.c:151-187 | for any path the reply says the interfaces at the path of the first module that has one there, or the last components of the interface paths |
| `Handoff.SendUpdateSignal` | src/dbus-server/modules/buffer_module.c:116-196 | what is sent, and that nothing is without connection, record or message, or when libdbus does not take it |
| `Handoff.AssignSound` | test-renderer/src/buffer_mgr.c:93-127 | on any struct the assigned arguments are a prefix in order, each of its field's type, and a field stays unset only when the argument in turn does not fit |
| `Handoff.DecodeStruct` | test-renderer/src/buffer_mgr.c:91-127 | the seven iterator steps compute that assignment |
| `Handoff.MessageHandler` | test-renderer/src/buffer_mgr.c:71-135 | total on all messages: other ones not handled, malformed ones ignored, updates decoded |
| `Handoff.SignalRoundTrip` | src/dbus-server/modules/buffer_module.c:134-178 | decoding an encoded record returns its numbers, both strings and the same open file |
| `Handoff.DecodedInOrder` | test-renderer/src/buffer_mgr.c:93-127 | a struct with the seven arguments in order is read field by field, whatever follows |
| `Handoff.DefaultsOfEmpty` | test-renderer/src/buffer_mgr.c:93-127 | an empty struct leaves zeros, no strings and no file |
| `RenderBuffers.ApplyKeeps` | test-renderer/src/buffer_mgr.c:12-58 | an update, successful or not, leaves one mapping described by the fields, or none |
| `RenderBuffers.MappingsReleasedOnce` | test-renderer/src/buffer_mgr.c:240-269 | over any run and the cleanup every mapping is released exactly once and none remains |
| `RenderBuffers.LastFrameStands` | test-renderer/src/buffer_mgr.c:12-58 | the buffer is that of the last successful update, and cleanup closes only its descriptor, or 0 without any |
| `RenderBuffers.DescriptorsClosedExactlyWhen` | test-renderer/src/buffer_mgr.c:240-262 | the descriptors closed are those received iff there was one, and it came into use or is 0 |
| `RenderBuffers.FirstDescriptorStaysOpen` | test-renderer/src/buffer_mgr.c:48-58 | after two successful updates only the second descriptor is closed |
| `RenderBuffers.BufferManager.UpdateFromFd` | test-renderer/src/buffer_mgr.c:12-58 | maps first, then drops the previous data, then installs: exactly the model's transition |
| `RenderBuffers.BufferManager.Cleanup` | test-renderer/src/buffer_mgr.c:249-262 | exactly the model's release |
| `Addressing.Uploader.CreateStagingBuffer` | test-renderer/src/vulkan_texture.c:22-67 | kept when large enough, else replaced by one of the size asked for; one exists iff the handle is set |
| `Addressing.Uploader.Stage` | test-renderer/src/vulkan_texture.c:219-248 | the staging buffer starts with the mapped bytes; nothing happens without data |
| `Addressing.RegionExact` | src/wayland/compositor_surface.c:158-167 | create, attach, signal and decode give a region at offset 0 whose rows are the announced ones |
| `Addressing.AnnouncedFormatExactlyWhen` | src/wayland/compositor_surface.c:162 | the format announced is XRGB8888, which is the client's iff the client asked for it |
| `Addressing.TexelsInFileExactlyWhen` | test-renderer/src/vulkan_texture.c:326-338 | for every positive size all texels lie in a file iff the end of the last one does |
| `Addressing.TexelsInFile` | test-renderer/src/vulkan_texture.c:326-338 | for an accepted buffer every texel copied lies in the mapped file, hence in the staging buffer, below width 2^29; from there on some texel lies outside any file below 2^31 bytes |
| `Addressing.FileIsThePools` | src/dbus-server/modules/buffer_module.c:176-178 | the file received is the one behind the pool's descriptor |
| `Addressing.TexelsAreThePixelsExactlyWhen` | test-renderer/src/vulkan_texture.c:326-338 | all texels are at the bytes of the client's pixels iff the offset is 0 and there is one row or the client's stride is the announced one |
| `Addressing.ShiftedAndPaddedMisread` | src/wayland/compositor_surface.c:158-167 | an accepted buffer at an offset, and one with padded rows, that the renderer misreads |
| `Addressing.ClientPixelsReachTheTexture` | test-renderer/src/vulkan_texture.c:231-338 | then the staged bytes of every texel are those the client wrote for that pixel |
| `FramesInFlight.SlotStays` | test-renderer/src/vulkan.c:958-1025 | every CPU or GPU step keeps each slot's fence, submission and framebuffer in agreement |
| `FramesInFlight.FramesAreSafe` | test-renderer/src/vulkan.c:941-1025 | in every interleaving a pending submission's fence is unsignalled, no fence or command buffer is reset in use, at most two are outstanding, framebuffers go only when none is |
| `FramesInFlight.SlotsAlternate` | test-renderer/src/vulkan.c:1024 | in every run the current slot is the first one plus the number of frames presented, modulo two |
| `FramesInFlight.TwoInFlightIsReachable` | test-renderer/src/vulkan.c:958-1024 | two submissions are outstanding after the second frame, so the bound of two is attained |
| `FramesInFlight.RebuiltExactlyWhenStale` | test-renderer/src/vulkan.c:966-1018 | over any run the framebuffers are rebuilt once for every result that finds the swapchain stale |
| `FramesInFlight.ExitsExactlyOnFailure` | test-renderer/src/vulkan.c:969-1022 | over any run the program ends iff one of the four calls failed |
| `FramesInFlight.FailureIsReachable` | test-renderer/src/vulkan.c:969-1022 | each of the four failures can happen on the first frame |
| `FramesInFlight.ArmedReturns` | test-renderer/src/vulkan.c:959 | a wait on a fence that was submitted or is signalled can return |
| `FramesInFlight.WaitReturnsExactlyWhen` | test-renderer/src/vulkan.c:958-968 | the wait can return iff the previous call did not give up after an out-of-date acquire |
| `FramesInFlight.WaitSureToReturnExactlyWhen` | test-renderer/src/vulkan.c:958-968 | no GPU interleaving leaves the wait on an unsubmitted fence iff the previous call did not give up after an out-of-date acquire |
| `FramesInFlight.AbandonIsReachable` | test-renderer/src/vulkan.c:961-968 | giving up is possible on the very first frame |
| `ConfigFormat.EntryLine` | src/config.c:75-110 | a line `key=value` sets the key to the value without the trailing blanks of both |
| `ConfigFormat.LineReadsBack` | src/config.c:75-110 | a printed line sets its field to the printed value; comments and empty lines change nothing |
| `ConfigFormat.PrintReadsBack` | src/config.c:68-115 | reading any printed lines sets exactly the fields of the keys among them |
| `ConfigFormat.ConfigRoundTrip` | src/config.c:68-115 | a printed configuration is read back unchanged, in any key order, with comments and blank lines, from any starting configuration |
| `ConfigFormat.OpenConfigRoundTrip` | src/config.c:68-115 | the same without a newline at the end of the file |
| `ConfigFormat.EntryLineAtEnd` | src/config.c:75-110 | a last line without a newline does what it does with one |
| `ConfigFormat.FlagWordsExactly` | src/config.c:46-52 | a truth value is true for exactly the words true, yes, 1 and on |
| `ConfigFormat.LevelWordsExactly` | src/config.c:37-44 | a level is told by its word, every other word stands for info |
| `ConfigFormat.PathLineExactly` | src/config.c:101-103 | a path is kept up to 255 characters |
| `ConfigFormat.OtherKeysIgnored` | src/config.c:89-109 | a line with a key that is none of the seven changes nothing |
| `ConfigFormat.NoValueIgnored` | src/config.c:82-85 | nor does a line without an equals sign or without a value |
| `ConfigFormat.ChunkExactly` | src/config.c:74-75 | one line taken from the file has up to 255 characters and no newline but at its end, and is no shorter than that |
| `ConfigFormat.BlanksStayInValue` | src/config.c:54-66 | blanks before the equals sign and at the end go, those before the value become part of it |
| `ConfigFormat.BlankValuesReadExactlyWhen` | src/config.c:37-52 | a level behind blanks is read correctly iff there are none or it is the default, `true` iff there are none |
| `ConfigFormat.PaddedLevelReadExactlyWhen` | src/config.c:76-91 | a line for the level with blanks around the equals sign is read correctly iff none precedes the value or it is the default |
| `ConfigFormat.PaddedFlagReadExactlyWhen` | src/config.c:76-109 | a line for a truth value likewise, iff no blank precedes the value or it is false |
| `ConfigFormat.SampleLevelMisread` | examples/logger.conf:2 | the sample's line for debug messages gives the info level |
| `ConfigReader.TrimString` | src/config.c:54-66 | in place, the string becomes its trimmed form and nothing behind it changes |
| `ConfigReader.StrTok` | src/config.c:82-83 | in place, the token and the rest are zero-terminated where the model says, and nothing outside changes |
| `ConfigReader.SplitLine` | src/config.c:81-85 | both calls yield the two tokens, and the key ends before the value starts |
| `ConfigReader.Fgets` | src/config.c:74-75 | the buffer holds the next line, at most 255 characters |
| `ConfigReader.ProcessLine` | src/config.c:76-110 | a line held in the buffer does to the configuration what the model says |
| `ConfigReader.AssignByName` | src/config.c:89-109 | the chain of comparisons assigns the field of the key and ignores unknown keys |
| `ConfigReader.LoggerConfigRead` | src/config.c:68-115 | the whole file is read as the model says; a file that cannot be opened leaves the configuration alone |

## Left out

- libwayland, libdbus, GLFW and Vulkan: only the facts used are modelled (a destroyed resource runs its destructor once, typed argument iterators, fences, device-idle waits); semaphores are not.
- Terminal colours, timestamps, formatting of log lines, flushing, signal installation, the startup command.
- Running out of memory in `str_append` and in the strings of the introspection; null names given to the lookups and to remove; a null server.
- LoggerProtocol.ExactlyOnePlace: these are one step each: logger_init, which is called with no thread in cleanup or on its way to exit; the two reads of the loop test; the reads of async_enabled and of the shutdown flag; the console and the file line of a message; the test of g_logger_initialized and the raise of the flag; testing, closing and clearing the file; clearing the two flags at the end. Two threads closing the file at the very same moment, undefined in C, are not modelled.
- LoggerFatal.OutputReachedExactlyWhen: about a worker that is there, has not just found the ring empty under shutdown, and a program that has not exited; like `LoggerShutdown.WorkerFatalStrandsQueue` it takes a self-join to be refused at once, as POSIX recommends; a join of a thread that is being joined, undefined there, may return at once or wait.
- LogRing.LogQueue.WorkerThread: the loop with no producer enqueuing; its interleavings with the others are in `LoggerProtocol`.
- LoopLifecycle.StopMeansStopped: callers other than the one controlling thread, and modules changed while a handler runs unlocked, are not modelled.
- ModuleRegistry.RunsConserveModules: about runs that add each module once.
- ModuleLib.ModuleNode.FindMethod: the interface and method lists are sequences in fields, so the pointers between their nodes and the frees of the destroy chain are not captured.
- IntrospectionRoundTrip.ModuleRoundTrip: holds for names and signatures without quotes and angle brackets; entity references are not parsed.
- ShmSizes.AcceptedFitsExactlyWhen: the signed overflow of `width * 4`, undefined in C, is taken to wrap, as the target's arithmetic does.
- ShmServer.Server.CreateBuffer: a pool resource without a pool behind it is not modelled; the allocations are identities, not addresses.
- ShmServer.Server.DestroyPool: relies on lists without repetitions and pools as create_pool makes them, which `ShmResources.InvStays` keeps in every run; after a freed buffer was touched nothing is promised.
- RenderBuffers.BufferManager.UpdateFromFd: concurrency with the drawing thread is not modelled; the unused capacity field is omitted.
- Addressing.Uploader.Stage: texture image, layouts, descriptors and memory types are not modelled; the resize test compares an object with itself.
- FramesInFlight.FramesAreSafe: swapchain image indices, semaphores and the image-count clamp are not modelled.
- ConfigFormat.ConfigRoundTrip: the printer is the format's, not part of the repository, which only reads; characters are bytes of the C locale.
- `parse_args`, dmabuf and EGL buffers, pool resize (a no-op), and the surface handlers that only log.
