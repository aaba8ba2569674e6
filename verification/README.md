# Deterministic lockstep netplay: a verified model

The repository is the client side of a lockstep netplay system. Every client
puts the buttons of its own controller ports into a queue and onto a stream to a
server, the server passes them on, and every client takes the buttons of all
ports, frame by frame, out of its queues. The game runs in lockstep if, for each
port and frame, every client takes the same buttons.

This project models three parts of the client and proves what they promise,
one by one and together:

* **The input queue**, a frame-indexed delay line under a mutex and a condition
  variable. `DelayLine` is the queue as a value, with a reference (a delay line
  that remembers the first put of every frame and knows nothing about gets);
  `InputQueue` is the object; `QueueThreads` is the same object shared by any
  number of threads, stepping between lock points.
* **The event stream handler**, the per-client protocol engine. `HandlerModel`
  says what each method does to a value; the class in `EventStreamHandler` works
  in place, with the loops of the original, and is proved against it;
  `HandlerResults` and `HandlerRuns` say what the calls amount to in terms that
  do not follow the code; `RequestOrder` compares different orders of gets.
* **Systems of clients.** `Lockstep` joins any number of handlers by a relay that
  loses, duplicates, delays, reorders and regroups keys. `GameLoop`,
  `GameLoopSteps` and `Progress` run "put frame n, then get frame n of every
  port" over a relay that only delays, reorders and regroups.

`Mupen64Plugin` models what the mupen64plus plugin does with a handler: batching
puts and filling in the emulator's controller table. `Mupen64Coder` is its button
coder, for which the assumptions about coders are discharged.

## How to read the results

The main results, hardest first:

1. `Lockstep.LockstepAgreement` and `Lockstep.ObtainedIsWhatTheOwnerPut`: in every
   run, whatever the relay does and whichever puts fail half-way, whatever a client
   obtains is the blank during the port's delay and otherwise what the owner put
   that many frames earlier; so no two clients ever disagree.
2. `Progress.DeadlockFree`, `EveryGameEnds`, `EveryFrameIsReached`, `NothingFails`,
   `BoundedSkew`, `BoundedBuffers`: with non-negative delays the loop never gets
   stuck, whatever each client's program puts and in whatever fixed order it asks for
   ports; every run of n frames ends, after a bounded number of moves, with all
   clients at frame n; no put or get is refused, and nobody runs far ahead.
3. `RequestOrder.AnyOrder`: if getting a set of remote frames succeeds in one order,
   it does in every order, with the same buttons, events consumed and final queues.
4. `QueueThreads.EveryRunIsSequential` and `CallsTakeEffectOnce`: concurrent calls are
   linearizable; no wake-up is lost, and the check made before a wait is still true
   after it.
5. `DelayLine.QueueRefinesDelayLine`: every run of the queue is a run of the
   reference.
6. `HandlerRuns`: classification of queues, the branch that is unreachable, the
   condition under which another one is, and the agreement of queues and wire over
   runs with any number of restarts.
7. `Mupen64Plugin.InitiateNetplay`: the controller table is faithful or untouched.

What is assumed of the server, which is not in the repository:

* Safety (`Lockstep.ValidConfig`, `Lockstep.Deliverable`): every client is started
  with the same list of ports; the clients' local ports are disjoint; a delivered
  key was written by some client and is not for a local port of the receiver.
  Clients put on their own ports only, and decoding undoes encoding.
* Progress (`GameLoop.Playable`): besides, no delay is negative, every connected
  port belongs to a client, everything can be encoded, and keys are neither lost
  nor duplicated.

Where the code and its comments disagree, the model follows the code:

* `InputQueue::GetButtons` is documented to hand out default buttons below
  `delay_frames_`; it compares with the initial frame delay, which differs for
  remote queues (netplay/client/input-queue.h:34-35, input-queue.hpp:110).
  `DelayLine.QueueRefinesDelayLine` has the two as separate parameters, and
  `InputQueues.InputQueue.MakeRemoteQueue` sets them apart.
* Puts are documented to fail below the latest requested frame; they also fail for
  that frame itself (netplay/client/input-queue.h:71-72, input-queue.hpp:61), as
  `DelayLine.AcceptsExactlyTheFirstPut` implies.
* `remote_ports` is documented to be empty unless the start succeeded. That holds
  until the first successful start (`HandlerRuns.NoPortsBeforeTheFirstStart`);
  after it, `HandlerRuns.FailedRestart` says exactly when, and
  `HandlerRuns.BrokenRestart` is a run in which it is not.
* A negative delay is caught when buttons are put, not when the server announces
  it, and the buttons are in the queue by then
  (`HandlerRuns.NegativeDelayIsAnInternalError`, `InternalErrorIsReached`).

## Model

| member | source | states |
|---|---|---|
| DelayLine.QueueRefinesDelayLine | netplay/client/input-queue.hpp:36-140 | over every run of puts and gets the k-th successful get is for frame k and hands out the default or the first put of frame k - delay; what is pending is exactly what was put and not read |
| DelayLine.AcceptsExactlyTheFirstPut | netplay/client/input-queue.hpp:39-77 | after any run a put is accepted if and only if its frame is admissible and it is the first for that delayed frame |
| DelayLine.EveryAnswer | netplay/client/input-queue.hpp:99-139 | after any run a get is UNEXPECTED_FRAME if and only if its frame is not the number of frames handed out so far; else it is the default, the recorded buttons, or TIMEOUT for a frame that is not recorded |
| DelayLine.FailedGetChangesNothing | netplay/client/input-queue.hpp:99-132 | exactly the gets without buttons leave the queue as it was |
| DelayLine.RecordedIsFirstPut | netplay/client/input-queue.hpp:71-80 | the reference holds the buttons of the first put of a frame, and only of that one |
| DelayLine.SameAcceptedPutsSameOutput | netplay/client/input-queue.hpp:36-140 | two runs that accept the same puts hand out the same buttons, whatever the order and whatever else is rejected |
| DelayLine.AcceptedIsRecorded | netplay/client/input-queue.hpp:39-80 | the puts that the queue accepts in a run are those that the reference records |
| DelayLine.PutOrderDoesNotMatter | netplay/client/input-queue_test.cc:29-58 | as a special case, two runs that try the same puts once each, shuffled and interleaved with gets in any way, hand out the same buttons |
| DelayLine.Conservation | netplay/client/input-queue.hpp:60-147 | accepted puts = deliveries beyond the initial delay + queue size |
| DelayLine.GetCommutesWithPut | netplay/client/input-queue.hpp:60-139 | a get that can be answered gives the same buttons and the same queue before and after any put |
| InputQueues.InputQueue.MakeLocalQueue | netplay/client/input-queue.hpp:22-27 | the queue of a local port shifts by its delay |
| InputQueues.InputQueue.MakeRemoteQueue | netplay/client/input-queue.hpp:29-34 | the queue of a remote port has the initial delay but does not shift |
| InputQueues.InputQueue.PutButtons | netplay/client/input-queue.hpp:36-86 | the object accepts what the delay line accepts and becomes what the delay line becomes |
| InputQueues.InputQueue.GetButtons | netplay/client/input-queue.hpp:88-140 | the object answers what the delay line answers; an unexpected frame and an absent one change nothing |
| InputQueues.InputQueue.QueueSize | netplay/client/input-queue.hpp:142-147 | the number of pending frames, the last term of the conservation law |
| QueueThreads.NextKeepsInv | netplay/client/input-queue.hpp:36-140 | every step of every thread keeps mutual exclusion, what was checked before the lock and before the wait, and the owed notifications |
| QueueThreads.EveryRunIsSequential | netplay/client/input-queue.hpp:36-140 | for any number of threads and any interleaving, the calls made one after the other in the order in which they took effect get the same replies and leave the same queue; only an overtaken consumer times out instead of being unexpected, and untimed calls never time out |
| QueueThreads.CallsTakeEffectOnce | netplay/client/input-queue.hpp:36-140 | every call of every thread takes effect exactly once, in order, with its own arguments, and returns the reply it got then |
| QueueThreads.OwnStepsFinish | netplay/client/input-queue.hpp:55-139 | a call is over after three steps of its thread unless it goes to sleep, which it does only on an absent frame before its time is up |
| QueueThreads.ThreadsSeeADelayLine | netplay/client/input-queue.hpp:36-140 | what all threads together are handed is every frame once, in order, with the default or the first put |
| QueueThreads.CheckSurvivesTheWait | netplay/client/input-queue.hpp:99-137 | a consumer that finds its frame after waiting is for frame latest + 1, so taking it without checking again is a correct get, and it is handed that frame |
| QueueThreads.SleepersAreWoken | netplay/client/input-queue.hpp:55-83 | a consumer that sleeps un-notified on a present frame is owed a notify_all |
| QueueThreads.OnlyAbsentFramesBlock | netplay/client/input-queue.hpp:116-132 | when no thread can run, the mutex is free and every thread is done or sleeps on an absent frame |
| QueueThreads.OvertakenForGood | netplay/client/input-queue.hpp:61-69 | a frame that some consumer has taken is never in the queue again |
| EventStreamHandlers.EventStreamHandler.constructor | netplay/client/event-stream-handler.hpp:12-46 | a new handler has no queues; the conditions under which the source aborts are the precondition |
| EventStreamHandlers.EventStreamHandler.WaitForConsoleStart | netplay/client/event-stream-handler.hpp:82-128 | one read, all failure cases, and what each leaves of the queues |
| EventStreamHandlers.EventStreamHandler.InitializeQueues | netplay/client/event-stream-handler.hpp:130-190 | the loop with its counter decides well-formedness: at most 4 ports, no PORT_ANY, no duplicates, all local ports connected; accepted or refused, the queues are those of the ports before the first bad one |
| EventStreamHandlers.EventStreamHandler.EmplaceQueue | netplay/client/event-stream-handler.hpp:160-172 | a queue that is already there stays; a new one is local or remote |
| EventStreamHandlers.EventStreamHandler.PutButtons | netplay/client/event-stream-handler.hpp:195-268 | new queues, outgoing stream and status of a whole batch, including the failed write |
| EventStreamHandlers.EventStreamHandler.PutTuples | netplay/client/event-stream-handler.hpp:199-247 | the loop over the batch, up to its early returns |
| EventStreamHandlers.EventStreamHandler.PutTuple | netplay/client/event-stream-handler.hpp:202-246 | one tuple: which of the failures it causes, and the key it attaches |
| EventStreamHandlers.EventStreamHandler.GetButtons | netplay/client/event-stream-handler.hpp:273-289 | new queues, rest of the stream and status of a get |
| EventStreamHandlers.EventStreamHandler.GetLocalButtons | netplay/client/event-stream-handler.hpp:291-312 | a get from a local queue never touches the stream |
| EventStreamHandlers.EventStreamHandler.GetRemoteButtons | netplay/client/event-stream-handler.hpp:314-352 | get, read until the buttons are there, get again |
| EventStreamHandlers.EventStreamHandler.ReadUntilButtons | netplay/client/event-stream-handler.hpp:354-421 | the read loop, with the remaining script as its measure |
| EventStreamHandlers.EventStreamHandler.ApplyEvent | netplay/client/event-stream-handler.hpp:389-416 | the inner loop puts the key presses in order up to the first error and reports whether the key was among them |
| EventStreamHandlers.EventStreamHandler.RemotePorts | netplay/client/event-stream-handler.hpp:439-449 | the connected ports that are not local |
| EventStreamHandlers.EventStreamHandler.DelayFramesForPort | netplay/client/event-stream-handler.hpp:451-458 | the shift of the port's queue, -1 if it has none |
| HandlerResults.FreshStart | netplay/client/event-stream-handler.hpp:82-190 | a fresh handler starts if and only if a start message for its console arrives with a well-formed configuration; it then has exactly the listed queues, with remote ports the difference, and otherwise none |
| HandlerResults.EveryStart | netplay/client/event-stream-handler.hpp:82-190 | any start, also a later one: when it succeeds, that the queues already there are kept, and what each kind of failure leaves |
| HandlerResults.ConfigurationRules | netplay/client/event-stream-handler.hpp:134-190 | a configuration is well-formed if and only if it has at most 4 ports, as many different ones as it lists, all local ports and not PORT_ANY |
| HandlerResults.ReportedDelays | netplay/client/event-stream-handler.h:143-145 | after a first start, the announced delay for local ports, 0 for remote ones and -1 for all others |
| HandlerResults.ConnectDescribed | netplay/client/event-stream-handler.hpp:143-175 | connecting distinct ports adds their queues and keeps all that were there |
| HandlerResults.FirstHitIsGot | netplay/client/event-stream-handler.hpp:354-421 | if the requested key is first in event m, exactly m events are consumed and the queues are the fold of all their key presses |
| HandlerResults.GotIsFirstHit | netplay/client/event-stream-handler.hpp:354-421 | GOT_BUTTONS is returned in no other case |
| HandlerResults.NotGotIsExplained | netplay/client/event-stream-handler.hpp:361-409 | a failed read consumed whole button events without the key and then its cause; nothing read before the cause is lost |
| HandlerResults.AppliedKeysArePending | netplay/client/event-stream-handler.hpp:389-409 | every key press that went through is pending in its queue, decoded |
| HandlerResults.KeysStopAtFirstRefused | netplay/client/event-stream-handler.hpp:389-409 | key presses enter the queues, decoded, up to the first that is refused, which leaves no trace; the error is INVALID_BUTTONS_MESSAGE if its port is not connected or it does not decode, and REJECTED_BY_QUEUE if the queue refuses it |
| HandlerResults.SecondGetSucceeds | netplay/client/event-stream-handler.hpp:333-351 | for a queue that does not shift, GOT_BUTTONS makes the second get succeed |
| HandlerResults.PutOutcomes | netplay/client/event-stream-handler.hpp:195-268 | the status of any put and what it leaves: a bad batch returns the fault of its first bad tuple and writes nothing, one without local tuples succeeds and writes nothing, and any other makes one write and succeeds if and only if that does |
| HandlerResults.BatchStopsAtFirstCause | netplay/client/event-stream-handler.hpp:199-247 | a batch enters the queues up to the first tuple that causes a failure, and including it for FAILED_TO_ENCODE and INTERNAL_ERROR only |
| HandlerResults.BatchKeysAreWireKeys | netplay/client/event-stream-handler.hpp:216-241 | the outgoing event announces exactly the batch's local tuples, in order, shifted by their delays |
| HandlerRuns.AlwaysClassified | netplay/client/event-stream-handler.hpp:118-175 | after any sequence of starts, puts and gets a queue shifts by its initial delay if its port is local and does not shift otherwise |
| HandlerRuns.InternalErrorIffNegativeDelay | netplay/client/event-stream-handler.hpp:218-232 | some PutButtons can return INTERNAL_ERROR if and only if the queue of some local port has a negative delay |
| HandlerRuns.InternalErrorIsUnreachable | netplay/client/event-stream-handler.hpp:227-232 | no run in which local ports get non-negative delays makes PutButtons return INTERNAL_ERROR |
| HandlerRuns.InternalErrorIsReached | netplay/client/event-stream-handler.hpp:227-232 | a run that does: delay -1 on a local port, and a put of frame 1 |
| HandlerRuns.NegativeDelayIsAnInternalError | netplay/client/event-stream-handler.hpp:218-232 | what such a put leaves behind: the tuple is in the queue and nothing is sent |
| HandlerRuns.LogicErrorIsUnreachable | netplay/client/event-stream-handler.hpp:325-351 | no run takes the branch marked "Probable logic error" |
| HandlerRuns.NoPortsBeforeTheFirstStart | netplay/client/event-stream-handler.h:138-141 | no remote ports as long as no start succeeded, whatever else was called |
| HandlerRuns.FailedRestart | netplay/client/event-stream-handler.hpp:93-125 | exactly when a failed later start leaves no remote ports |
| HandlerRuns.BrokenRestart | netplay/client/event-stream-handler.hpp:93-96 | a failed start after which remote ports are still listed |
| HandlerRuns.RemoteGetSucceedsIff | netplay/client/event-stream-handler.hpp:314-352 | a remote get succeeds if and only if it is for the next frame and that is in the initial delay, pending, or arrives with acceptable events |
| HandlerRuns.RemoteGetDecodesTheKey | netplay/client/event-stream-handler.hpp:335-404 | a frame that had to arrive is handed out as its key decodes; the stream goes on with the next event, and the queues hold everything read but that frame |
| HandlerRuns.UnknownPorts | netplay/client/event-stream-handler.hpp:291-324 | NO_SUCH_PORT if and only if the port has no queue, and then nothing changes |
| HandlerRuns.GetWithoutReading | netplay/client/event-stream-handler.hpp:291-331 | the gets that never touch the stream: the next frame if it is there, and the failures for any other frame and for local ports, which change nothing at all |
| HandlerRuns.FailedRemoteGet | netplay/client/event-stream-handler.hpp:333-351 | a remote get that reads and fails leaves queues and stream as its failed read did, with the cause |
| HandlerRuns.ReadsASuffix | netplay/client/event-stream-handler.hpp:354-421 | reading leaves a suffix of the stream and changes nothing but what is pending: it performs no gets |
| HandlerRuns.PutWrites | netplay/client/event-stream-handler.hpp:249-268 | only a put that succeeds or fails in the write hands keys to the stream |
| HandlerRuns.WireAgreesWithQueues | netplay/client/event-stream-handler.hpp:199-268 | over any run of successful puts, with gets and restarts anywhere in between, the keys written are exactly the local tuples put, in order, each shifted by the delay then in force |
| HandlerRuns.OneGameHasOneShift | netplay/client/event-stream-handler.hpp:218-236 | without a restart the delays never change, and so all tuples of a port are shifted alike |
| RequestOrder.SwapRequests | netplay/client/event-stream-handler.hpp:314-421 | two remote gets that succeed can be swapped without any difference |
| RequestOrder.MissingFramesAgree | netplay/client/event-stream-handler.hpp:354-421 | reading for one missing frame and then another, or the other way round, ends at the same event with the same queues |
| RequestOrder.AnyOrder | netplay/client/event-stream-handler_test.cc:513-558 | any permutation of successful remote gets succeeds with the same buttons, events consumed and queues |
| Lockstep.BatchKeepsTruth | netplay/client/event-stream-handler.hpp:199-247 | a batch, complete or not, leaves queues and keys that agree with what its queued tuples put |
| Lockstep.GetKeepsTruth | netplay/client/event-stream-handler.hpp:273-421 | a get, successful or not, keeps the queues true, and what it hands out is true |
| Lockstep.NextKeepsInv | netplay/client/event-stream-handler.hpp:195-421 | every step of every client and of the relay keeps the invariant, and no put is ever changed by a later one |
| Lockstep.ObtainedIsWhatTheOwnerPut | netplay/integration_tests/integration-tests.cc:223-242 | whatever a client obtains is the default during the delay, and otherwise what the port's owner put that many frames earlier |
| Lockstep.LockstepAgreement | netplay/integration_tests/integration-tests.cc:223-272 | two clients that obtain the same frame of the same port, at any two times of a run, obtain the same buttons |
| GameLoopSteps.FreshReadGets | netplay/client/event-stream-handler.hpp:354-421 | a stream of fresh keys that holds the requested one is read without an error |
| GameLoopSteps.OwnFrameIsThere | netplay/client/event-stream-handler.hpp:291-312 | with non-negative delays a client's own put comes in time for its get |
| GameLoopSteps.PutMoveKeepsInv | netplay/integration_tests/integration-tests.cc:224-224 | putting frame n succeeds, and every open frame is still in exactly one place for every player |
| GameLoopSteps.MoveKeepsInv | netplay/integration_tests/integration-tests.cc:223-242 | every move of the loop and of the relay keeps that invariant |
| Progress.NothingFails | netplay/integration_tests/integration-tests.cc:223-242 | in no reachable state is a put rejected or does a get fail that need not wait |
| Progress.SomeoneCanMove | netplay/client/event-stream-handler.hpp:277-351 | whatever the clients' programs put and in whatever order they ask, the relay or a client that is furthest behind can go on with exactly what its program does next |
| Progress.DeadlockFree | netplay/integration_tests/integration-tests.cc:223-272 | in every reachable state of the loop, for all programs, something can happen |
| Progress.BoundedSkew | netplay/client/input-queue.hpp:99-113 | no client is more than a port's delay plus 1 frames ahead of its owner |
| Progress.BoundedBuffers | netplay/client/input-queue.hpp:45-147 | what a client has not consumed of a port, queued or on its way, is at most the two delays plus 2, and the delay plus 1 for its own ports |
| Progress.EveryGameEnds | netplay/integration_tests/integration-tests.cc:223-272 | every run of n frames of all programs has at most 6nk(4k+1) moves with k clients, and when nothing more can happen all clients are at frame n |
| Progress.OverMeansAllAt | netplay/client/event-stream-handler.hpp:277-351 | the same from any state that satisfies the invariant: a game in which nothing can happen is one in which nobody is behind |
| Progress.EveryFrameIsReached | netplay/integration_tests/integration-tests.cc:223-272 | from every reachable state the programs can be run until all clients are at any given frame |
| Mupen64Plugin.PortsAndNumbers | netplay/client/plugins/mupen64/util.cc:34-52 | the port numbers 0 to 3 and the ports 1 to 4 stand for each other, and nothing else does |
| Mupen64Plugin.PutButtons | netplay/client/plugins/mupen64/plugin-impl.cc:118-144 | a batch with an invalid port number anywhere puts nothing; any other is one put of all its tuples |
| Mupen64Plugin.GetButtons | netplay/client/plugins/mupen64/plugin-impl.cc:149-168 | an invalid port number changes nothing; any other is one get |
| Mupen64Plugin.ResetControllers | netplay/client/plugins/mupen64/plugin-impl.cc:24-31 | all four entries absent |
| Mupen64Plugin.AvailableChannels | netplay/client/plugins/mupen64/plugin-impl.cc:175-182 | the present channels, ascending, each once |
| Mupen64Plugin.AllocateLocalPorts | netplay/client/plugins/mupen64/plugin-impl.cc:196-210 | the two iterators give the k-th port the k-th channel and touch no other entry |
| Mupen64Plugin.OpenRemotePorts | netplay/client/plugins/mupen64/plugin-impl.cc:212-221 | the entries of the remote ports, and no others |
| Mupen64Plugin.PermuteNetplayControllers | netplay/client/plugins/mupen64/plugin-impl.cc:173-224 | succeeds if and only if there are as many channels as local ports; otherwise the table is untouched; channels and local ports are matched by an order-preserving bijection |
| Mupen64Plugin.PermutedIsFaithful | netplay/client/plugins/mupen64/plugin-impl.cc:196-221 | after a first start: Present iff connected, Remote iff connected and not local, Delay the announced one, 0 or -1 for local, remote and absent ports |
| Mupen64Plugin.InitiateNetplay | netplay/client/plugins/mupen64/plugin-impl.cc:21-112 | the table is faithful to the start message if netplay is on and this succeeds, and as it was reset in every other case; Enabled is the configured value |
| Mupen64Coder.RoundTripIffOneBit | netplay/client/plugins/mupen64/coder.cc:3-54 | decoding undoes encoding if and only if every digital button is 0 or 1 and the axes can store their values; encoding undoes decoding if and only if the axes can |
| Mupen64Coder.ButtonsKeepTheirNames | netplay/client/plugins/mupen64/coder.cc:3-54 | each button is encoded in, and decoded from, the flag of the same name |
| Mupen64Coder.PluginGamesArePlayable | netplay/client/plugins/mupen64/coder.cc:3-54 | with this coder, if digital buttons are one bit wide and axes store what is sent, the assumptions of lockstep and progress are about the server only |

## Left out

- gRPC, deadlines, `TryCancel` and `ClientReady`: a stream is a finite script of what its reads answer and a log of its writes, each with the answer it got; a script that has run out answers like a broken stream.
- The server: only the assumptions above.
- Timings, clocks, logging, and the handler's `status_`, which is assigned in the constructor and never again.
- `client.hpp`, `host-utils.cc`, configuration, console prompts, library loading and the emulator's entry points.
- Mupen64Plugin.InitiateNetplay: everything between the raw-data check and waiting for the start (prompts, requested ports, PlugControllers, ClientReady) is one answer, `connected`, because it consists of the calls just named.
- Integer width: frames and delays are mathematical integers, so overflow of frame + delay is not modelled.
- Timeouts: in `QueueThreads` a timed wait may give up at any time while asleep; the sequential queue gives up at once on an absent frame.
- `QueueThreads` takes each locked section of a put or get as one step; the code makes them atomic by the mutex.
- The queues are not shared between threads in `EventStreamHandler`: one caller at a time.
- A get that has to wait is made in `GameLoop` when the event it waits for is there; the events it reads meanwhile are read at that moment.
- Mupen64Plugin.PermuteNetplayControllers: ports other than 1 to 4 are excluded, because the code would then index the table with -1; the order of the port enumerators is taken from their names.
- The coder sees only the button fields of a key, not its console, port and frame, which the source passes along and no coder in it reads.
- Unknown enumerator values that protocol buffers would let through as ports.
- Mupen64Coder.PluginGamesArePlayable: the layout and field widths of BUTTONS are assumptions, because its header is not part of the repository.
