# A model of the Pi cluster: master, workers, interface

The cluster is three programs. An *interface* submits executables; the *master* accepts
connections, hands each executable to the least loaded *worker*, and passes the workers' output
back to the interface. All of them speak one message format (a header line, an eight-byte size, a
payload) over sockets that may deliver any number of bytes at a time. The master keeps a ledger of
which worker holds which job, learns from UDP heartbeats which workers are alive, and redistributes
the jobs of those that fall silent. The workers run jobs in a pool of threads joined by blocking
queues, and a growable array holds the master's lists.

The project models that code in Dafny and proves its central properties, for every input, every
schedule and every run. `dafny verify dfyconfig.toml` checks all of it.

How it is laid out:

| file | subject |
|---|---|
| `Options.dfy` | a value that may be missing |
| `WireFormat.dfy` | headers and sizes: printing, reading, round trips |
| `FrameParser.dfy` | the master's resumable parser as a byte automaton, and one-shot reading of the same stream |
| `Transfers.dfy` | the short-transfer loops, over a `Stream` whose system answers every call as it likes |
| `Connections.dfy` | the parsing half of the master's `worker` record, updated in place; `do_put` |
| `WorkerProtocol.dfy`, `InterfaceProtocol.dfy` | the other two readers and printers of the format |
| `Scheduling.dfy`, `Recovery.dfy` | the ledger: `schedule`, `scheduler_remove_task`, `reschedule`, `checkOnNodes` |
| `Detector.dfy` | the failure detector over whole histories of one worker |
| `MasterModel.dfy` | the master as a transition system over bytes, heartbeats and scans |
| `MasterInvariants.dfy`, `Isolation.dfy`, `Relay.dfy`, `Surveillance.dfy`, `Bookkeeping.dfy` | what holds in every run of it |
| `Handouts.dfy`, `Completion.dfy` | which worker each job of a list goes to, what is sent with it, and when a run of jobs is completed |
| `Effects.dfy` | what single events leave in the records, and what that means for the events after them |
| `EmptyMessages.dfy`, `Interference.dfy` | what an empty message and a name in use twice lead to |
| `MasterSteps.dfy`, `Masters.dfy` | the functions of master.c as methods of a class, proved to perform exactly those steps |
| `EventLoop.dfy` | `handle_data` called until a connection is drained, and what has then been written where |
| `RoundTrip.dfy` | a run of jobs and their results through all the programs, each reading what the one before it wrote |
| `QueueMonitor.dfy`, `LinkedQueue.dfy`, `WorkerPipeline.dfy` | the blocking queue, its linked list, and the worker's threads |
| `WorkerShutdown.dfy` | when the shutdown of a worker completes, when it hangs, and which results have been sent by then |
| `QueueRefinement.dfy` | how those three fit together |
| `Vectors.dfy` | the growable array and the cost of its growth |

Reading order for the master: `FrameParser` says what a stream of bytes means; `MasterModel` says
what each byte does to the whole master; `Connections` and `Masters` show that the code, reading
whatever pieces the socket gives it, does just that (`Master.HandleEvent`), and `EventLoop` that
the calls until nothing is left come to one reading of the whole stream (`Drain`); the invariant
modules then speak about the model.

## Where the code falls short of its intent

The model follows the code. Where a property one would expect is false, the condition under which
it holds is proved, in both directions, or a run is given in which it fails.

- `reschedule` erases rising positions from a list that shrinks: in range exactly for lists of at
  most one job (`EraseLoopInRangeIff`, `RescheduleIsMeantIff`). A scan completes exactly when each
  silent worker has at most one job when its turn comes (`ScanCompletesIff`); one job each
  beforehand is not enough, because a silent worker can be handed another's job first
  (`TwoFailuresBreakTheScan`). The scan as it is meant is the event `Redistribute` of the model, so
  conservation and the failure detector are proved for runs with any number of jobs.
- `reschedule` opens the file of a job with O_TRUNC before it sends it, so a rescued job reaches its
  new worker empty (`RescuedEmpty`, `RescheduleWorker`), and a connection that is storing a file of
  that name loses what it has stored (`ScanSparesIff`). The documentation of the scheduler
  (master.h:70-80) says it manipulates no files.
- An answer completes the first job of its name on the worker's list, so with a name in use twice an
  older job can be completed in place of the one that was run (`RunIsCompleted`, `OldNamesAreMissed`).
- `vector_resize` to 0 clears nothing, because `n - 1` wraps (`Vector.Resize`).
- `get_new_capacity` never returns for targets above 2^63 (`GrowthStopsIffRepresentable`).
- A header of 1024 bytes or more leaves the command buffer; one of at most 1023 never does
  (`HeaderFitsIff`). The code's own limit, 1025, is never reached inside the buffer.
- An announced size of zero marks its sender dead. A worker's empty result is held back, and nothing
  behind it read, until a heartbeat of that worker arrives; the next event then passes it on
  (`EmptyMutesWorker`, `MutedThroughout`, `BeatDelivers`). An empty job from the interface is
  submitted, and then the master accepts no job from anybody for the rest of the run, because no
  heartbeat revives an interface and none can replace it (`EmptyFromInterface`,
  `InterfaceIsStuckForGood`).
- Two connections in the middle of the same file name overwrite each other (`SameNameInterferes`, a
  run from the start); with distinct names they do not (`NonInterference`).
- A worker that is shut down, or whose master closes, in the middle of a request never exits: the
  loop in `read_file_from_socket` takes empty reads for progress, and its main thread never comes to
  the end markers (`InterruptedReceipt`, `DoomedForGood`). A shutdown by signal completes exactly
  when no body with bytes yet to arrive is being received (`SignalExitsIff`), one by the master's
  closing exactly when what had arrived ends where a request ends (`HangUpExitsIff`).
- A worker closes its socket before it waits for the threads that still work, and a signal shuts it
  down before that, so only what was sent by then is sent at all (`SentIffBeforeShut`); besides,
  the end marker of the result queue does not wait for the tasking threads (`SentIffTimely`,
  `ResultCanBeLost`).
- The interface's header loop ignores the result of `read`, so an interrupted call doubles a byte
  (`InlineCapturesIff`, `InterruptedReadDoublesAByte`), and its size loop likewise
  (`StoredExactlyIff`).
- The worker's file loop does not end when the master closes early (`FileReadEnds`,
  `ReadFileFromSocket`), and a size cut short leaves the announced size to chance (`ReadFile`).
- The interface goes on after a write that fails for good, so a request can go out with holes in it
  (`Submit`).
- After a recovery pass an erased worker's socket is still polled but has no record
  (`PassLeavesStray`); without one, every event finds its own record (`EventFindsItsRecord`).

## Model

| member | source | states |
|---|---|---|
| `Vectors.GetNewCapacity` | vector.c:6-12 | for targets up to 2^63 the doubling loop ends with the least power of two that is at least the target |
| `Vectors.GrowthStopsIffRepresentable` | vector.c:6-12 | in wrap-around size_t arithmetic the loop can stop if and only if the target is at most 2^63 |
| `Vectors.Memmove` | vector.c:126-151 | an overlapping move in one block gives the destination the old source and changes nothing else |
| `Vectors.OpenGap` | vector.c:130-135 | the insertion proper splices the element in at its position and touches no slot past the new end |
| `Vectors.CloseGap` | vector.c:144-149 | the erasure proper splices the element out, leaves NULL in the freed slot and touches nothing past it |
| `Vectors.ClearDownTo` | vector.c:53-58 | the clearing loop clears the slots from n up if n > 0, and no slot at all if n is 0 |
| `Vectors.Vector.constructor` | vector.c:14-27 | a new vector is empty, has capacity 10, and every slot is NULL |
| `Vectors.Vector.Reserve` | vector.c:78-87 | contents are kept; capacity changes only if too small, then to the least sufficient power of two, copying the old slots once |
| `Vectors.Vector.Get` | vector.c:98-100 | reads the element of the sequence |
| `Vectors.Vector.Set` | vector.c:93-96 | updates the sequence at one position |
| `Vectors.Vector.PushBack` | vector.c:110-117 | appends to the sequence, growing as one step of the cost model |
| `Vectors.Vector.PopBack` | vector.c:119-124 | drops the last element if there is one and leaves NULL in its slot |
| `Vectors.Vector.Insert` | vector.c:126-137 | inserts into the sequence, slots past the end staying NULL |
| `Vectors.Vector.Erase` | vector.c:139-151 | removes from the sequence, slots past the end staying NULL |
| `Vectors.Vector.Clear` | vector.c:153-159 | empties the sequence, leaving only NULL behind |
| `Vectors.Vector.Resize` | vector.c:51-68 | truncates or pads the sequence; the slots past the end are NULL afterwards if and only if n > 0 or all elements were NULL |
| `Vectors.PushKeepsSettled` | vector.c:110-117 | capacity stays 10 or a power of two below twice the size, and slots copied so far plus six equal it |
| `Vectors.GrowthIsAmortised` | vector.c:78-117 | n pushes on a new vector copy fewer than 2n slots in all, and capacity is always 10 or a power of two |
| `LinkedQueue.Queue.constructor` | queue.c:4-15 | a new queue is empty |
| `LinkedQueue.Queue.Push` | queue.c:35-48 | appends the item, stays within max_size, and broadcasts exactly when the list was empty |
| `LinkedQueue.Queue.Pull` | queue.c:57-67 | takes the first item, frees exactly the first node, and broadcasts exactly when the list was full |
| `LinkedQueue.Queue.Destroy` | queue.c:17-28 | hands the rest to the destructor: pushed = pulled followed by destroyed, and every node ever made was freed, in order |
| `LinkedQueue.NoDoubleFree` | queue.c:17-64 | no node is freed twice |
| `QueueRefinement.PushStep` | queue.c:35-48 | the linked list carries out the monitor's step for a push, broadcast included |
| `QueueRefinement.PullStep` | queue.c:57-67 | and its step for a pull |
| `QueueRefinement.SameTests` | queue.c:32-56 | the wait loops of the list let a thread through exactly when the monitor's do |
| `QueueRefinement.RunIsSequential` | queue.c:30-70 | linearisability: after every interleaving the list is what the operations that took effect make of it one after the other, none of which would have had to wait |
| `QueueRefinement.StepsAreOperations` | worker.c:76-167 | each step of the worker's threads is a single such operation on each of the two queues, or none |
| `QueueRefinement.SubmitWaitsIff` | worker.c:86-149 | main and tasking threads wait exactly while the monitor would make them |
| `QueueMonitor.StepKeepsInv` | queue.c:30-70 | every step of every thread keeps mutual exclusion, FIFO order and bound, and a reason for every sleeper |
| `QueueMonitor.RunKeepsInv` | queue.c:30-70 | so does every interleaving |
| `QueueMonitor.NoLostWakeup` | queue.c:30-70 | with the mutex free, a sleeping consumer implies an empty list and a sleeping producer a full one; what was pulled is what was pushed first |
| `QueueMonitor.OneThreadInside` | queue.c:30-70 | at most one thread is in the critical section |
| `QueueMonitor.RestMeansOneKind` | queue.c:30-70 | at rest all sleepers are consumers of an empty list or all are producers of a full one |
| `QueueMonitor.CallsAreCarriedOut` | queue.c:30-70 | in every run each thread's operations take effect in the order it calls for them, each once and as called for, however often it is woken; only the last may still be under way |
| `QueueMonitor.RunsComeToRest` | queue.c:30-70 | with no new calls and no spurious wakeups the threads come to rest: no run is longer than their weight, which waking everybody is part of |
| `QueueMonitor.SomeThreadIsOnItsWay` | queue.c:30-70 | until each has returned or sleeps in the wait set, some thread can go on |
| `WorkerPipeline.StepKeepsInv` | worker.c:56-167 | every step of main, tasking and sending threads keeps the queues' contents tied to what was accepted, started, finished and sent |
| `WorkerPipeline.RunKeepsInv` | worker.c:56-167 | so does every run |
| `WorkerPipeline.SomeThreadCanMove` | worker.c:56-167 | no deadlock: until the process has exited, and while the main thread does not wait for input, some thread can get on, at capacity 15 too |
| `WorkerPipeline.MainCanMove` | worker.c:56-86 | while lines and bytes come, the main thread itself gets on with its requests |
| `WorkerPipeline.StepShrinks` | worker.c:56-167 | every step but a round that reads nothing lowers a measure of the work left |
| `WorkerPipeline.RunsAreBounded` | worker.c:56-167 | no run has more steps than that measure, rounds that read nothing aside |
| `WorkerShutdown.DoomedForGood` | worker.c:283-299 | a main thread receiving a body that will not arrive in full stays there, whatever else happens |
| `WorkerShutdown.InterruptedReceipt` | worker.c:27-99 | after a signal while the first request is being received no end marker is ever pushed, in any run |
| `WorkerShutdown.ShutdownCompletesIff` | worker.c:56-102 | a run that comes to rest after a signal or the master's closing has exited iff it is not in such a receipt; then each accepted job was started once, in order, and finished, and all five tasking threads and the sending one have stopped |
| `WorkerShutdown.SignalExitsIff` | worker.c:27-98 | after a signal that happens iff, when it came, the main thread was not receiving a body of which some had yet to arrive |
| `WorkerShutdown.HangUpExitsIff` | worker.c:56-98 | when the master closes, without a signal, iff what had arrived by then ends where a request ends |
| `WorkerPipeline.MarkersComeLast` | worker.c:76-97 | in every reachable state jobs precede end markers, no thread stops before every accepted job was started, and at most 15 entries wait |
| `WorkerPipeline.AcceptedAsAsked` | worker.c:56-86 | in every run the jobs accepted, the one in hand and those not taken up yet are what the master asks for, in its order |
| `WorkerShutdown.SentIffBeforeShut` | worker.c:27-98 | every run that exits shuts the socket before it pushes a marker; what is sent is what had been sent by then, a first part of the results in order; nothing is lost iff at that moment every accepted job had been sent and no other was being received or pushed |
| `WorkerShutdown.SentIffTimely` | worker.c:98-102 | when the sending thread never fails, exactly the results pushed before the end marker are sent, in order; none is lost iff all had finished by then |
| `WorkerShutdown.ResultCanBeLost` | worker.c:98-102 | a run in which an accepted and executed job's result is never sent |
| `WireFormat.DecodeEncode` | master.c:449-477 | reading back the k bytes of a size gives the size |
| `WireFormat.EncodeDecode` | worker.c:219-221 | and writing back a size read from bytes gives the bytes |
| `WireFormat.SetByteIs` | interface.c:26-29 | storing through a char pointer replaces exactly one byte of the variable |
| `WireFormat.AssembledBytes` | interface.c:26-29 | after i stores the variable holds the first i new bytes and the old ones behind them |
| `WireFormat.SizeRoundTrip` | interface.c:25-29 | eight in-place stores recover every size below 2^64, whatever the variable held before |
| `WireFormat.HeaderRoundTrip` | master.c:510-532 | for every non-empty name without NUL or newline, spaces included, the master recovers verb and name from the header |
| `WireFormat.ParsedIff` | master.c:510-532 | a line is a header iff it is a word that starts with the letters of a verb, a space and at least one more byte; the name is all that follows the first space |
| `FrameParser.ReceiveInTwo` | master.c:210-305 | cutting a stream in two makes no difference to a connection |
| `FrameParser.ChunksFlatten` | master.c:210-305 | nor does cutting it into any number of pieces |
| `FrameParser.ResumableIsOneShot` | master.c:210-305 | for every stream whatever, reading byte by byte ends in the same messages and state as splitting the whole stream at once |
| `FrameParser.MessageIsRead` | master.c:210-305 | one printed message, whatever its verb, is read back as it was and leaves the parser fresh |
| `FrameParser.StreamIsRead` | master.c:210-305 | a run of printed messages is read as exactly those messages |
| `FrameParser.HeaderFitsIff` | master.c:499-507 | a header stays inside its buffer if and only if it has at most 1023 bytes |
| `FrameParser.EmptyPayloadSilences` | master.c:259-263 | after an announced size of zero none of the bytes behind it is looked at, as far as the connection alone can tell |
| `Transfers.ReadFromSocket` | worker.c:305-325 | for every schedule of partial counts and EINTR: exactly the next bytes, all of them if they come |
| `Transfers.WriteToSocket` | worker.c:254-274 | a first part of the data goes out, the whole of it unless a call fails |
| `Transfers.WriteAllToSocket` | master.c:563-581 | the same, and a full socket buffer does not make it fail |
| `Transfers.MyWrite` | interface.c:193-207 | a first part of the data goes out, the whole of it unless a call fails |
| `Transfers.MyRead` | interface.c:209-223 | exactly the next bytes, all of them if they come |
| `Transfers.ReadFileFromSocket` | worker.c:276-303 | a file of any length arrives unchanged through 4096-byte chunks, a first part of it with an error, or a first part of it and a loop without end exactly when the peer closes early |
| `Transfers.FileReadEnds` | worker.c:283-299 | the chunk loop ends if and only if the peer sends all it announced |
| `Transfers.WriteFileToSocket` | worker.c:223-252 | as many bytes go out as announced unless a write fails, and never more; while writes move something they are a first part of the file, all of it unless one fails |
| `Transfers.WriteAllFromSocketToFd` | interface.c:131-154 | exactly `size` bytes are copied, or all there are, never more than asked for |
| `Transfers.WriteBinaryData` | interface.c:169-178 | the whole file is read; what goes out is a first part of each of its blocks, one after another, and the whole of each while writes do not fail |
| `Transfers.SendBlock` | interface.c:171-176 | one block is read and a first part of it goes out, all of it unless a write fails |
| `WorkerProtocol.AllocateBuffer` | worker.c:361-363 | a larger buffer starts with the old one's bytes |
| `WorkerProtocol.ReadLineFromSocket` | worker.c:334-359 | exactly the next line with its newline, whatever its length, and nothing past it |
| `WorkerProtocol.GetFilenameFromHeader` | worker.c:206-215 | a name comes back if and only if the header has room for one, and it has no NUL |
| `WorkerProtocol.WorkerReadsHeader` | worker.c:171-215 | the name is recovered from the printed header |
| `WorkerProtocol.LineAsHeader` | worker.c:71-80 | which whole lines the request loop takes for a request, and the name it finds in them |
| `WorkerProtocol.NameInLine` | worker.c:71-80 | the tests of the loop on its buffer decide just that, for a line that the peer cut short, too |
| `WorkerProtocol.ReadFile` | worker.c:187-204 | the payload is stored, or the wait for it never ends, exactly as enough bytes come or not; after a size cut short nothing is stored, and it may end either way |
| `WorkerProtocol.ReceiveRequest` | worker.c:58-86 | unless a read fails, a round of the request loop ends in what the line it starts at, whole or cut short, calls for: its name and payload, a refusal, or a wait without end |
| `WorkerProtocol.ReceiveBody` | worker.c:187-204 | from a request line on: its payload under its name, or a wait without end |
| `WorkerProtocol.WorkerReadsFrame` | worker.c:58-86 | wherever a printed message lies in the input, that round finds its name, payload and end |
| `WorkerProtocol.SendResult` | worker.c:120-140 | no more than the printed message goes out for a result, and nothing but a first part of it while writes move something; all of it unless one fails |
| `InterfaceProtocol.Submit` | interface.c:89-102 | for a name that fits the request buffer, what goes out for a file is its printed message under INTERFACE_PUT; where writes fail, a first part of the header, of the size and of each block |
| `InterfaceProtocol.InlineCapturesIff` | interface.c:14-23 | the header loop captures the header line if and only if no call up to the newline comes back empty-handed; then it stops right behind it |
| `InterfaceProtocol.InterruptedReadDoublesAByte` | interface.c:14-23 | a concrete script in which one EINTR corrupts the header |
| `InterfaceProtocol.ReadHeader` | interface.c:14-23 | for every script, the loop leaves in its buffer, and consumes, what `Inline` says, and stays inside the buffer iff that is finite and fits |
| `InterfaceProtocol.StoreBytes` | interface.c:25-29 | for every script, the size loop assembles the bytes that `Stored` says over the old value |
| `InterfaceProtocol.StoredExactlyIff` | interface.c:25-29 | those are the next bytes, and no others are consumed, iff each call brings one |
| `InterfaceProtocol.ReadSize` | interface.c:25-29 | where the eight bytes of a size come uninterrupted, it is read, whatever the variable held before |
| `InterfaceProtocol.InterfaceReadsFrame` | interface.c:13-33 | a message printed by the master has the parts the interface looks for, wherever it lies |
| `InterfaceProtocol.HeaderCaptured` | interface.c:14-23 | its header line is captured whole |
| `InterfaceProtocol.ShowResult` | interface.c:13-33 | while no call for header or size is interrupted, exactly the payload reaches the terminal and the next message is left unread |
| `Scheduling.Best` | master.c:610-626 | the first live worker of least load, if that is under the cap; none iff no live worker is under it |
| `Scheduling.BestIsUnique` | master.c:610-626 | that choice is determined by its description |
| `Scheduling.NextGetsTheJob` | master.c:610-636 | in the record's own terms: a worker gets the job, at the end of its list, iff it is alive, ten times its CPU usage plus its jobs is under 1e8, no greater than any live worker's and less than that of the live ones before it; all else is unchanged, the job is pending iff no live worker is under 1e8, and the descriptor returned is the worker's, or -1 |
| `Scheduling.ScheduleAddsOne` | master.c:606-637 | the job is in exactly one more place and every other job where it was as often |
| `Scheduling.ScheduleAllAdds` | master.c:606-637 | the same for a list of jobs |
| `Scheduling.ScheduleAllGrows` | master.c:627-633 | over any list of jobs, workers' lists only grow, at the end, those of dead ones not at all |
| `Scheduling.PendingMeansNoneEligible` | master.c:627-632 | a job is left pending if and only if no worker is eligible |
| `Scheduling.NoneEligibleAll` | master.c:627-632 | then all of a list of jobs are left pending, in order |
| `Scheduling.ScheduleKeepsBalance` | master.c:606-637 | a worker given a job has load at most one above every live worker |
| `Scheduling.RunIsBalanced` | master.c:606-637 | that holds over any number of calls |
| `Scheduling.GreedyIsOptimal` | master.c:606-637 | when k jobs all find a worker, whatever bound on ten times the CPU usage plus the jobs another distribution of k jobs over the live workers keeps to, this one keeps to |
| `Scheduling.RoomForAll` | master.c:611-626 | all of k jobs find a worker if one live worker would stay under 1e8 with k - 1 of them |
| `Recovery.RemovalTakesOne` | master.c:659-690 | a matched answer removes exactly one job of that name, an unmatched one nothing |
| `Recovery.EraseLoopInRangeIff` | master.c:654-656 | the erasing loop stays in the list if and only if it has at most one job, and then empties it |
| `Recovery.HandingOut` | master.c:639-653 | none of a dead worker's jobs comes back to it, each goes to exactly one place, other workers' jobs stay first and in order |
| `Recovery.RescheduleIsMeantIff` | master.c:639-657 | reschedule does what is meant, emptying the list, if and only if it had at most one job |
| `Recovery.RescheduleConservesIff` | master.c:639-657 | reschedule completes if and only if there was at most one job, and then loses and doubles none |
| `Recovery.SweepConserves` | master.c:143-158 | the loop over dead workers loses and doubles no job |
| `Recovery.SweepKeepsLive` | master.c:143-158 | it leaves exactly the live workers, in order, with more to do |
| `Recovery.RetryConserves` | master.c:161-169 | the loop over pending jobs loses and doubles no job |
| `Recovery.RetryPlaces` | master.c:161-169 | afterwards jobs are pending only if no worker is eligible |
| `Recovery.RetryReverses` | master.c:161-169 | with no eligible worker that loop reverses the list |
| `Recovery.RecoveryPass` | master.c:140-170 | no dead worker is left, the live keep their jobs, no job is lost or doubled, and a job is pending only if no worker is eligible |
| `Recovery.SweepWithoutTakers` | master.c:143-158 | with no eligible worker the orphans go behind the pending jobs, in the order the loop meets them |
| `Recovery.PassWithoutTakersReverses` | master.c:140-170 | with no eligible worker a pass exactly reverses pending jobs and orphans |
| `Detector.LastBeat` | master.c:744-749 | the last beat that no reset has wiped out, none iff there is none |
| `Detector.RecordIsLastBeat` | master.c:74-90 | the record's time is that beat's, or zero |
| `Detector.DeclaredIff` | master.c:763-771 | a scan declares a worker dead iff it is held alive, some beat is remembered and all remembered ones are over three seconds old |
| `Detector.RegularWorkerStaysAlive` | master.c:725-779 | a worker with a beat in the three seconds before each scan is never declared, resets or not, and stays alive unless its connection fails |
| `Detector.PunctualIsRegular` | master.c:725-779 | beats at most three seconds apart, the last one included, are in time for every scan |
| `Detector.UndeclaredRecord` | master.c:760-774 | until it is declared a silent worker's record stays that of its last beat |
| `Detector.SilentWorkerIsDeclared` | master.c:752-779 | a silent worker is declared by its last beat + 3 seconds + the largest gap between scans, and stays dead |
| `MasterModel.DigestInTwo` | master.c:210-305 | a connection's bytes affect the whole master alike however they are grouped |
| `MasterModel.RescuedEmpty` | master.c:643-650 | each job of a list that reschedule hands out is sent to the worker best for it when its turn comes; it is sent as it was stored iff it was stored empty |
| `Handouts.OneGiven` | master.c:606-636 | scheduling a job appends it to the list of the worker whose descriptor is returned, or to the pending list when that is -1, and changes nothing else |
| `Handouts.ListsGrowBy` | master.c:606-636 | so for a list of jobs: each list grows by the jobs that went to its worker, in order, the pending one by those that went nowhere |
| `Handouts.GivenAll` | master.c:606-636 | if all of a list of jobs go to workers of ws, between them these are given each job once |
| `Handouts.ScanSendsWhatItGives` | master.c:643-774 | a scan that completes sends each worker it does not find silent exactly the jobs it adds to that worker's list, in that order, under their names and without content; those it leaves pending go nowhere |
| `Effects.BeatRecords` | master.c:725-750 | after a beat the first worker at the address has exactly the load and time reported and is alive, its descriptor, address and jobs as they were; nothing else has changed, and nothing at all for an unknown address |
| `Effects.BeatSteersTheNextJob` | master.c:606-750 | the load just reported decides whether that worker gets the next job |
| `Effects.AcceptRecords` | master.c:92-105 | a new connection is the last worker: alive, load -1, no beat, no jobs, its parser fresh; nothing else has changed |
| `Effects.NewWorkerComesFirst` | master.c:92-636 | it gets the next job before every worker that has reported a load |
| `Effects.HeaderFailLoses` | master.c:243-252 | a failed header ends its connection's life only; it ends the role of the interface iff that was the connection, and changes nothing else |
| `Effects.FailedReadLoses` | master.c:243-252 | that is what a read that fails before or inside a header comes to |
| `Effects.BadLineLoses` | master.c:243-535 | and a line that is no header, whatever follows it |
| `Effects.FailedReadElsewhere` | master.c:268-280 | a read that fails inside a payload keeps the bytes before it and costs the connection neither its life nor its role |
| `Effects.RoleIsTaken` | master.c:233-287 | while there is no interface, a live worker that sends a run of jobs becomes it, and its jobs are submitted and scheduled |
| `Effects.QuitMakesRoom` | master.c:210-305 | so when the interface quits between messages or in a header, the next to submit takes its place |
| `MasterInvariants.ChosenIsFound` | master.c:606-637 | with distinct descriptors, looking up the descriptor `schedule` returns finds the chosen worker |
| `MasterInvariants.AdoptedIsAWorker` | master.c:233-241 | the sender of the first INTERFACE_PUT is in worker_list where the code erases it |
| `MasterInvariants.DeliverKeepsRoles` | master.c:281-304 | passing a message on keeps the roles and routes it rightly |
| `MasterInvariants.HandleDataKeepsRoles` | master.c:210-305 | so does every call of handle_data |
| `MasterInvariants.RecoverKeepsRoles` | master.c:140-170 | so does a recovery pass |
| `MasterInvariants.StepKeepsRouting` | master.c:117-305 | so does every event |
| `MasterInvariants.RoutingHolds` | master.c:117-305 | and every run from a state in which the invariant holds |
| `MasterInvariants.RoutingFromStart` | master.c:210-305 | in every reachable state descriptors are distinct, the interface is no worker, its jobs never go back to it, all else goes to it |
| `MasterInvariants.AdoptKeepsPlaces` | master.c:233-241 | adoption moves the jobs a connection held but loses none |
| `MasterInvariants.SubmitAddsOne` | master.c:284-287 | a submission puts exactly one new job in exactly one place |
| `MasterInvariants.AnswerKeepsPlaces` | master.c:289-294 | an answer moves at most one job to the completed ones and loses none |
| `MasterInvariants.ScanConserves` | master.c:752-779 | a scan that completes loses and doubles no job |
| `MasterInvariants.IntendedConserves` | master.c:752-779 | nor does a scan as it is meant, however many jobs the silent workers had |
| `MasterInvariants.StepConserves` | master.c:140-779 | every event keeps each submitted job in exactly one place |
| `MasterInvariants.RunConserves` | master.c:140-779 | so does every run |
| `MasterInvariants.EveryJobInOnePlace` | master.c:140-779 | from the start, in runs with scans as coded and as meant: each submitted job is on one list, pending, completed or on an interface's record, once, and nothing else is |
| `Isolation.DigestFrame` | master.c:210-305 | a byte on one connection changes nothing another can see but the file its own message names |
| `Isolation.DigestElsewhere` | master.c:210-305 | and leaves a connection with another file name alone |
| `Isolation.DigestHere` | master.c:210-305 | and does to its own connection what it would do to it alone |
| `Isolation.ScanSparesIff` | master.c:644-649 | over a scan a connection keeps the bytes it has stored iff it has stored none or no job that the scan reschedules bears the name of its file |
| `Isolation.NonInterference` | master.c:210-305 | under any interleaving of bytes, failed reads, heartbeats, scans, recovery passes and new connections over distinct in-flight names, a connection whose life and file in flight the heartbeats do not touch stands, and its messages were passed on, as if it were alone |
| `Interference.SameNameInterferes` | master.c:407-443 | a run from the start in which two connections use one name and what is passed on for the first is not what it sent |
| `Interference.AnnouncementTruncates` | master.c:407-416 | announcing a payload empties the file of that name |
| `MasterSteps.HeaderEnds` | master.c:480-535 | a header consumed in one stretch does what its bytes do one by one |
| `MasterSteps.SizeEnds` | master.c:449-477 | so does a size |
| `MasterSteps.PayloadEnds` | master.c:412-446 | so does a payload |
| `MasterSteps.TerminatedLine` | master.c:74-77 | a header in a cleared buffer reads as that header |
| `MasterSteps.DecodeAppended` | master.c:470-475 | storing the next byte of a size in place decodes one byte more |
| `Connections.Connection.constructor` | master.c:92-105 | a new connection's parser is fresh |
| `Connections.Connection.Reset` | master.c:74-90 | after a reset every command byte is zero and the parser is as new |
| `Connections.Connection.ReadSome` | master.c:485-498 | one read: bytes in order, try again, stop, or fail, exactly as return value and errno say |
| `Connections.Connection.ReadHeader` | master.c:485-508 | header bytes are kept up to a newline, a pause, a failed read or the end of the buffer, and it is the failed read iff the last call failed; the rest stays zero |
| `Connections.Connection.ParseCommand` | master.c:510-534 | verb and name are found in a complete line exactly when ParseHeader finds them |
| `Connections.Connection.GetCommand` | master.c:480-535 | resuming or not, what the call consumed extends the line, and completes it exactly as ParseHeader says; without a newline it fails iff the last call failed |
| `Connections.Connection.StoreSizeByte` | master.c:470-475 | the size variable holds what the bytes so far decode to |
| `Connections.Connection.GetSize` | master.c:449-477 | resuming or not, eight bytes in all are taken and decoded; it fails iff the last call failed |
| `Connections.Connection.WriteBlock` | master.c:437-442 | the block lands behind the data already stored |
| `Connections.Connection.FillSome` | master.c:422-442 | a round reads a block and stores it, or changes nothing |
| `Connections.Connection.Fill` | master.c:422-445 | the loop stores what it consumed and never reads past the announced size; it fails iff the last call failed |
| `Connections.Connection.GetBinaryData` | master.c:412-446 | resuming or not, the file ends up with the bytes consumed, done means all of them, and it fails iff the last call failed |
| `Connections.DoPut` | master.c:336-390 | nothing but a first part of the printed message goes out, all of it if the socket does not fail |
| `Connections.SendContent` | master.c:357-389 | the file goes out unchanged through 4096-byte chunks |
| `Masters.Master.constructor` | master.c:48-52 | the master starts with no workers, no jobs and no interface |
| `Masters.Master.AcceptConnection` | master.c:195-197 | a new connection is the last worker, alive and with no jobs, as AcceptRecords has it |
| `Masters.Master.FindWorkerPos` | master.c:117-128 | the position of the first worker on a descriptor, -1 if none |
| `Masters.Master.ScheduleTask` | master.c:606-637 | the running minimum finds the best worker; the ledger and the returned descriptor are as specified, by CPU usage and jobs as NextGetsTheJob has it |
| `Masters.Master.SchedulerRemoveTask` | master.c:659-690 | the ledger after an answer is as specified |
| `Masters.Master.HandOut` | master.c:150-155 | one call of schedule per job, in order |
| `Masters.Master.Rescue` | master.c:643-653 | one call of schedule per job, in order; their files are emptied, and what goes out on each descriptor is the empty files of the jobs scheduled there |
| `Masters.Master.RescheduleWorker` | master.c:639-657 | that, and then rising positions are erased, reporting when that leaves the list |
| `Masters.Master.SweepNodes` | master.c:143-158 | the loop over dead workers, over lists that change under it, ends in the specified ledger |
| `Masters.Master.RetryPending` | master.c:161-169 | and the loop over pending jobs |
| `Masters.Master.CheckNodes` | master.c:140-170 | both together |
| `Masters.Master.ReportBeat` | master.c:725-750 | the loop does what BeatRecords says of a beat: load, time and alive flag of the first worker at the address |
| `Masters.Master.ScanOnce` | master.c:756-774 | a scan over the workers: the ledger as specified, the files of the jobs it reschedules emptied, and these sent, empty, to their new workers and nothing else anywhere |
| `Masters.Master.Lookup` | master.c:212-219 | finds the record of a descriptor, worker or interface |
| `Masters.Master.MarkDead` | master.c:245-261 | clears the alive flag of that record only |
| `Masters.Master.FailHeader` | master.c:243-252 | a failed header ends the connection's life and, for the interface, its role, as HeaderFailLoses has it |
| `Masters.Master.AdoptInterface` | master.c:233-241 | the sender becomes the interface and leaves the workers |
| `Masters.Master.Listens` | master.c:212-224 | whether a connection still counts as alive |
| `Masters.Master.AcceptHeader` | master.c:230-242 | a complete header names the message, and may make its sender the interface |
| `Masters.Master.RejectHeader` | master.c:243-252 | a header that cannot be had ends the connection's life, iff by a failed read or by what it says |
| `Masters.Master.HeaderStage` | master.c:225-253 | the START block does what the bytes it consumed do one by one, and gives the connection up for a failed read iff the last call failed |
| `Masters.Master.SizeStage` | master.c:254-267 | the NEED_SIZE block decodes the size and kills the connection iff it is zero |
| `Masters.Master.DataStage` | master.c:268-280 | the RECIEVING_DATA block stores what it consumed |
| `Masters.Master.SubmitStage` | master.c:284-287 | a job from the interface is entered once and scheduled |
| `Masters.Master.AnswerStage` | master.c:289-294 | a result takes its job off the list, as AnswerTakes has it, and is bound for the interface |
| `Masters.Master.ResetRecord` | master.c:300-303 | the parser is fresh and the last beat forgotten, as ForgottenIs has it |
| `Masters.Master.ForwardStage` | master.c:281-305 | a complete message is passed on once, as printed, to where it belongs |
| `Masters.Master.Fetch` | master.c:225-280 | the reading blocks, from whichever the connection is at, do what the bytes consumed do one by one, and count as failed iff the last read of a header failed |
| `Masters.Master.HandleEvent` | master.c:210-305 | whatever pieces come, master and connection end as the bytes consumed say, failing iff the last read of a header did; at most one message is passed on, as printed, and nothing past it read; each call at a reading block reads |
| `Masters.Master.SentIsPrinted` | master.c:297-303 | a call adds to what went out on each descriptor, since any earlier moment, exactly the message passed on to it |
| `Relay.PiecesDoNotMatter` | master.c:210-305 | any pieces of a stream leave the whole master as one uninterrupted reading would |
| `Relay.RelayOfStream` | master.c:297-303 | however cut up and whatever its verbs, a run of messages is passed on exactly and in order |
| `Relay.MessageDelivered` | master.c:210-305 | a printed message is stored and delivered in one piece |
| `Relay.JobsFromInterface` | master.c:233-287 | a run of jobs from the interface, or from a connection that becomes it with the first, is entered, each job once, and handed out as the greedy schedule has it, each to the worker that is best when its turn comes |
| `Relay.AnswerTakes` | master.c:289-303 | an answer takes the first job of its name off its worker's list and completes it, or nothing if there is none; its last beat is forgotten; every other record, list and the pending jobs stay as they were |
| `Relay.TakeFirstAt` | master.c:676-686 | the list loses exactly the position of the first job of that name |
| `Relay.ResultDelivered` | master.c:210-304 | so does a printed result that comes from a worker, and it goes to the interface |
| `Relay.ResultsRelayed` | master.c:289-304 | a run of results from a worker goes to the interface, in order, each completing the first job of its name, and nothing else changes |
| `EventLoop.Drain` | master.c:318-326 | handle_data called until nothing is left: whatever the pieces and pauses, one call for all of it, failing only if a read failed; it ends only when all is read or the connection no longer listened to; what went out is the messages passed on |
| `EventLoop.ConsumesAll` | master.c:318-326 | a loop that ends with the connection still readable has read everything |
| `EventLoop.RelayResults` | master.c:289-390 | what the master writes to the interface for a run of results is that run under PUT, byte for byte, and it writes nothing else; each result completes the first job of its name on its worker's list |
| `EventLoop.RelayJobs` | master.c:281-390 | what it writes for a run of jobs is each job under PUT, byte for byte, to the worker chosen for it, and the ledger is the greedy one |
| `RoundTrip.Submitting` | interface.c:89-102 | the interface puts the printed jobs on the wire, in order |
| `RoundTrip.Passing` | master.c:281-390 | the master writes each under PUT to the worker it schedules it on, and nothing else anywhere |
| `RoundTrip.Working` | worker.c:58-140 | a worker that reads a run of jobs gets their names and bytes, and puts their printed results on the wire, in order |
| `RoundTrip.PassingBack` | master.c:289-390 | the master writes them to the interface, and nothing else anywhere |
| `RoundTrip.Showing` | interface.c:13-33 | which reads each header as the master printed it and shows the bytes behind it |
| `RoundTrip.JobsFindWorkers` | master.c:606-637 | unless the schedule leaves a job pending, every job is passed on once, in order, to a live worker |
| `RoundTrip.CollectedAll` | master.c:281-304 | the results collected from all workers are those of the jobs passed on, each as often as it was passed on |
| `Completion.EachCompletesOne` | master.c:659-690 | answers for jobs that are all on a list each complete one, of the name they bear |
| `Completion.RunIsCompleted` | master.c:281-304 | when every worker has answered all it was passed of a run of jobs, each answer has completed a job of its name; just the jobs of the run are completed, each once, iff no worker had a job already that bears the name of one it was given, and then the ledger is as it was without the run |
| `Completion.OldNamesAreMissed` | master.c:659-690 | otherwise an older job has been completed instead of one of the run |
| `RoundTrip.EndToEnd` | master.c:210-390 | from any state of the master that can place a run of jobs, with partial counts and pauses on every hop: each worker receives the files the greedy schedule gives it, under their names; the interface shows the result of every job submitted, under its name, once, and nothing else; the run is then completed as RunIsCompleted has it; each program reads only what the one before it wrote |
| `EmptyMessages.EmptyMutesWorker` | master.c:254-291 | an empty result is not passed on and nothing behind it is looked at |
| `EmptyMessages.MutedUntilBeat` | master.c:221-224 | no event but a beat that reaches the worker changes that, and data on the connection change nothing at all |
| `EmptyMessages.MutedThroughout` | master.c:210-779 | so in every run |
| `EmptyMessages.BeatDelivers` | master.c:744-749 | after such a beat the next event passes the message on to the interface, completes its job and makes the parser fresh |
| `EmptyMessages.EmptyFromInterface` | master.c:259-287 | an empty job from the interface is submitted, scheduled and passed on at once, and its sender then no longer listened to |
| `EmptyMessages.InterfaceIsStuckForGood` | master.c:210-779 | after that no run ever has another job submitted, by it or by any other connection |
| `Surveillance.ScanTestsEach` | master.c:760-774 | a scan that completes treats every worker's record once, as the detector's step does |
| `Surveillance.ScanCompletesIff` | master.c:639-774 | a scan completes iff each silent worker has at most one job when its turn comes, counting those handed to it meanwhile, and then does what is meant |
| `Surveillance.TwoFailuresBreakTheScan` | master.c:639-774 | two silent workers with one job each: the scan leaves a list |
| `Surveillance.IntendedTestsEach` | master.c:760-774 | a scan as it is meant treats every record once, too |
| `Surveillance.SingleFailureScan` | master.c:760-774 | with one silent worker a scan completes iff it had at most one job, and does nothing but reschedule it |
| `Surveillance.BeatSeen` | master.c:725-750 | a beat is seen by the first worker at its address and no other |
| `Surveillance.HandleDataFades` | master.c:210-305 | a call that passes a message on leaves its sender's beat at zero, any other leaves it alone; no call revives a worker or touches another's record |
| `Surveillance.RecoverySeen` | master.c:140-170 | a recovery pass leaves the watched fields of the workers it keeps |
| `Surveillance.RecordFollowsHistory` | master.c:210-779 | in every run each worker's record is what its history makes of it: beats that reach it, scans, a reset for each message of its own passed on, and failures |
| `Surveillance.NotSuspectedUntilBeat` | master.c:74-779 | in every run, once a message of a worker has been passed on, no scan finds it silent until a beat reaches it |
| `Surveillance.NewWorkerIsFresh` | master.c:92-105 | a worker just accepted starts with an empty history |
| `Surveillance.RunHasTrace` | master.c:318-326 | every run goes through a sequence of states, each leading to the next |
| `Surveillance.RegularWorkerIsNotSuspected` | master.c:725-779 | in every run a worker whose beats reach it in time is not found silent |
| `Surveillance.PunctualWorkerIsNotSuspected` | master.c:725-779 | in every run a worker whose beats are at most three seconds apart is not found silent |
| `Surveillance.ScanOfRun` | master.c:752-779 | each scan in a worker's history is a scan of the run that found the history up to it |
| `Surveillance.SilentWorkerIsFoundDead` | master.c:752-779 | in every run some scan finds a worker gone silent by its last beat + 3 seconds + the largest gap between scans, and it is dead then |
| `Bookkeeping.HandleDataStaysKnown` | master.c:212-241 | handle_data leaves every connection with a record, or closed and replaced |
| `Bookkeeping.KnownThroughout` | master.c:212-241 | so does every run without a recovery pass |
| `Bookkeeping.EventFindsItsRecord` | master.c:212-220 | in such runs the record used for an event is the connection's own |
| `Bookkeeping.PassLeavesStray` | master.c:143-149 | after a recovery pass an erased worker's open connection has none |

## Left out

- Masters.Master.HandleEvent: for a connection whose worker a recovery pass has erased the code works on the interface's record and socket; the model does nothing. No such pass occurs in the program as it stands, because the call at master.c:775 is commented out.
- Masters.Master.CheckNodes: the ledger only, as SweepNodes and RetryPending; `handleOrphans` (master.c:130-138), which forwards to the owner field instead of the chosen worker and resets the chosen worker's parser, is not modelled, nor are the `orphan` and `fd_owner` fields.
- Masters.Master.ScanOnce: one step; the program takes its mutex only around single reads and writes, so data races between the heartbeat threads and the event loop are not captured.
- EventLoop.Drain: the events of one connection, one after the other; several connections are interleaved in the model (Isolation), not in a method. It calls handle_data as often as there is something to read; edge-triggered polling may leave buffered messages waiting for the next arrival.
- Masters.Master.SentIsPrinted: over a fixed table of sockets by descriptor; closing a descriptor and reusing its number for another socket is not modelled on the output side.
- MasterInvariants.EveryJobInOnePlace: jobs a connection was given as a worker before it became the interface are stranded on its record; the code never looks at them again, and the lemma counts that as a place.
- Isolation.NonInterference: for a connection whose own life the heartbeats leave alone during the run and whose file in flight no scan reopens (ScanSparesIff); a beat can revive it and a scan can mark it dead, which says nothing of other connections.
- RoundTrip.EndToEnd: for non-empty payloads (EmptyMessages says what an empty one leads to), for sockets that pause and interrupt but do not fail, with no interruption of the interface's header and size reads (InlineCapturesIff), and for jobs that all find a worker (RoomForAll says when). The workers answer one after another. A job's execution is an arbitrary function of it.
- WorkerProtocol.ReadFile: which size the code takes when the peer closes inside it depends on memory never written; both outcomes are allowed for then.
- Transfers.WriteFileToSocket: after a write() that returns 0 for a non-empty block the code skips bytes of the file; only the number of bytes sent is then promised.
- InterfaceProtocol.Submit: for a name longer than the request buffer the code leaves its memory, and the model stops.
- WorkerShutdown.SentIffBeforeShut: a write to a socket that the signal handler has shut down fails; that the operating system may end the process with SIGPIPE instead is not modelled.
- WorkerShutdown.HangUpExitsIff: a request line counts as one unit; a line or a size that the master's closing cuts in two is in WorkerProtocol.ReceiveRequest. A connection that the system reports as reset ends the process by exit, which is not modelled.
- Scheduling.NextGetsTheJob: loads and clocks are reals; rounding and NaN are not modelled.
- Vectors.Vector.PushBack: for sizes below 2^63, past which get_new_capacity does not return; likewise Insert, Reserve and Resize. Only the shallow element handlers are modelled, the only ones the program installs.
- The bookkeeping half of the `worker` record (descriptor, address, flags, jobs) is a value in a sequence held by class Master, not an object of its own: aliasing of records between worker_list and `interface` is expressed by the record moving from one to the other. Likewise worker_list, task_list and each job list are sequences there; that a vector behaves as one is proved in Vectors.
- Sockets, epoll, accept, getaddrinfo, UDP, signals and file permissions: abstract byte streams, any order of events, fresh descriptor numbers.
- Reads and writes past the end of memory: the model stops there (Overrun, None) instead of guessing at what follows.
- Execution of jobs by system() and the measurement of CPU load: arbitrary results.
- Disk: a map from names to bytes; failing disk writes, failing open, two names for one file, files removed from outside, and descriptor leaks are not modelled. do_put sends the stored content, whose length is the file's size.
- Sizes are written in little-endian order, as on the machines the cluster runs on.
- Prompting, check_ok and print_binary_data in interface.c, main.c, newTest.c, utils.c and the deprecated directory.
