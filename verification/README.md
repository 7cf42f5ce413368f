# Verified model of the native PTY runtime

A Dafny model of the native runtime that moves bytes between a pseudo-terminal and a Dart
isolate: `packages/ptyx/native/src`. The runtime is a handful of threads around shared
counters, queues and flags, and on Linux three processes talking over pipes. The model
follows the code's branches, error values and constants.

`dafny verify dfyconfig.toml` checks the whole project.

## How the code is modelled

Sequential code that changes state is a class or a method with a loop, specified by a
function of the old state; what the source promises is then proved about that function.
Concurrent code is a step system: a state, the actions each thread can take, and theorems
about every state of every run. A thread is cut wherever another can act: at every lock
boundary, load of a shared flag, wait and system call.

| file | what it models |
|---|---|
| `Ptyx.dfy` | machine integers, bytes, errors, concatenation |
| `WriteQueue.dfy` | the bounded input queue under its lock, and an atomic FIFO to compare it with |
| `WriterSystem.dfy` | any number of callers, the writer thread and a closer sharing that queue |
| `ChunkWriter.dfy` | the loop that writes one chunk |
| `RuntimeConfig.dfy` | options turned into limits |
| `Output.dfy` | the output batch: append, flush, posts |
| `Backpressure.dfy` | the flush against acknowledgements, finalizers and stop |
| `Reader.dfy` | the reader thread's loops |
| `Lifecycle.dfy` | starting and closing a session, with every thread and the child |
| `ExitState.dfy` | the exit result, its waiters, kills and the exit event |
| `ModeWatcher.dfy` | the terminal mode watcher |
| `Monitor.dfy` | the Linux monitor process, its pipes and frames, and the parent's side |
| `Environment.dfy` | the child's environment block |
| `OwnedBuffer.dfy` | buffers handed to the queue without a copy |

Common conventions:

- What the kernel, the Dart port or another thread does is a parameter: a script of results
  or an oracle. Theorems hold for every script, so for every schedule of short reads, short
  writes, interruptions, refusals and stop requests. A finite script that is used up leaves
  a run unfinished; scripts of all lengths cover every prefix of every run.
- `WriterSystem`, `Backpressure`, `ExitState` and `Lifecycle` each define `IsRun`; a theorem
  about `run[i]` is about every reachable state. Fields called history in the comments
  record what happened and are read by no step.
- Where a method drops a lock in the middle, what other threads do there is a parameter
  called `meanwhile`.
- In `Lifecycle` the joined threads take no step that needs the runtime slot or its lock, as
  in the code; `Lifecycle.ThreadsIgnoreTheSlot` checks the model for that.
- The stop flag and the closed flags are never cleared, as in the code.
- In `Backpressure` the batch grows past its limit only where `Output.AppendFacts` allows it,
  after stop with acknowledgements required.
- No thread panics, so no lock is poisoned. Pointers are 64 bits wide.
- An honest receiver acknowledges only bytes it was given. Where a result needs that, it
  says so; the bounds on the in-flight counter do not need it.

## What the proofs say about the code

- **A start that fails late can hang.** If the mode watcher thread cannot be spawned,
  `start_runtime` joins the wait thread (`packages/ptyx/native/src/runtime.rs:196-204`) before anyone has killed the
  child: the kill is in `session::close`, called only after `start_runtime` returns.
  `Lifecycle.FailedStartCanHang` builds the run: nothing can move until the child exits by
  itself, and no caller has the session yet.
- **A close can wait for a full PTY.** The descriptor is nonblocking only while the reader
  holds its guard (`packages/ptyx/native/src/reader.rs:56`, `packages/ptyx/native/src/fd.rs:159-168`), the
  writer calls write on the same descriptor (`packages/ptyx/native/src/fd.rs:258-259`), and `close_runtime`
  joins the reader before the writer (`packages/ptyx/native/src/runtime.rs:316-331`). A writer that is past its
  closed poll when the reader ends enters a blocking write. If the PTY is full and its other
  end stays open, the join does not return, although the child is dead.
  `Lifecycle.CloseCanWaitForFullPty` builds the run. A write also blocks if it begins before
  the reader has entered (`Lifecycle.WritesBlockOutsideReader`). The model assumes nothing
  about when the kernel lets such a write go: where the terminal is hung up as its session
  leader exits, that is the event that ends this wait.
- **Shutdown has no other wait without an end.** `Lifecycle.ShutdownMoves` says that outside
  these two kinds of wait something can always move, `Lifecycle.ShutdownIsBounded` that it
  moves a bounded number of times, `Lifecycle.LiveChildBlocks` and `Lifecycle.FullPtyBlocks`
  that inside them only the child's end or the PTY moves the call on, and
  `Lifecycle.OnlyTheseWaitsHang` where they can occur. A close waits for a live child only
  when its kill reached none (`session::close` ignores the kill's result).
- **Output pending at stop is dropped when acknowledgements are required.** `flush` then
  returns success without posting (`packages/ptyx/native/src/output.rs:87-89`; `Output.StopDropsPending`).
  `Output.FlushFacts` and `Reader.Run` say exactly when everything read was posted. After stop
  a full batch still grows, one byte at a time, but is never posted (`Output.StoppedBatchGrows`).
- **A refused post loses an external batch and keeps a copied one**
  (`packages/ptyx/native/src/output.rs:101`, `packages/ptyx/native/src/output.rs:108-111`;
  `Output.RefusedExternalPostLosesBatch`, and `Output.FlushFacts` for every case).
- **An oversized chunk is refused as "queue full"** even after failure or close
  (`packages/ptyx/native/src/writer.rs:126-128`; `WriteQueue.FailedQueueSaysFull`, and
  `WriteQueue.OversizedHidesTheState` for the exact condition).
- **The in-flight limit is not clamped above** (`packages/ptyx/native/src/abi.rs:548`), so the counter
  can saturate. `RuntimeConfig.OptionsAreUsable` says which options leave it room,
  `RuntimeConfig.LargestLimitHasNoRoom` gives one that does not, and `Backpressure.ExactIffRoom`
  shows that room is exactly what the counter's exactness needs.
- **A kill can race with reaping.** It checks the recorded exit and then signals
  (`packages/ptyx/native/src/process.rs:211-221`). `ExitState.LateKillIsSilent` is what holds;
  `ExitState.EarlyKillCanSignalLate` is the run that shows the limit.
- **A late refusal truncates an owned buffer.** The header says the data pointer covers the
  buffer's capacity (`packages/ptyx/include/ptyx.h:294`); after `write_owned` was refused by
  the queue it covers only the length offered (`OwnedBuffer.FullRetryIsRefused`, and
  `OwnedBuffer.RetryAfterRefusal` for every case).
- **A broken exec-status pipe is reported with whatever `errno` holds** at that moment
  (`packages/ptyx/native/src/process_linux.rs:367-371`), not with the error of the exec.

## Model

| member | source | states |
|---|---|---|
| WriteQueue.PushRefines | packages/ptyx/native/src/writer.rs:139-194 | the locked validate-and-push answers and changes the queue exactly as an atomic bounded FIFO's enqueue, and its counter addition does not overflow |
| WriteQueue.PopRefines | packages/ptyx/native/src/writer.rs:196-217 | one dequeue pass answers exactly when the atomic FIFO would, takes the oldest chunk, and its saturating subtraction never saturates |
| WriteQueue.WriteQueueShared.constructor | packages/ptyx/native/src/writer.rs:107-118 | a new queue is empty, open and valid |
| WriteQueue.WriteQueueShared.ValidateEnqueue | packages/ptyx/native/src/writer.rs:175-194 | it allows exactly when the queue is live and its contents leave room, and answers for every chunk of that length within the limit what the atomic FIFO would, though it sees only the counter |
| WriteQueue.WriteQueueShared.EnqueueOwned | packages/ptyx/native/src/writer.rs:139-165 | replies as the FIFO does; on refusal the queue is unchanged and the same bytes come back; it notifies once exactly when it pushed |
| WriteQueue.WriteQueueShared.EnqueueBytes | packages/ptyx/native/src/writer.rs:120-137 | whatever other threads do between its two locks: a refusal at the first lock is the FIFO's there and changes nothing, and otherwise it succeeds exactly when the FIFO would at the second; a failed copy changes nothing |
| WriteQueue.OversizedHidesTheState | packages/ptyx/native/src/writer.rs:126-128 | a failed or closed queue reports its state to a non-empty chunk if and only if the chunk fits the limit |
| WriteQueue.FailedQueueSaysFull | packages/ptyx/native/src/writer.rs:144-146 | a failed queue that refuses an oversized chunk as full |
| WriteQueue.WriteQueueShared.DequeuePass | packages/ptyx/native/src/writer.rs:201-211 | removes the oldest chunk, or changes nothing and says failed, ended or must wait |
| WriteQueue.WriteQueueShared.Close | packages/ptyx/native/src/writer.rs:219-230 | the queue becomes the FIFO's closed, empty state and everyone is notified |
| WriteQueue.WriteQueueShared.Fail | packages/ptyx/native/src/writer.rs:232-243 | the queue becomes the FIFO's failed, empty state and everyone is notified |
| WriterSystem.AlwaysInv | packages/ptyx/native/src/writer.rs:120-389 | the system's invariant holds in every reachable state of callers, writer and closer |
| WriterSystem.WrittenInOrder | packages/ptyx/native/src/writer.rs:139-366 | bytes the PTY took are a prefix of the accepted chunks in acceptance order; until close or failure, written, chunk in hand and queue make up exactly what was accepted |
| WriterSystem.QueueBounded | packages/ptyx/native/src/writer.rs:157-243 | the byte counter is the queued length and within the limit; queue plus chunk in hand is at most twice the limit |
| WriterSystem.ParkedWriterWillBeNotified | packages/ptyx/native/src/writer.rs:148-230 | if the writer is parked with something to do, some caller's notify is still to come and will wake it |
| WriterSystem.EveryHistoryLinearizes | packages/ptyx/native/src/writer.rs:120-243 | every concurrent history linearizes to the atomic bounded FIFO, whose contents are the queue's |
| WriterSystem.CompletedOperation | packages/ptyx/native/src/writer.rs:120-243 | an operation that returned took effect once, between its call and its return, with the reply it returned |
| WriterSystem.TakeKeeps | packages/ptyx/native/src/writer.rs:201-211 | dequeue keeps the invariant and its failure branch is never taken |
| WriterSystem.FailKeeps | packages/ptyx/native/src/writer.rs:386-389 | recording a failure keeps the invariant: the bytes in hand and queued count as lost, in order |
| WriterSystem.AbandonKeeps | packages/ptyx/native/src/writer.rs:345-348 | leaving a chunk when the queue is seen closed keeps the invariant |
| WriterSystem.OneErrorEvent | packages/ptyx/native/src/writer.rs:254-303 | at most one write-error event is posted, carrying the recorded failure, and exactly one once a failed writer has ended; the writer ends only after a close or a failure |
| WriterSystem.EnqueueAnswersAsTheFifo | packages/ptyx/native/src/writer.rs:120-165 | an enqueue answers what the atomic FIFO would at the lock that decides it; only a copy without memory answers anything else |
| WriterSystem.FailureHasCause | packages/ptyx/native/src/writer.rs:254-303 | in every run the writer fails, and the queue is failed, with an error exactly if an earlier step caused it: a failed start, a failed write, or finding the session closed; a posted error is one such |
| WriterSystem.DrainStepLowers | packages/ptyx/native/src/writer.rs:263-366 | while open, each step of the writer, its writes taking any amount, keeps things open and comes closer to having written everything |
| WriterSystem.CanDrain | packages/ptyx/native/src/writer.rs:263-366 | and while anything accepted is unwritten such a step, or the notify a parked writer is owed, is possible |
| WriterSystem.EverythingCanBeWritten | packages/ptyx/native/src/writer.rs:263-366 | from every reachable open state where nothing has failed there is a run of such steps after which exactly what was accepted is written |
| WriterSystem.CallerCompletes | packages/ptyx/native/src/writer.rs:120-165 | an idle caller may enqueue or close at any time, and left alone returns what the atomic FIFO answers, having done to the queue what the FIFO does |
| WriterSystem.ClosedWriterEnds | packages/ptyx/native/src/writer.rs:263-366 | once the queue is closed every step of the writer takes it closer to its end, however its writes go, and one is always possible |
| WriterSystem.StartsLive | packages/ptyx/native/src/writer.rs:107-118 | a new system is open with nothing failed |
| WriterSystem.AnythingCanHappen | packages/ptyx/native/src/writer.rs:201-366 | the writer parks on an open, empty queue and wakes also for no reason; a write may take any amount, be retried after another closed poll, or fail; the session may be closed at any time |
| WriterSystem.ShutdownIsFinal | packages/ptyx/native/src/writer.rs:219-303 | once closed or failed the queue stays empty and nothing more is accepted; after a failure nothing more is written or dequeued; after a close only a write already decided on can still reach the PTY |
| WriterSystem.SessionCloseEndsWriting | packages/ptyx/native/src/writer.rs:273-280 | once the session is marked closed the PTY gets at most the rest of a chunk that had already passed the test |
| ChunkWriter.WriteChunk | packages/ptyx/native/src/writer.rs:306-366 | for every sequence of write results the PTY gets a prefix of the chunk, all of it exactly on completion; it stops at the first turn that sees the queue closed and fails exactly at the first call that breaks, with that call's mapped error |
| ChunkWriter.MapKeepsTheKind | packages/ptyx/native/src/writer.rs:375-384 | a mapped write error keeps its text and tells a broken pipe, a full PTY and a missing permission apart |
| ChunkWriter.BreaksExactly | packages/ptyx/native/src/writer.rs:316-334 | the calls that end the loop with an error are those that take nothing, fail, or cannot wait for a full PTY |
| RuntimeConfig.OptionsAreUsable | packages/ptyx/native/src/abi.rs:534-594 | all options give positive limits; the in-flight counter has room in 64 bits if and only if the requested limit leaves it |
| RuntimeConfig.OptionsAreHonoured | packages/ptyx/native/src/abi.rs:29-98 | each flag sets its own field; zero asks for the default, a size in range is kept and one out of range goes to the nearer bound, with every number written out |
| RuntimeConfig.LargestLimitHasNoRoom | packages/ptyx/native/src/abi.rs:548 | asking for the largest limit leaves none |
| Output.FlushFacts | packages/ptyx/native/src/output.rs:82-128 | a flush loses and reorders nothing when it succeeds; it posts the pending bytes if and only if stop did not intervene and the post was accepted; what a refused post leaves |
| Output.StopDropsPending | packages/ptyx/native/src/output.rs:87-89 | a flush that sees the stop flag succeeds without posting, and so does the next |
| Output.RefusedExternalPostLosesBatch | packages/ptyx/native/src/output.rs:101-113 | a refused external post empties the batch, the same post refused as a copy keeps it |
| Output.StoppedBatchGrows | packages/ptyx/native/src/output.rs:67-77 | after stop a full batch takes one byte a turn past its limit, unposted |
| Output.AppendFacts | packages/ptyx/native/src/output.rs:61-80 | every appended byte is posted or pending, once and in order, in batches within the limit |
| Output.AppendPosts | packages/ptyx/native/src/output.rs:61-80 | append fails at, and only at, the first refused post |
| Output.BatchesCover | packages/ptyx/native/src/output.rs:67-77 | the reference cut covers the stream with batches of exactly the limit and a shorter rest |
| Output.AppendCutsBatches | packages/ptyx/native/src/output.rs:61-80 | without stop and refusals, append posts exactly the reference cut of pending plus new bytes |
| Output.AppendAllCutsBatches | packages/ptyx/native/src/output.rs:61-80 | the same for any series of appends |
| Output.FragmentationIndependent | packages/ptyx/native/src/output.rs:61-80 | two ways of splitting the same bytes into reads post the same batches and leave the same rest |
| Output.OutputBuffer.WaitForCapacity | packages/ptyx/native/src/output.rs:162-182 | granted at once without acknowledgements, otherwise unless the deciding load finds stop set |
| Output.OutputBuffer.ReserveInflight | packages/ptyx/native/src/output.rs:184-195 | a reservation is added only when acknowledgements are required |
| Output.OutputBuffer.ReleaseInflight | packages/ptyx/native/src/output.rs:197-209 | a reservation is taken back only when acknowledgements are required |
| Output.OutputBuffer.ReserveExternal | packages/ptyx/native/src/output.rs:95-100 | an external post is chosen only if enabled, within the limit and reserved |
| Output.OutputBuffer.PostOutput | packages/ptyx/native/src/output.rs:101-113 | an accepted post appends one output message |
| Output.OutputBuffer.FlushBatch | packages/ptyx/native/src/output.rs:82-128 | the method changes the buffer as the specified flush does, posts only output, and leaves reserved exactly what was posted, a refused post's reservation taken back |
| Output.OutputBuffer.AppendBytes | packages/ptyx/native/src/output.rs:61-80 | the loop refines the specified append, and ends |
| Backpressure.AlwaysInv | packages/ptyx/native/src/output.rs:82-225 | the invariant of flush, acknowledgements, finalizers and stop holds in every reachable state |
| Backpressure.InflightExact | packages/ptyx/native/src/output.rs:91-124 | with an honest receiver and room the in-flight counter is posted plus reserved less acknowledged at every point, and the next step saturates nothing |
| Backpressure.CounterSaturates | packages/ptyx/native/src/output.rs:184-195 | without room a run of an honest receiver ends with a counter below what it counts |
| Backpressure.ExactIffRoom | packages/ptyx/native/src/output.rs:91-124 | the counter is exact in every run of an honest receiver if and only if it has room |
| Backpressure.ExactKeeps | packages/ptyx/native/src/runtime.rs:65-74 | each step, an acknowledgement inside a post and a rollback included, keeps the counter exact |
| Backpressure.InflightBound | packages/ptyx/native/src/output.rs:162-195 | for any acknowledgements the counter is at most the limit less one plus one batch |
| Backpressure.BlockedReaderIsOwedAcks | packages/ptyx/native/src/output.rs:162-182 | for every configuration a blocked reader is owed at least the whole limit of delivered bytes, and acknowledging them unblocks it |
| Backpressure.ExternalConserved | packages/ptyx/native/src/output.rs:212-225 | the external counter is the bytes of live buffers plus the flush's reservation, within its limit, and no free underflows it |
| Backpressure.PeersFreedOnce | packages/ptyx/native/src/message.rs:42-87 | each external buffer is freed at most once, by the finalizer if it was posted and by the poster if not; a refused one is freed when the flush is over, a posted one can be freed as long as it has not been |
| Backpressure.FlushAlone | packages/ptyx/native/src/output.rs:82-128 | a flush nothing interrupts: it does nothing once stop is set, waits at the limit, and otherwise reserves, posts externally exactly if that is enabled and fits, and leaves batch, counters and buffers as an accepted or a refused post should |
| Backpressure.AnythingCanHappen | packages/ptyx/native/src/runtime.rs:65-74 | an acknowledgement of any size takes that much off the counter and wakes a parked flush, which also wakes by itself; a posted buffer can be finalized, which gives its bytes back |
| Backpressure.PostAlone | packages/ptyx/native/src/output.rs:94-127 | what is left of batch, counters and buffers from the reservation on |
| Reader.Finish | packages/ptyx/native/src/reader.rs:66-88 | the last flush, the read or poll error as one error event if that ended the run, then one closed message |
| Reader.Accept | packages/ptyx/native/src/reader.rs:73-78 | an appended read keeps what the loops rely on, or ends the run at a refused post |
| Reader.FlushPending | packages/ptyx/native/src/reader.rs:96-101 | a due flush leaves nothing pending unless stopped |
| Reader.DrainReads | packages/ptyx/native/src/reader.rs:71-93 | the inner loop consumes reads until one would block, stop is seen or the run is over |
| Reader.ReadUnixFd | packages/ptyx/native/src/reader.rs:53-111 | the run consumed an orderly interleaving of reads and polls, took exactly its data and ended where the code ends |
| Reader.AcceptBlocking | packages/ptyx/native/src/reader.rs:135-146 | a read appends and, if the batch is old enough, leaves nothing pending unless stopped |
| Reader.ReadBlocking | packages/ptyx/native/src/reader.rs:113-160 | the same as for the descriptor loop, for the blocking one |
| Reader.Run | packages/ptyx/native/src/reader.rs:17-51 | the output port sees output messages, then on every path that ends exactly one closed message; the event port sees exactly the refused entry's error, the failing read's or poll's, or a refused post's, and nothing after end of file or stop; payloads of size 1 to the limit, together a prefix of what was read, and all of it if and only if the last flush had nothing pending or was allowed to post |
| Lifecycle.AlwaysInv | packages/ptyx/native/src/runtime.rs:126-334 | the invariant of start, its failure paths, close and all threads holds in every reachable state |
| Lifecycle.ModeAlwaysSound | packages/ptyx/native/src/fd.rs:159-191 | the descriptor is nonblocking exactly if it was opened so or the reader holds its guard |
| Lifecycle.WritesBlockOutsideReader | packages/ptyx/native/src/fd.rs:257-276 | a write blocks exactly if it begins on a descriptor opened blocking while no reader keeps it nonblocking; the reader's own reads never do |
| Lifecycle.MarksComeFromInstructions | packages/ptyx/native/src/runtime.rs:126-334 | in every run a thread exists exactly if the instruction that spawns it was executed and succeeded, the mode watcher exactly if it was also wanted; each flag is set exactly if the instruction that sets it was executed; reader, writer and mode watcher have left their loops exactly if one of their causes occurred |
| Lifecycle.ReaderLoop | packages/ptyx/native/src/reader.rs:65-108 | the reader flushes exactly when a batch is full or a poll times out, waits exactly while the counter is full and stop unseen, and polls exactly after a read that found nothing |
| Lifecycle.OtherLoops | packages/ptyx/native/src/writer.rs:263-303 | the writer fails, reports, parks and writes exactly when it should, and the mode watcher sleeps after every snapshot |
| Lifecycle.CallersCanAct | packages/ptyx/native/src/runtime.rs:78-98 | whoever has the session may kill, and who holds the lock may wake the writer |
| Lifecycle.WorldCanAct | packages/ptyx/native/src/fd.rs:233-255 | a read may give any count that fits, a parked writer may wake for no reason, a child may exit |
| Lifecycle.PtyCanAct | packages/ptyx/native/src/fd.rs:257-276 | the PTY may fill and drain |
| Lifecycle.OneWriterThread | packages/ptyx/native/src/writer.rs:55-88 | a session starts at most one writer thread; when the slot is cleared every thread has ended and the writer's handle is taken, and when close returns the exit is recorded |
| Lifecycle.CloseReachesTheQueue | packages/ptyx/native/src/session.rs:71-76 | up to the closing of the queue the call waits only for the slot lock, for a caller that holds it and can let it go |
| Lifecycle.ShutdownMoves | packages/ptyx/native/src/runtime.rs:300-334 | once the queue is closed something can always move, unless the call is over, joins the waiter of a child nothing has made exit, or joins a writer held in a blocking write by a full PTY |
| Lifecycle.LiveChildBlocks | packages/ptyx/native/src/runtime.rs:196-204 | in the first exception no step but the child's exit or a kill moves the call on |
| Lifecycle.FullPtyBlocks | packages/ptyx/native/src/runtime.rs:316-331 | in the second no step but the PTY draining moves the call on |
| Lifecycle.CloseBlocksOnlyIfKillMissed | packages/ptyx/native/src/session.rs:71-76 | close waits for a live child only if its kill reached none |
| Lifecycle.StepRanks | packages/ptyx/native/src/runtime.rs:308-332 | while shutting down every step of the session's threads lowers a rank no other step raises |
| Lifecycle.ShutdownIsBounded | packages/ptyx/native/src/runtime.rs:300-334 | once the queue is closed the threads and the closer take at most 3 * readMax + 40 more steps, however other callers interleave and the PTY fills and drains |
| Lifecycle.FailedStartCanHang | packages/ptyx/native/src/runtime.rs:196-204 | a run in which a failed start waits for a live child and nothing can move |
| Lifecycle.CloseCanWaitForFullPty | packages/ptyx/native/src/runtime.rs:316-331 | a run in which close waits for a writer in a blocking write, the child dead and every other thread ended, and nothing can move |
| Lifecycle.OnlyTheseWaitsHang | packages/ptyx/native/src/runtime.rs:126-334 | a live child is waited for only after a failed mode watcher spawn or a missed kill; a full PTY only in close, after the child has exited and the reader has ended, on a descriptor opened blocking |
| ExitState.WaitState.Complete | packages/ptyx/native/src/process.rs:59-66 | only the first result is recorded |
| ExitState.WaitState.Kill | packages/ptyx/native/src/process.rs:211-272 | a signal is sent if and only if no result was recorded when it looked and the child has a PID, whatever is recorded before the signal; true means it was sent, false that it was not or found no process, an error is the signal's |
| ExitState.AlwaysInv | packages/ptyx/native/src/process.rs:35-66 | the invariant of waiters, exit waiters, kills and the poster holds in every reachable state |
| ExitState.NothingIsUndone | packages/ptyx/native/src/process.rs:59-66 | a recorded result, a returned wait and a sent signal stay; readiness never goes back |
| ExitState.WaitersAgree | packages/ptyx/native/src/process.rs:43-57 | all waits, whenever they return, return the same first result |
| ExitState.NoWaiterIsLeftParked | packages/ptyx/native/src/process.rs:43-66 | once there is a result no waiter is parked and each is one look from returning it |
| ExitState.ResultIsTheChilds | packages/ptyx/native/src/process.rs:295-354 | a completed exit waiter has left a result; the child is waited on once, and with the one exit waiter spawn starts the result is its status as a signed code, or the error of the wait |
| ExitState.LateKillIsSilent | packages/ptyx/native/src/process.rs:211-221 | a kill that begins after a result is recorded sends no signal and answers false; one that had checked earlier is the only kind that can still signal |
| ExitState.NoPidNoSignal | packages/ptyx/native/src/process.rs:256-260 | a child without a PID is never signalled and kills of it answer false |
| ExitState.EarlyKillCanSignalLate | packages/ptyx/native/src/process.rs:211-272 | a run where a kill that checked before the result signals after it |
| ExitState.OneExitEvent | packages/ptyx/native/src/runtime.rs:250-263 | at most one event, an exit event exactly for a recorded code and carrying it, a wait error exactly for a recorded error and carrying that; withheld only if stop was set |
| ExitState.StopSilences | packages/ptyx/native/src/runtime.rs:250-263 | a stop flag set before the poster loads it withholds the event for good |
| ExitState.ExitIsPosted | packages/ptyx/native/src/runtime.rs:250-263 | whatever the wait on the child gives there is a run in which the event about it is posted |
| ExitState.AnythingCanHappen | packages/ptyx/native/src/process.rs:35-66 | anyone may begin to wait or kill, a waiter may wake for no reason and looks again, and a thread that finds the child taken completes with that error |
| ExitState.ExitEventCarriesTheCode | packages/ptyx/native/src/message.rs:93-101 | the code the monitor frames is the one the parent finds and the exit event carries |
| ModeWatcher.ChangesTrackTheMode | packages/ptyx/native/src/runtime.rs:270-278 | the changes of a mode history never repeat in a row and end with the mode last seen |
| ModeWatcher.ModeLoop | packages/ptyx/native/src/runtime.rs:266-286 | the modes offered are exactly the changes among those seen; all but a refused last one are delivered, and an error event comes only last |
| Monitor.I32RoundTrip | packages/ptyx/native/src/process_linux.rs:492-502 | an i32 written in native byte order reads back unchanged, for both orders |
| Monitor.CastsAreModular | packages/ptyx/native/src/process_linux.rs:249-260 | the casts keep a value modulo 2^32, and bytes are in the order of the machine |
| Monitor.FrameRoundTrip | packages/ptyx/native/src/process_linux.rs:304-311 | a framed message decodes to itself |
| Monitor.PrefixDecodes | packages/ptyx/native/src/process_linux.rs:304-336 | from any prefix of the bytes sent exactly the messages with complete frames are decoded |
| Monitor.ReadExact | packages/ptyx/native/src/process_linux.rs:313-336 | however reads are cut, it gets the next bytes exactly when there are enough |
| Monitor.ReadMessage | packages/ptyx/native/src/process_linux.rs:304-311 | it decodes the next complete frame, and reports the end of the pipe only when there is none |
| Monitor.ReadI32OrEof | packages/ptyx/native/src/process_linux.rs:465-490 | four bytes are an errno, none is success, one to three or a failing read is broken |
| Monitor.WriteEnd.WriteAll | packages/ptyx/native/src/process_linux.rs:504-517 | a prefix of the buffer is written, and all of it on success, for every schedule of short writes |
| Monitor.ExitCodeIsByte | packages/ptyx/native/src/process_linux.rs:445-463 | every wait status maps into 0..255: exit codes are kept, signals become 128 plus the number, anything else and a failed wait become 1 |
| Monitor.WaitForPid | packages/ptyx/native/src/process_linux.rs:445-463 | it returns the code of the first wait that is not interrupted |
| Monitor.Report | packages/ptyx/native/src/process_linux.rs:341-371 | the exec error is one frame with the errno |
| Monitor.RunMonitor | packages/ptyx/native/src/process_linux.rs:338-380 | the monitor's bytes are a prefix of one exec-error frame or of PID then exit; the PID if and only if the exec pipe closed without a byte; the exit code is what waiting gave |
| Monitor.Spawn | packages/ptyx/native/src/process_linux.rs:52-78 | spawn is decided by the first complete frame, or by the pipe's early end |
| Monitor.SupervisedChild.Wait | packages/ptyx/native/src/process_linux.rs:226-261 | the first wait finds the exit message and caches its status; later waits repeat it without reading |
| Monitor.ExitCodeSurvives | packages/ptyx/native/src/process.rs:278-280 | the code is unchanged by frame, cast to unsigned, cast back and widening, for every i32 |
| Monitor.ParentFollowsMonitor | packages/ptyx/native/src/process_linux.rs:52-78 | wherever the monitor's bytes are cut, spawn returns the child exactly when the PID frame is complete and wait the code exactly when the exit frame is |
| Monitor.ParentReadsMessages | packages/ptyx/native/src/process_linux.rs:52-78 | for any bytes at all spawn is decided by the first complete message alone, each tag having its own answer, and wait finds the first exit message |
| Monitor.SpawnChild | packages/ptyx/native/src/process_linux.rs:18-79 | monitor and parent together: spawn returns the forked child only if pipe and fork succeeded and the exec pipe closed without a byte, and exactly then once the first frame is delivered |
| Environment.AssignedIsLast | packages/ptyx/native/src/process_linux.rs:140-164 | the overlay holds a key if and only if some pair sets it, with the value of the last one |
| Environment.LessTotal | packages/ptyx/native/src/process_linux.rs:135 | byte order of keys is total and strict |
| Environment.LessIsLexicographic | packages/ptyx/native/src/process_linux.rs:135 | the order is that of the first differing byte, and a key comes before its extensions |
| Environment.InsertMembers | packages/ptyx/native/src/process_linux.rs:160-163 | inserting adds or replaces one key's pair, keeps all others and keeps the order |
| Environment.InsertHolds | packages/ptyx/native/src/process_linux.rs:160-163 | the ordered list stays equal to the overlay map |
| Environment.SplitRecovers | packages/ptyx/native/src/process_linux.rs:167-171 | splitting a written entry at its first '=' recovers key and value if and only if the key has no '=' |
| Environment.ParsedItem | packages/ptyx/native/src/process_linux.rs:146-163 | a parsed item has a non-empty key without '=' and is the item written again |
| Environment.ParseAccepts | packages/ptyx/native/src/process_linux.rs:146-159 | an item is accepted if and only if it has an '=' and does not begin with one, and the two errors tell the two ways to fail apart |
| Environment.AssignedAppend | packages/ptyx/native/src/process_linux.rs:140-164 | pairs added later override, key by key |
| Environment.AddItems | packages/ptyx/native/src/process_linux.rs:142-165 | it succeeds exactly when every item is well formed, and otherwise gives the first item's error |
| Environment.WriteOut | packages/ptyx/native/src/process_linux.rs:167-179 | it refuses exactly the blocks with a NUL |
| Environment.Build | packages/ptyx/native/src/process_linux.rs:134-180 | inherit gives the inherited variables and looks at no item, overlay those overridden by the items, replace the items alone, clear nothing; one entry per variable in strictly increasing key order; it fails if and only if a used item is malformed or a surviving entry contains NUL |
| OwnedBuffer.Session.WriteOwned | packages/ptyx/native/src/runtime.rs:100-124 | the bytes are queued, or the same bytes come back with the session's reason |
| OwnedBuffer.BufferHeap.Alloc | packages/ptyx/native/src/abi.rs:337-353 | a new handle to as many zero bytes as asked for, or nothing changes |
| OwnedBuffer.BufferHeap.Free | packages/ptyx/native/src/abi.rs:362-369 | a handle is freed once; null is ignored |
| OwnedBuffer.BufferHeap.TakeOwnedBuffer | packages/ptyx/native/src/abi.rs:371-388 | the caller loses the handle exactly when the length fits; otherwise nothing changes |
| OwnedBuffer.BufferHeap.WriteOwned | packages/ptyx/native/src/lib.rs:114-131 | refused up to the length check: the handle is untouched; refused later: it keeps exactly its first `length` bytes; accepted: it is freed once and those bytes are queued |
| OwnedBuffer.HandlesAreLinear | packages/ptyx/native/src/abi.rs:371-397 | over every sequence of calls an allocated handle is live and never freed, or gone and freed exactly once |
| OwnedBuffer.HandleLivesUntilConsumed | packages/ptyx/native/src/abi.rs:371-397 | a handle lives until the one free or successful write that consumes it, never grows, and keeps a prefix of its bytes unless refilled |
| OwnedBuffer.RetryAfterRefusal | packages/ptyx/native/src/abi.rs:394-397 | after a late refusal the same write offers the same bytes and a longer one is refused |
| OwnedBuffer.FullRetryIsRefused | packages/ptyx/native/src/owned_buffer.rs:16-26 | a late-refused write of part of a buffer, after which all of it is too long |

## Left out

- Real system calls (read, write, poll, fork, exec, waitpid, fcntl): each is a result within its documented range.
- `fd.rs` retry loops around read and poll, and the millisecond rounding of the poll timeout: the reader's scripts hold their results; the write side's result classes are in `ChunkWriter`.
- Wall-clock time: a delay is elapsed or not; no latency is claimed, and the code has no bound on it, because a poll that finds data never flushes.
- The Dart API: a post is accepted or refused; its message layout is not modelled.
- `portable_pty`, Windows and other non-Unix branches, and the macOS exit watcher.
- `write_busy` and `read_busy`: a session has at most one writer and one reader thread (`Lifecycle.OneWriterThread`), which are the only ones to enter them; the reader's refusal is modelled all the same.
- The master, reader and writer locks of the session: the first is held for single calls, the other two only by the one reader and the one writer thread.
- A blocking fallback read that never returns: `Lifecycle` models the descriptor reader, whose polls are timed.
- `try_wait` of the supervised child: the same message loop after a poll.
- A session whose exit waiter cannot be spawned: it is killed and dropped before it has threads.
- Pointer validity, UTF-8 decoding, status and error tables, last-error storage, size and name getters, resize.
- The Dart and Flutter packages, build hooks, generators and examples.
- Monitor.WriteEnd.WriteAll: a write that takes nothing is tried again for as long as the script lasts; the code makes no progress in that case either.
- Monitor.RunMonitor: what it says of the bytes written assumes that no write to the event pipe fails; after a failed write the code goes on and a later frame can follow a cut one.
- Lifecycle.ShutdownIsBounded: it counts steps; that they are taken needs timed waits to return, a killed child to exit and its monitor to report that.
- Lifecycle.AlwaysInv: the descriptor's mode is one flag, read when a write begins; a change of mode during a write call does not reach it.
- Output.OutputBuffer.WaitForCapacity: the timed loop on the counter is in `Backpressure`; here only the load of stop that decides it is left.
- Output.OutputBuffer.ReserveExternal: the atomic addition to the shared counter is in `Backpressure`; here its outcome is a parameter.
- Output.OutputBuffer.FlushBatch: what acknowledgements do to the counter meanwhile is in `Backpressure`; here `reserved` is this reader's share of it.
- OwnedBuffer.Session.WriteOwned: the session's decision is atomic here; its interleaving with other callers is in `WriterSystem`.
- Environment.Build: the inherited variables are a list given in some order, as the standard library yields them.
