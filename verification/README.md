# AF-Stream: a Dafny model

AF-Stream is a distributed stream processing engine that tolerates faults approximately: an operator
is backed up only when its live state has drifted from its last backup by more than a threshold, and a
crash loses at most that much. This project models the parts of the engine whose correctness is not
visible from any single function, and proves what holds of them over all inputs and all runs.

| file | part of the system |
|---|---|
| `Pipe.dfy`, `YQueue.dfy`, `Mailbox.dfy` | the lock-free pipe, the chunked queue under it, and the mailbox of many senders and one receiver |
| `Ring.dfy`, `RingFlush.dfy`, `MeshQueue.dfy`, `EndOfStream.dfy` | the zero-copy ring, flushes by other threads, the round-robin mesh of rings, the end-of-stream mark |
| `SlotCirculation.dfy`, `SlotRings.dfy` | the circulation of message slots, and what it asks of the rings |
| `Control.dfy` | the command protocol between a worker and its threads |
| `NumericArrays.dfy`, `SavedCells.dfy`, `MaxApproximation.dfy`, `NormApproximation.dfy`, `Clearing.dfy` | the fault-tolerant arrays and what a crash costs, without and with Clear |
| `BackupServer.dfy`, `ReplyOrder.dfy`, `Operators.dfy`, `WorkerRecovery.dfy`, `Replay.dfy` | the backup server, the order of its replies, operators of every kind, a whole worker against the server, replay of a logged stream |
| `Wire.dfy`, `Framing.dfy`, `Engine.dfy`, `Handshake.dfy`, `Metadata.dfy` | message framing, batching output and input, greeting exchange, handshake metadata |
| `CountMin.dfy`, `CountMinItem.dfy`, `CountMinThreads.dfy`, `SketchRecovery.dfy` | the Count-Min application from sketch to merged report, and its sketch under crashes |
| `Sums.dfy`, `Arithmetic.dfy`, `Option.dfy` | weighted sums over sequences, quotients and remainders, optional values |

Concurrent parts are state machines over atomic steps (`Enabled`, `Apply`, `CanRun`, `After`), and
their theorems are about every event sequence. Objects the source updates in place are classes whose
methods are proved against the same functions. Memory is sequentially consistent, values are exact
integers, and what the socket takes or delivers per call, hash functions, garbage in fresh memory and
the order of events are arbitrary.

## Findings

These are places where a natural expectation fails of the code. Each has the exact condition.

- A ring can deadlock with both sides waiting if and only if its capacity is at most its batch size (`Ring.NeverDeadlocked`, `Ring.SmallRingDeadlocks`). With 2000 and 50 it cannot.
- A flush loads an index of another thread and then stores it. A ring is FIFO in every run in which no flushing thread stores an index that has been overtaken meanwhile (`RingFlush.CalmFlushIsFifo`); only a publication or release of the owning side, or another flush, can overtake it (`RingFlush.OnlyPublicationOvertakes`). Otherwise the reader can be handed a slot that was never written (`RingFlush.OvertakenFlushBreaksFifo`); the end of a compute thread flushes rings that others still write.
- An acknowledge is a ring insert, and a ring counts a slot as occupied until its read index is published. Every acknowledge finds room, or a release about to come, if and only if the capacity is at least the number of slots per writer plus the batch size (`SlotRings.AcksFindRoomIff`). The source uses the number of slots plus 1, so even the first acknowledge of a run can find its ring full and spin (`SlotRings.AckCanWait`). The writer it waits for can go on if the capacity is above twice the batch size plus 1 and its slots are at most 2 * (capacity - batch) - 2 many, as with 2000 and 50 (`SlotRings.WaitedForWriterCanGoOn`).
- With a negative threshold, the configuration default, every pass without a tuple takes the backup branch, which dereferences the tuple; with any other threshold none does (`MaxApproximation.IdleBranchIff`).
- One backup per pass keeps the threshold if and only if no cell but that of the first highest update is left above it; the merge thread of Count-Min can leave several (`MaxApproximation.AnyUpdatesBound`, `MaxApproximation.MergerCanLoseMore`).
- `Clear` zeroes the local rows but not what the server has saved. After any run a rebuilt row is within theta of the live one if and only if no cell saved before the last Clear is still unsaved since; right after a Clear, if and only if nothing was ever saved (`Clearing.ClearCost`, `Clearing.ClearThenCrash`). Count-Min calls it at the end of every window, so a crash can bring an old window back (`Clearing.OldWindowComesBack`).
- A save of one worker can change what another recovers if and only if their ids agree modulo 65536 (`BackupServer.WorkersCollide`); then an item of one is replaced by one of the other (`BackupServer.CollisionLosesSave`).
- The tracker keeps 16 bits of its worker's id and compares them with the full id in the items. A recovery goes through if and only if every last item at the worker's addresses carries the 16-bit id (`BackupServer.RecoveryGoesThroughIff`). So a worker with an id of 65536 or more is ended by its own saves (`BackupServer.OwnSaveEndsRecovery`), and can silently load the state of a worker with a small id (`BackupServer.WrongStateLoads`).
- When output stops, everything pulled has been sent if and only if the last ordinary write took the whole batch and the encoder could hand out the rest in one call (`Engine.OutputEngine.Stop`). Either can fail: `Engine.LossyEngine` reaches an engine that loses bytes although the whole batch is taken.
- A metadata buffer cut right after a property's name or right after its length is accepted (`Metadata.AcceptedIff`, `Metadata.TruncatedIsAccepted`).
- The Count-Min merger reports a key if and only if it is a candidate of some window, so a key that is heavy only in total is missed (`CountMin.ReportIsUnion`, `CountMin.SpreadKeyIsMissed`).
- With signed values, Count-Min estimates are upper bounds for every choice of hash functions into two or more buckets if and only if no key's total is negative (`CountMin.EstimateBoundIff`); with one bucket, if and only if no key's total exceeds the total of all (`CountMin.OneBucketBoundIff`).

## Model

| member | source | states |
|---|---|---|
| `Pipe.YPipe.Write` | src/control_channel/ypipe.hpp:67-78 | an item is appended; it becomes flushable unless incomplete |
| `Pipe.YPipe.Unwrite` | src/control_channel/ypipe.hpp:80-88 | takes back exactly the last item, and only if it was never completed |
| `Pipe.YPipe.Flush` | src/control_channel/ypipe.hpp:92-113 | all completed items are published; false exactly when the reader had gone to sleep with something to publish |
| `Pipe.YPipe.CheckRead` | src/control_channel/ypipe.hpp:118-139 | true exactly when a published item is unread; otherwise the reader is left asleep |
| `Pipe.YPipe.Read` | src/control_channel/ypipe.hpp:143-155 | returns the oldest unread published item |
| `Mailbox.StepKeepsInv` | src/control_channel/mailbox.cpp:48-84 | every atomic step of every sender and of the receiver keeps the mailbox invariant |
| `Mailbox.MailboxSafety` | src/control_channel/mailbox.cpp:48-84 | for every interleaving of n senders: received commands are the written ones in lock order, no assertion fails, the signal count is at most 2 |
| `Mailbox.NoLostWakeup` | src/control_channel/mailbox.cpp:48-84 | an unread command with a passive receiver and no pending signal implies a sender about to flush it or bound to raise the signal |
| `Mailbox.PipeHoldsWhatWasSent` | src/control_channel/mailbox.cpp:48-56 | commands are conserved from send to pipe |
| `Mailbox.QuiescentIsDelivered` | src/control_channel/mailbox.cpp:58-84 | a state with no internal step left has delivered everything |
| `Mailbox.EverythingIsDelivered` | src/control_channel/mailbox.cpp:48-84 | after any run at most a computed number of further steps is possible, and at the end exactly what was sent has been received |
| `Mailbox.MailboxObject.Send` | src/control_channel/mailbox.cpp:48-56 | an uninterrupted send adds exactly its command to the unread ones |
| `Mailbox.MailboxObject.Recv` | src/control_channel/mailbox.cpp:58-84 | an uninterrupted receive succeeds exactly when something is unread |
| `YQueue.PushKeepsGood` | src/control_channel/yqueue.hpp:93-113 | pushing keeps the chain, the layout, and every chunk live, spare or freed exactly once |
| `YQueue.PopKeepsGood` | src/control_channel/yqueue.hpp:146-160 | the same for pop, whose old spare chunk is freed |
| `YQueue.UnpushKeepsGood` | src/control_channel/yqueue.hpp:121-143 | the same for unpush, which frees the chunk it leaves |
| `YQueue.UnpushUndoesPush` | src/control_channel/yqueue.hpp:93-143 | unpush after push gives back positions, addresses and elements, across chunk boundaries |
| `YQueue.PointersArePositions` | src/control_channel/yqueue.hpp:80-90 | distinct elements have distinct addresses, so comparing pointers compares positions |
| `YQueue.PopMeaning` | src/control_channel/yqueue.hpp:146-160 | pop drops the first element of the sequence and changes no other |
| `YQueue.SetMeaning` | src/control_channel/yqueue.hpp:87-90 | a store through back changes the last element only |
| `YQueue.YQueue.Push` | src/control_channel/yqueue.hpp:93-113 | the linked chunks do what the specification says, reusing the spare chunk if there is one |
| `YQueue.YQueue.Unpush` | src/control_channel/yqueue.hpp:121-143 | likewise for unpush |
| `YQueue.YQueue.Pop` | src/control_channel/yqueue.hpp:146-160 | likewise for pop; the sequence loses its first element |
| `YQueue.YQueue.Destroy` | src/control_channel/yqueue.hpp:61-76 | after any use, destruction frees every chunk that is left exactly once and follows no link of a freed one |
| `YQueue.YQueue.Front` | src/control_channel/yqueue.hpp:80-83 | the first element of the sequence |
| `Ring.StepKeepsInv` | src/queues/zerocopy_ringbuffer.hpp:60-137 | every atomic step of writer, reader and flushing threads keeps the ordering of the six counters and the slots between them; a flush stores any index not yet overtaken |
| `Ring.RingIsFifo` | src/queues/zerocopy_ringbuffer.hpp:60-137 | in every run of those steps the ring refines an unbounded queue: delivered is a prefix of inserted and a handed-out slot holds the next item |
| `Ring.TestsAreExact` | src/queues/zerocopy_ringbuffer.hpp:73-121 | the full and empty tests on wrapped indices decide full and empty |
| `Ring.HeldBackTogether` | src/queues/zerocopy_ringbuffer.hpp:83-129 | with all published items read, unpublished writes and reads together stay below one batch |
| `Ring.NeverDeadlocked` | src/queues/zerocopy_ringbuffer.hpp:73-132 | with capacity above the batch size, writer and reader are never both blocked |
| `Ring.SmallRingDeadlocks` | src/queues/zerocopy_ringbuffer.hpp:73-132 | with capacity at most the batch size a run exists that blocks both |
| `Ring.ZeroRingBuffer.Insert` | src/queues/zerocopy_ringbuffer.hpp:73-88 | with room, appends to the log and publishes at batch boundaries |
| `Ring.ZeroRingBuffer.Extract` | src/queues/zerocopy_ringbuffer.hpp:111-121 | the oldest published undelivered item, or none exactly when there is none |
| `Ring.ZeroRingBuffer.Ack` | src/queues/zerocopy_ringbuffer.hpp:123-132 | delivers the extracted item and releases slots at batch boundaries |
| `Ring.ZeroRingBuffer.Flush` | src/queues/zerocopy_ringbuffer.hpp:134-137 | publishes and releases everything held back |
| `RingFlush.StepKeepsInv` | src/queues/zerocopy_ringbuffer.hpp:134-137 | with the loads and stores of any number of flushing threads apart, every step but a store that was overtaken keeps the ring's invariant |
| `RingFlush.CalmFlushIsFifo` | src/queues/zerocopy_ringbuffer.hpp:134-137 | in every run without such a store delivered is a prefix of inserted and a handed-out slot holds the next item |
| `RingFlush.OnlyPublicationOvertakes` | src/queues/zerocopy_ringbuffer.hpp:83-137 | a freshly loaded index is not overtaken, and only publish, release and other flushes move what it is compared with |
| `RingFlush.OvertakenFlushBreaksFifo` | src/thread/compute_thread.hpp:186-198 | a run in which one item is inserted, and it and an unwritten slot are delivered |
| `MeshQueue.InsertIsPush` | src/queues/zerocopy_ringbuffer.hpp:73-88 | an insert into a ring with room is a push of the mesh: visible with every batch-th item |
| `MeshQueue.AckIsPop` | src/queues/zerocopy_ringbuffer.hpp:111-132 | what a ring hands out is the first published item, and the acknowledge takes it away |
| `MeshQueue.TestAndFlush` | src/queues/zerocopy_ringbuffer.hpp:111-137 | nothing is found exactly when nothing is published, and a flush publishes everything |
| `MeshQueue.FiftyAtATime` | src/queues/zerocopy_ringbuffer.hpp:83-88 | of any number of items pushed, whole fifties are visible and the rest waits |
| `MeshQueue.FirstHitFinds` | src/queues/mpsc_queue_mesh_zerocopy.hpp:15-31 | the probing order finds the first ring from the cursor on with something published |
| `MeshQueue.PopServesNearest` | src/queues/mpsc_queue_mesh_zerocopy.hpp:15-31 | a pop serves a ring at most as far from the cursor as any ring with something published |
| `MeshQueue.LockFreeQueue.Pop` | src/queues/mpsc_queue_mesh_zerocopy.hpp:15-31 | the loop is the specified pop; it fails exactly when nothing is published anywhere |
| `MeshQueue.LockFreeQueue.Flush` | src/queues/mpsc_queue_mesh_zerocopy.hpp:33-37 | the loop makes everything written visible |
| `MeshQueue.StepApproaches` | src/queues/mpsc_queue_mesh_zerocopy.hpp:11-37 | any step that does not serve a waiting ring leaves it waiting, and each iteration of a pop brings the cursor strictly closer |
| `MeshQueue.NoStarvation` | src/queues/mpsc_queue_mesh_zerocopy.hpp:11-37 | in every interleaving of pushes, flushes and iterations of pops, a ring with something published is served within fewer iterations than there are rings |
| `MeshQueue.FailedPopMissedNothing` | src/queues/mpsc_queue_mesh_zerocopy.hpp:15-31 | a pop whose iterations all come back empty, whatever is pushed meanwhile, began with nothing published anywhere |
| `MeshQueue.PopIsLooks` | src/queues/mpsc_queue_mesh_zerocopy.hpp:15-31 | the specified pop is its iterations, up to the first that finds something, which moves the cursor on, or to a whole turn |
| `MeshQueue.PopsAreFair` | src/queues/mpsc_queue_mesh_zerocopy.hpp:11-37 | with any pushes and flushes in between, a ring with something published is served within as many whole pops as there are rings |
| `MeshQueue.TwoPopsAlternate` | src/queues/mpsc_queue_mesh_zerocopy.hpp:15-31 | with two items in the first ring and one in the second, the second pop serves the second ring |
| `SlotCirculation.ConnectAll` | src/thread/worker.hpp:254-261 | the worker's connection order gives every endpoint the position its id says |
| `SlotCirculation.TargetBelongs` | src/queues/mpsc_reader_indirect_mesh.hpp:23-25 | the ring that write and acknowledge choose belongs to the right owner |
| `SlotCirculation.SlotsAreConserved` | src/queues/mpsc_writer_indirect_mesh.hpp:12-41 | in every reachable state each slot of each writer is in exactly one place, once |
| `SlotCirculation.AcksReachTheOwner` | src/thread/out_callback_simple.hpp:58-61 | an acknowledge returns its slot to the writer that owns it, into the ring of the returning reader |
| `SlotCirculation.RingsHoldAtMostK` | src/queues/mpsc_writer_indirect_mesh.hpp:35-41 | no ring holds more than the slots of its writer |
| `SlotRings.StepKeepsInv` | src/queues/mpsc_reader_indirect_mesh.hpp:14-25 | every atomic step of every ring keeps the unread items of each ring equal to the slots at its place |
| `SlotRings.HandedSlot` | src/queues/mpsc_writer_indirect_mesh.hpp:12-16 | the slot a ring hands out is the one circulation takes |
| `SlotRings.AcksFindRoom` | src/queues/mpsc_reader_indirect_mesh.hpp:23-25 | in every run an acknowledge finds room with capacity k + batch unless a release is pending, and always with more |
| `SlotRings.AckCanWait` | src/queues/mpsc_writer_indirect_mesh.hpp:35-41 | with less capacity a run exists whose acknowledge finds its ring full, no release pending |
| `SlotRings.AcksFindRoomIff` | src/queues/zerocopy_ringbuffer.hpp:73-88 | every acknowledge of every run finds room if and only if the capacity is at least k + batch |
| `SlotRings.WaitedForWriterCanGoOn` | src/queues/mpsc_writer_indirect_mesh.hpp:12-20 | with capacity above 2 batch + 1 and at most 2 (capacity - batch) - 2 slots, the writer a waiting acknowledge waits for is neither blocked in a write nor without a slot to take |
| `EndOfStream.StepKeepsInv` | src/thread/out_callback_simple.hpp:18-48 | every emit and every pull keeps the end-of-stream invariant |
| `EndOfStream.AllStopped` | src/thread/out_callback_simple.hpp:26-34 | if all marks are counted, every ring's mark has been pulled |
| `EndOfStream.OneFinishAfterAllData` | src/thread/out_callback_simple.hpp:18-48 | for every interleaving and thread count: data in order per thread, one end mark, last, after all data, and it does come |
| `EndOfStream.OutCallbackSimple.PullRecord` | src/thread/out_callback_simple.hpp:18-48 | a pull is one step of that protocol on the ring the mesh picks; 1 is returned with the last mark only, every other mark is acknowledged on the spot |
| `Control.StepKeepsInv` | src/thread/worker.hpp:263-385 | every step of the worker and of any thread keeps the protocol invariant |
| `Control.TakenLink` | src/thread/worker.hpp:303-359 | what the relay takes from a thread is a backup request or its finish, also behind any number of the up thread's unanswered data backups |
| `Control.NoWrongCommand` | src/thread/thread.cpp:88-156 | in every run, data backups of the up thread included, no command-type assertion fails on either side |
| `Control.CountedAll` | src/thread/worker.hpp:300-359 | the stop counter reaches its maximum exactly when all polled threads are finished |
| `Control.RelayEndsExactly` | src/thread/worker.hpp:302-359 | the relay loop ends exactly when every up and compute thread has sent its finish and waits to be cleaned |
| `Control.NeverStuck` | src/thread/worker.hpp:263-385 | in every state but the last a productive step is possible or polling has something to find |
| `Control.SweepFinds` | src/thread/worker.hpp:302-359 | what is pending is found within the current and the next sweep |
| `Control.EventWorks` | src/thread/worker.hpp:263-385 | every productive event uses up work, whatever the backup requests |
| `Control.ProtocolCompletes` | src/thread/worker.hpp:263-385 | productive events are bounded in number and the run goes on until the worker is done |
| `NumericArrays.NumericArrayMax.UpdateValue` | src/operator/array_max.hpp:67-75 | the cell is set and the largest drift and its index are tracked; MaxApproximation.RemembersFirstPeak says which cell that is after any updates |
| `NumericArrays.NumericArrayMax.SerializeState` | src/operator/array_max.hpp:94-104 | the tracked cell is returned and copied to the backup |
| `NumericArrays.NumericArrayMax.RecoveryState` | src/operator/array_max.hpp:106-112 | cell and backup take the recovered value |
| `NumericArrays.NumericArrayMax.Clear` | src/operator/array_max.hpp:82-87 | both rows and the difference are zeroed, the remembered index stays |
| `NumericArrays.NumericArraySum.UpdateValue` | src/operator/array_l1.hpp:57-63 | the kept total changes by the cell's change of distance, absolute for L1 and squared for L2 |
| `NumericArrays.NumericArraySum.SerializeState` | src/operator/array_l1.hpp:82-98 | the first cell of largest distance is returned and copied to the backup |
| `NumericArrays.NumericArraySum.RecoveryState` | src/operator/array_l2.hpp:104-110 | cell and backup take the recovered value |
| `NumericArrays.FirstMaxFound` | src/operator/array_l2.hpp:86-93 | the scan finds the first cell no other exceeds |
| `NumericArrays.DistanceIsRowDistance` | src/operator/array_l2.hpp:61-67 | the distance kept is the sum of absolute differences for L1 and of squared differences for L2 |
| `SavedCells.ReplyRebuildsRow` | src/fault_tolerance/operator_tracker.cpp:39-50 | whatever its order, a reply turns a zeroed row into the row of saved values |
| `MaxApproximation.PassBounded` | src/thread/compute_thread.hpp:338-356 | one update and the check leave every cell within theta of its backup |
| `MaxApproximation.CrashCost` | src/operator/array_max.hpp:67-112 | in every run a rebuilt row is within theta below the live row, and after k crashes the live row within k theta below the crash-free one |
| `MaxApproximation.IdlePassIsQuiet` | src/thread/compute_thread.hpp:338-350 | with theta at least 0 a pass without an update never takes the backup branch and changes nothing, after any additions, passes and crashes |
| `MaxApproximation.AdditionIsSavedIff` | src/thread/compute_thread.hpp:338-356 | after any run an addition has its cell saved, with the new value, if and only if that exceeds the server's value by more than theta |
| `MaxApproximation.IdleBranchIff` | src/thread/compute_thread.hpp:338-350 | after every run whatsoever the next idle pass takes it if and only if theta is negative |
| `MaxApproximation.RemembersFirstPeak` | src/operator/array_max.hpp:67-75 | after any list of updates the array remembers the cell and rise of the first update that lifts a cell furthest above its backup, if that is above what it remembered before |
| `MaxApproximation.RowAfterUpdates` | src/operator/array_max.hpp:67-75 | every cell holds what its last update wrote, or what it held |
| `MaxApproximation.SavesFirstPeak` | src/operator/array_max.hpp:94-104 | so from a state without a remembered difference that cell is saved, with its last value; without a rise, the one remembered before |
| `MaxApproximation.SavedWithoutUpdate` | src/operator/array_max.hpp:82-104 | after a save the next one without an update is of cell 0; after a Clear, of the same cell, with 0 |
| `MaxApproximation.AnyUpdatesBound` | src/thread/compute_thread.hpp:338-356 | any number of updates in either direction keep the bound if and only if no cell but that of the first peak exceeds theta |
| `MaxApproximation.ManyUpdatesBound` | src/thread/compute_thread.hpp:338-356 | if no update lowers its cell, that is: if and only if at most one cell exceeds theta |
| `MaxApproximation.MergerCanLoseMore` | apps/count_min/merge_thread.hpp:62-70 | an item with two equal large counters in one pass has cell 0 saved and breaks the bound in cell 1 |
| `Clearing.StepKeepsInv` | src/operator/array_max.hpp:67-112 | passes, crashes and Clear keep the backup equal to what was saved since the last Clear, every saved value above theta |
| `Clearing.ClearCost` | src/operator/array_max.hpp:82-112 | in every run with Clear a rebuilt row is within theta of the live one if and only if no saved cell dates from before the last Clear |
| `Clearing.ClearThenCrash` | apps/count_min/cm_thread.hpp:82-84 | right after a Clear that is so if and only if nothing was ever saved |
| `Clearing.OldWindowComesBack` | apps/count_min/cm_thread.hpp:82-84 | one large addition, a Clear and a crash bring the addition back |
| `NormApproximation.TriangleL2` | src/operator/array_l2.hpp:61-67 | the inequality that lets squared distances of whole rows be added up |
| `NormApproximation.PassBounded` | src/thread/compute_thread.hpp:338-356 | for L1 and L2 the kept total is the true distance, and backing up the single largest cell brings it to at most theta |
| `NormApproximation.CrashCost` | src/operator/array_l1.hpp:57-106 | in every run, with the distances written out: total exact and at most theta, idle passes change nothing, rebuilt row within theta, and after k crashes within k theta (L1) or k squared theta (L2) of the crash-free row |
| `NormApproximation.AdditionIsSavedIff` | src/thread/compute_thread.hpp:338-356 | after any run an addition has a cell saved if and only if the distance from the server's row then exceeds theta; it is the first of the cells furthest off |
| `BackupServer.OpKeyInjective` | src/fault_tolerance/backup_server.cpp:25-27 | the packed operator key determines worker, thread and operator |
| `BackupServer.PartsDoNotOverlap` | src/fault_tolerance/backup_server.cpp:25-27 | the shifted and bitwise combined word is the sum used for the key, and fits 64 bits |
| `BackupServer.ForeignSaves` | src/fault_tolerance/backup_server.cpp:138-158 | any number of saves of workers with other narrowed ids leave a worker's reply as it is, order included |
| `BackupServer.WorkersCollide` | src/fault_tolerance/backup_server.cpp:141-155 | a save of one worker can change what another recovers if and only if their ids agree modulo 65536 |
| `BackupServer.CollisionLosesSave` | src/fault_tolerance/backup_server.cpp:141-157 | for such ids an item is replaced by the other worker's for the same thread, operator and key |
| `BackupServer.RecoveryGoesThroughIff` | src/fault_tolerance/operator_tracker.cpp:39-50 | no item of the reply is refused if and only if every last item at the worker's addresses carries its id narrowed to 16 bits |
| `BackupServer.SmallIdsGoThrough` | src/fault_tolerance/operator_tracker.cpp:44-46 | with ids below 65536 they all do |
| `BackupServer.LargeIdRefusesItself` | src/fault_tolerance/operator_tracker.cpp:12 | a worker with a larger id and an own last item is refused, whatever the history |
| `BackupServer.OwnSaveEndsRecovery` | src/fault_tolerance/operator_tracker.cpp:44-46 | a single save of such a worker suffices |
| `BackupServer.WrongStateLoads` | src/fault_tolerance/operator_tracker.cpp:44-48 | after a save of such a worker and one of the worker with its narrowed id, it gets the other's item and does not refuse it |
| `BackupServer.SaveIsUpdate` | src/fault_tolerance/backup_server.cpp:42-81 | saving replaces the item of its key, keeps all others, and the slot stays below the capacity |
| `BackupServer.TablesAreDoubled` | src/fault_tolerance/backup_server.cpp:42-75 | after any history every operator's table has the smallest power of two of slots that holds its items |
| `BackupServer.ReplyIsExact` | src/fault_tolerance/backup_server.cpp:175-202 | after any history the reply holds exactly the last item per address of the worker, each once, and as many as the size reply says |
| `ReplyOrder.ReplyIsListed` | src/fault_tolerance/backup_server.cpp:138-202 | the reply lists the worker's operators in the order of their first saves and their cells in that order, each with its last item |
| `BackupServer.BackupDaemon.Save` | src/fault_tolerance/backup_server.cpp:138-158 | a save request takes the tables to those of the extended history |
| `BackupServer.SizeAnnouncesData` | src/fault_tolerance/backup_server.cpp:175-202 | a size reply gives the length of a later data reply, whatever is requested in between except saves for that worker |
| `BackupServer.BackupDaemon.Loop` | src/fault_tolerance/backup_server.cpp:127-203 | every request is answered from the saves before it, and the loop ends with exactly the n-th end request |
| `BackupServer.BackupDaemon.RecoverySize` | src/fault_tolerance/backup_server.cpp:175-184 | the number of items in the reply |
| `BackupServer.BackupDaemon.RecoveryData` | src/fault_tolerance/backup_server.cpp:185-202 | the reply, copied without leaving the buffer of the counted size |
| `BackupServer.ReplyListsCells` | src/fault_tolerance/backup_server.cpp:185-202 | what a worker gets for one operator lists that operator's saved cells |
| `BackupServer.RecoverOps` | src/fault_tolerance/operator_tracker.cpp:39-50 | every item goes to the operator it was saved from, of whatever kind; the process ends exactly if some item carries another id than the worker's narrowed one |
| `BackupServer.RecoveryIsLastSaved` | src/fault_tolerance/operator_tracker.cpp:39-50 | after recovery an operator holds the last saved value of each cell and 0 elsewhere |
| `Operators.InvIsInductive` | src/operator/ft_interface.hpp:20-30 | the invariant of one operator of kind MAX, L1 or L2 holds at the start, survives additions and crashes, settles every check and gives the crash bounds of its kind |
| `WorkerRecovery.StepProjects` | src/thread/compute_thread.hpp:338-356 | the check of one operator is a step of its own system and invisible to every other |
| `WorkerRecovery.CheckOperators` | src/thread/compute_thread.hpp:338-356 | the loop over a thread's operators does the checks of the model one by one and sends their requests in order |
| `WorkerRecovery.RepliesAlwaysFit` | src/thread/worker.hpp:278-282 | only existing cells are saved, so a reply always fits the operators |
| `WorkerRecovery.CrashIsPossibleIff` | src/thread/worker.hpp:278-282 | a recovery goes through if and only if the worker's id is below 65536 or it has saved nothing |
| `WorkerRecovery.WorkerCrashCost` | src/thread/worker.hpp:278-282 | for a whole worker with operators of kinds MAX, L1 and L2 and saves of other workers in between: what the server holds rebuilds every operator within theta, after k crashes the live one is within the bound of its kind of the crash-free run, and exactly when a recovery goes through |
| `Replay.AdapterRecovery.FindStart` | src/fault_tolerance/adapter_recovery.hpp:83-95 | the smallest index from which all sequence numbers are consecutive in 64-bit arithmetic |
| `Replay.AdapterRecovery.Init` | src/fault_tolerance/adapter_recovery.hpp:57-102 | for every well-formed log the cursor stands at the record with that index |
| `Replay.AdapterRecovery.ReadRecord` | src/fault_tolerance/adapter_recovery.hpp:115-128 | the next record, or end of data exactly when none is left |
| `Replay.AdapterRecovery.ReadAll` | src/fault_tolerance/adapter_recovery.hpp:115-128 | reading to the end gives exactly the records left, in order |
| `Replay.ReplayCountsUp` | src/fault_tolerance/adapter_recovery.hpp:83-95 | the replayed sequence numbers count up from the first, wrapping at 64 bits |
| `Wire.GetPut` | src/net/wire.hpp:54-94 | reading back a written integer gives it |
| `Wire.PutGet` | src/net/wire.hpp:54-94 | writing what was read gives the same bytes |
| `Wire.PutByte` | src/net/wire.hpp:54-82 | each byte is the shift and mask of the source |
| `Framing.FlagsRoundTrip` | src/net/v2_decoder.cpp:47-63 | the flags byte gives back more, large and command |
| `Framing.FrameBytes` | src/net/v2_encoder.cpp:37-75 | the bytes of a frame as numbers: flags 1, 2 and 4, a length of one byte up to 255 and of eight above, the body |
| `Framing.FlagsDecoded` | src/net/v2_decoder.cpp:47-63 | for every flags byte, the stage reached and the two flags by its bits 1, 0 and 2 |
| `Framing.FeedAppend` | src/net/decoder.hpp:94-133 | how the received bytes are cut does not matter |
| `Framing.FeedFrame` | src/net/v2_decoder.cpp:47-137 | a frame gives back its message, or fails exactly when there is a limit and it is larger |
| `Framing.StreamRoundTrip` | src/net/v2_decoder.cpp:47-137 | a stream of frames gives back its messages up to the first one too large, and fails exactly if there is one |
| `Framing.PrefixRoundTrip` | src/net/v2_decoder.cpp:47-137 | any part of the stream decodes to first messages only |
| `Framing.V2Decoder.Decode` | src/net/decoder.hpp:94-133 | on the direct and the copying path, the reference decoder on the consumed bytes; the source's assertion on a direct read is its precondition, met by InEvent |
| `Engine.V2Encoder.LoadMsg` | src/net/v2_encoder.cpp:37-75 | the frame of the message remains to be handed out |
| `Engine.V2Encoder.Encode` | src/net/encoder.hpp:71-136 | result and remainder are what remained; the record is acknowledged exactly when the message is left; the result points into the message exactly when the own buffer is used and the first piece fills it |
| `Engine.OutputEngine.PullAndEncode` | src/net/stream_engine.cpp:435-450 | no message is in progress at load, each encode gives at least one byte |
| `Engine.OutputEngine.FillBatch` | src/net/stream_engine.cpp:412-463 | sent, batched and remaining bytes are the frames pulled; every slot but the one in progress is acknowledged once, in order |
| `Engine.OutputEngine.OutEvent` | src/net/stream_engine.cpp:412-482 | the same for any short write, with progress whenever the socket takes something and a byte is left in the batch, the queue or the encoder |
| `Engine.OutputEngine.Stop` | src/net/stream_engine.cpp:470-495 | when output stops, everything pulled is sent if and only if the write took the batch and the rest goes in one call |
| `Engine.LossyEngine` | src/net/stream_engine.cpp:470-495 | an engine is reached whose rest does not go in one call, so that bytes are lost even if the whole batch is taken |
| `Engine.InputEngine.InEvent` | src/net/stream_engine.cpp:220-401 | a read of any length into the buffer the decoder asks for is consumed, or decoding has failed; a direct read never exceeds what the message needs |
| `Engine.EndToEnd` | src/net/stream_engine.cpp:220-482 | delivered messages are always the first ones pulled, with their flags, and all of them once all bytes arrived |
| `Handshake.StepKeepsInv` | src/net/stream_engine.cpp:582-774 | every read and write of either side keeps the handshake invariant |
| `Handshake.GreetingBytes` | src/net/stream_engine.cpp:180-188 | the 64 bytes of the greeting by position: the identity's length plus 1, version 3.0, NULL, zeros |
| `Handshake.GreetingsAreExact` | src/net/stream_engine.cpp:582-774 | in every run a side that left the handshake produced exactly these 64 bytes and consumed exactly the peer's |
| `Handshake.AnyPeerIsJudged` | src/net/stream_engine.cpp:582-774 | against a peer that sends any bytes in any pieces: old, mismatched or accepted, and what has been answered, by the bytes received alone; output is polled exactly while something is unsent |
| `Handshake.HandshakeCompletes` | src/net/stream_engine.cpp:582-774 | at most 256 moves, and no move left only when both sides are done |
| `Handshake.EveryStepProgresses` | src/net/stream_engine.cpp:582-774 | each read and write of greeting bytes brings the end closer |
| `Handshake.GreetingEngine.Answer` | src/net/stream_engine.cpp:618-656 | the answer never leaves the 64-byte buffer, whatever the peer sent |
| `Handshake.GreetingEngine.Receive` | src/net/stream_engine.cpp:587-657 | one read of any size is one step of the exchange |
| `Handshake.GreetingEngine.Write` | src/net/stream_engine.cpp:470-505 | one write of any size is one step of the exchange |
| `Metadata.Mechanism.AddProperty` | src/net/mechanism.cpp:59-73 | the property's wire form is written in place, nothing else changes, its size is returned |
| `Metadata.Mechanism.ParseMetadata` | src/net/mechanism.cpp:75-124 | the cursor loop computes the verdict and the identity of the specification |
| `Metadata.PropertiesRoundTrip` | src/net/mechanism.cpp:59-124 | an encoded list is judged exactly as the list |
| `Metadata.AcceptedIff` | src/net/mechanism.cpp:75-124 | a buffer is accepted exactly if it is whole properties that pass their checks and an allowed tail |
| `Metadata.TruncatedIsAccepted` | src/net/mechanism.cpp:90-91 | a buffer that is no list of properties is accepted |
| `Metadata.OtherTruncations` | src/net/mechanism.cpp:80-117 | a buffer cut after a non-zero length is accepted; cut within a name, a length or a value it is a protocol error |
| `Metadata.CheckIsExact` | src/net/mechanism.cpp:134-163 | which names, letter by letter, each socket type accepts, and no others |
| `Metadata.ReadyIsLiteral` | src/net/null_mechanism.cpp:86-96 | the names and values of a READY command's properties, letter by letter |
| `Metadata.ReadyBytes` | src/net/mechanism.cpp:59-73 | the 20 bytes of metadata a PUSH and a PULL socket send |
| `Metadata.PushMeetsPull` | src/net/mechanism.cpp:147-150 | a PUSH and a PULL socket accept each other's |
| `Metadata.NamesAreExact` | src/net/mechanism.cpp:134-163 | a type name passes the check exactly for the types that talk to each other |
| `Metadata.PeersAgree` | src/net/null_mechanism.cpp:86-96 | two sockets accept each other's command or both refuse, and learn the identity exactly if it is sent and wanted |
| `CountMin.EstimateIsUpperBound` | apps/count_min/cm_sketch.hpp:70-82 | with non-negative values an estimate is never below the key's true sum |
| `CountMin.EstimateBoundIff` | apps/count_min/cm_sketch.hpp:70-82 | for signed values and two or more buckets this holds for all hash functions and keys if and only if no key's total is negative |
| `CountMin.OneBucketBoundIff` | apps/count_min/cm_sketch.hpp:70-82 | for one bucket if and only if no key's total exceeds the total of all values |
| `CountMin.CellSplits` | apps/count_min/cm_sketch.hpp:45-59 | a cell is a key's total, if the key falls into it, plus the cell of the other keys' tuples |
| `CountMin.EstimateIsLeast` | apps/count_min/cm_sketch.hpp:70-82 | nor above the key's cell in any row |
| `CountMin.Sketch.UpdateSketch` | apps/count_min/cm_sketch.hpp:45-59 | the cells are those of the longer stream and the new estimate is returned |
| `CountMin.Sketch.GetEstimate` | apps/count_min/cm_sketch.hpp:70-82 | the estimate of the stream so far |
| `CountMin.CandidatesComplete` | apps/count_min/cm_thread.hpp:96-101 | every key whose sum passes the threshold is a candidate |
| `CountMin.CandidatesSound` | apps/count_min/cm_thread.hpp:96-101 | every candidate's estimate is above the threshold from then on |
| `CountMin.CandidateIff` | apps/count_min/cm_thread.hpp:96-101 | for values of either sign, a key is a candidate if and only if right after one of its tuples its estimate was above the threshold or negative |
| `CountMin.PackedAddsCells` | apps/count_min/cm_thread.hpp:66-73 | the packed counters add back every non-negative cell and nothing else |
| `CountMin.PackedIsExact` | apps/count_min/cm_thread.hpp:66-73 | the packed counters are exactly the positive cells, in the order of their numbers |
| `CountMin.CellAppend` | apps/count_min/merge_thread.hpp:64-70 | the sketch of two streams in a row is the sum of their sketches |
| `CountMin.ReportedIff` | apps/count_min/merge_thread.hpp:71-79 | for values of either sign, a key is reported if and only if some window has it as a candidate and its merged estimate then is above the threshold or negative |
| `CountMin.ReportIsUnion` | apps/count_min/merge_thread.hpp:71-79 | without negative values the merger reports exactly the candidates of its windows |
| `CountMin.HeavyKeysAreReported` | apps/count_min/merge_thread.hpp:71-79 | a key above the threshold in one window is reported |
| `CountMin.ReportedAreHeavy` | apps/count_min/merge_thread.hpp:71-79 | a reported key's merged estimate is above the threshold |
| `CountMin.SpreadKeyIsMissed` | apps/count_min/merge_thread.hpp:71-79 | a key above the threshold only in total is not reported |
| `CountMinItem.CMItem.AppendCounter` | apps/count_min/cm_item.hpp:15-21 | the counter is added behind the others, within the buffer |
| `CountMinItem.CMItem.AppendHH` | apps/count_min/cm_item.hpp:23-27 | the key is added behind the others, within the buffer |
| `CountMinItem.CMItem.GetCounter` | apps/count_min/cm_item.hpp:29-34 | the counter appended n-th |
| `CountMinItem.CMItem.GetKey` | apps/count_min/cm_item.hpp:36-39 | the key appended n-th |
| `CountMinThreads.SmallWindowFits` | apps/count_min/cm_item.hpp:5-10 | at most 8000 cells and 100 candidates always fit, and exactly that many fill the buffer |
| `CountMinThreads.ComputeThread.TerminateWindow` | apps/count_min/cm_thread.hpp:61-85 | the item summarises the window and the thread starts afresh |
| `CountMinThreads.ComputeThread.ProcessData` | apps/count_min/cm_thread.hpp:87-108 | the candidates stay those of the window, and an item is emitted exactly when the byte count passes the window |
| `CountMinThreads.MergeThread.ProcessData` | apps/count_min/merge_thread.hpp:62-80 | after any number of items the sketch is that of the concatenated windows and the report that of the specification |
| `SketchRecovery.StepKeepsInv` | apps/count_min/cm_sketch.hpp:45-59 | tuples, idle passes and crashes keep every row within crashes times theta below the cells of the whole stream |
| `SketchRecovery.SketchCrashCost` | apps/count_min/cm_sketch.hpp:45-82 | after k crashes every estimate is at most k theta below the crash-free one, never above it, and at most k theta below the key's true sum |
| `SketchRecovery.HeavyKeysSurvive` | apps/count_min/cm_thread.hpp:96-101 | a key whose sum exceeds the threshold by more than k theta still passes it |

## Left out

- Sockets, polling, timers, address resolution, logging, configuration parsing and the coordination service: input and output are chunks of arbitrary size.
- Weak memory ordering and fork detection in the signaler: memory is sequentially consistent.
- Double rounding of the divergence: values and thresholds are exact integers.
- Overflow of the arrays' and the sketch's value types: cells are unbounded; packed items require cells within a signed 64-bit word and keys within 64 bits, and thresholds are below 2 to the 63.
- NumericArrays.NumericArraySum.SerializeState: takes the array length to be the constructor's argument, because the source reads a field there that its constructor does not set.
- MaxApproximation.CrashCost: runs without Clear and with one update per operator and pass, because the bound fails otherwise; Clearing.ClearCost and AnyUpdatesBound give the exact conditions.
- MaxApproximation.ManyUpdatesBound: no update lowers its cell; AnyUpdatesBound is the statement without that.
- NormApproximation.CrashCost: runs without Clear, which no application calls on an L1 or L2 array.
- WorkerRecovery.WorkerCrashCost: additions to MAX arrays are non-negative, those to L1 and L2 arrays are of either sign; no Clear.
- SketchRecovery.SketchCrashCost: values are non-negative and one window is followed, because Clear breaks the bound (Clearing.ClearThenCrash).
- Clearing.ClearCost: additions are non-negative and there is one update per pass, as in MaxApproximation.CrashCost.
- BackupServer.BackupDaemon.RecoveryData: items carry their value as a number instead of a byte buffer.
- Ring.ZeroRingBuffer.Insert: reports a full ring where the source spins until the reader moves; the spinning steps are those of the state machine.
- Ring.RingIsFifo: a flush by another thread stores an index not yet overtaken, because it is false otherwise (RingFlush); the same holds of Ring.StepKeepsInv, Ring.TestsAreExact, Ring.NeverDeadlocked and the results over rings in MeshQueue and SlotRings.
- RingFlush.CalmFlushIsFifo: one way, because an overtaken store can be harmless: the index may have gone a whole turn round the ring, or the slot may hold an equal item.
- MeshQueue.LockFreeQueue.Flush: the release of read slots by the same flush, which changes nothing a lane shows.
- SlotRings.AckCanWait: its run publishes returned slots by the first store of a flush whose second store is still to come; the two are separate steps.
- CountMinThreads.ComputeThread.TerminateWindow: requires the item to fit its buffer, because the source writes without looking; SmallWindowFits says when it does.
- CountMin.CandidatesComplete: values are non-negative, as for the soundness of candidates and for ReportIsUnion; CandidateIff and ReportedIff are the statements without that, where a negative estimate counts as above the threshold in the source's unsigned comparison.
- CountMinItem.CMItem.AppendCounter: requires room in the buffer and counters before keys, because the source writes without looking; AppendHH likewise requires room.
- CountMinItem.CMItem.AppendHH: requires room in the buffer, because the source writes without looking.
- CountMinThreads.ComputeThread.ProcessData: requires the item of a closing window to fit its buffer, for the same reason.
- CountMinThreads.MergeThread.ProcessData: requires the window's cells to be non-negative, because packing leaves negative cells out.
- Replay.AdapterRecovery.Init: logs are well formed, because the source follows lengths without checking them.
- Control.ProtocolCompletes: assumes that the threads' main handlers end and that polling goes on.
- EndOfStream.OutCallbackSimple.PullRecord: the flush of the acknowledge rings at an end mark, which moves no item of the stream.
- EndOfStream.OneFinishAfterAllData: a compute thread writes nothing after its own end mark, as the callers do.
- Engine.OutputEngine.Stop: the final loop's writes are taken to succeed eventually; the source does not look at their result.
- Handshake.HandshakeCompletes: two peers of this version with the NULL mechanism; what older peers send after the greeting is not followed.
- ZeroRingBuffer's Size, GetSlot and CompleteWrite, and MPSCWriter's Clean: the first and last read fields that are never set, the others split Insert in two.
- InCallbackSimple, the minibatch, upbackup and error up-threads, the hash map and set operators: no general statement holds of the first, the others need headers that are not there or do not compile.
- The internals of the hash function, message reference counting, allocation failure: hashes are arbitrary functions below the width, messages are values.
- The compute thread's main loop beyond its operator checks and end marks: it would only add dispatch.
