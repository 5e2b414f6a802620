# Verified models of ebpf-syscall

This project models the parts of ebpf-syscall, a set of Linux I/O capture, replay and analysis tools, whose correctness is not visible from one function: the concurrent replay engine, the NVMe passthrough load generator, the joins that put device commands and KV-cache operations on one time line, the page heat map, the log filter and the block-trace analyser. Every model follows the control flow of the code it cites; code that updates state in place is a class or a method with loops, code that computes a value is a function. Each is tied to a specification that does not mention its own loop: a history, a set, an all-pairs definition, an optimum, a count.

`dafny verify dfyconfig.toml` checks everything.

## What is modelled

- **Write barrier** (`Barrier.dfy`). The counters of the flexible barrier as an object, and every interleaving of arrivals, wake-ups, timeouts and exits of any number of workers as a state machine. A generation closes only when every registered worker has arrived in it. A waiter that times out after its generation was closed is charged to the next one, and from then on the barrier never opens again: over every run the generation is frozen, and every arrival waits out its 10 ms. The barrier can open again if and only if no such timeout is charged and two workers are left.
- **Replay engine** (`RingBuffer.dfy`, `Replay.dfy`, `ReplayCounters.dfy`, `ReplayProgress.dfy`). The bounded queue with its 32-bit wrapped count, the worker pool with its fold onto worker 0, and the reader and workers in every interleaving, with the write barrier between taking and dispatching an I/O record: per-pid order, conservation of every record, freedom from deadlock, termination. Every run of the engine is a run of the barrier protocol while the pool is within the parties counted; for every pool the barrier closes a generation safely if and only if workers = parties + late timeouts, and it is frozen below that. The states that only a 10 ms timeout can leave are characterised exactly, with reachable instances.
- **Descriptor and mmap tables of the replayer** (`Probing.dfy`, `FdMap.dfy`, `PendingMmap.dfy`) and the **page tally** of the read-amplification tool (`PageTally.dfy`). Four open-addressing tables against maps and histories, with the exact conditions under which clearing, collisions, a full table or a full stack change an answer.
- **Slot scheduler** of the NVMe load generator (`Bitmap.dfy`, `SlotScheduler.dfy`, `LatencyStats.dfy`). Whatever the ring completes in whatever order, free slots and slots in flight partition all slots, at most the queue depth is in flight, no self-check fires, and each latency is completion minus submission in the schedule that the ring alone decides; percentiles are nearest-rank.
- **Trace joins** (`Sorting.dfy`, `Pairing.dfy`, `Lanes.dfy`, `OffsetJoin.dfy`). Completion pairing is a maximum matching and nests; lane assignment is an optimal interval colouring; the indexed offset join is the join over all pairs.
- **Page heat map** (`Coalesce.dfy`, `PageBlocks.dfy`). Coalesced spans cover exactly the mapped bytes, and the blocks count every distinct file page of the scanned VMAs once; nothing is missed if and only if, in each merged run, the VMAs beyond the first 64 map no page of their own.
- **Log filter** (`LogFilter.dfy`). The output is a permutation of the kept records in which only writes that must wait for their openat move, each to right behind the first openat of its descriptor or, if there is none, to the end.
- **Block-trace analyser** (`Lifecycle.dfy`, `IndirectionUnits.dfy`, `ExtentBins.dfy`, `Scaling.dfy`). Request lifecycles are first in, first out; indirection units touched are the ideal number or one more; bytes split over address bins are conserved exactly when no split request ends past eight medians and starts before the last bin.
- **Wire encodings** (`Wire.dfy`, `KvKeys.dfy`). Trace id, sequence, address, block count and key survive encoding and tracing exactly under the bounds that the generator checks. The field layout is that of the Read command in section 3.2.4 of the NVM Express NVM Command Set Specification 1.0 and of the Store and Retrieve commands in section 3.2 of the NVM Express Key Value Command Set Specification 1.0c.

`Wrappers.dfy` holds the option type and `SetSizes.dfy` the cardinality lemmas that several of them use.

## Where code and documentation differ

- The comment on the barrier says its 10 ms timeout only guards against crashed workers. A timeout that races with a release lowers the count of the next generation, and after one such timeout no generation ever closes again (`FrozenForever`, `LateTimeoutCanStrand`). Without any race or crash, a process with no record to replay for the moment holds up all others for 10 ms per I/O record (`OnlyTimeoutsIff`, `FullQueueHalts`, `AbsentProcessHalts`).
- The barrier is documented to block until all active workers arrive. The count it starts from skips pid 0, which the worker pool serves, and then it opens before all have arrived (`UncountedWorkerBreaksBarrier`, `ClosesOnlyWhenAllArrived`).
- The address-bin accumulator documents that split bytes add up to the request size. They do not when a split request ends past eight medians and starts before the last bin (`OutlierLosesBytes`, `FittedConservesIff`).
- The offset join documents one extent per slot. With several, it uses the first, and commands inside a longer one lose their operation (`LongerExtentIsLost`, `ExactIffOneExtent`).
- The heat map documents that overlapping VMAs all stay scanning sources of their span; only the first 64 do (`SixtyFifthIsNotScanned`, `AllCountedIff`).

## Model

| member | source | states |
|---|---|---|
| BarrierProtocol.FlexBarrier.constructor | syscall_replayer.c:88-97 | a new barrier is in the initial state of the protocol: all workers registered, none waiting, generation 0 |
| BarrierProtocol.FlexBarrier.Arrive | syscall_replayer.c:106-124 | keeps the protocol invariant; a lone worker passes; the arrival frees all waiters if and only if every other registered worker waits and no late timeout is charged; otherwise it joins the waiters of the generation it read |
| BarrierProtocol.FlexBarrier.Leaves | syscall_replayer.c:138-141 | a waiter leaves if and only if its generation is closed |
| BarrierProtocol.FlexBarrier.TimeOut | syscall_replayer.c:138-148 | keeps the invariant; the waiter is gone, and it is charged to the current generation if and only if it was not waiting for that one |
| BarrierProtocol.FlexBarrier.Unregister | syscall_replayer.c:155-169 | keeps the invariant; the exit frees all waiters if and only if all others wait and no late timeout is charged |
| BarrierProtocol.StepKeepsInv | syscall_replayer.c:106-169 | every step keeps: active = registered workers, waiting = workers blocked on the current generation minus late timeouts, and waiting stays below active |
| BarrierProtocol.RunKeepsInv | syscall_replayer.c:106-169 | that invariant holds after every run of arrivals, wake-ups, timeouts and exits |
| BarrierProtocol.AdvancesIff | syscall_replayer.c:119-124 | a step advances the generation if and only if every other registered worker waits on it and no late timeout was charged to it |
| BarrierProtocol.WaiterArrived | syscall_replayer.c:116-149 | whoever waits on the current generation arrived during it and has done nothing since |
| BarrierProtocol.AdvanceOnlyWhenAllArrived | syscall_replayer.c:106-169 | over every run: when the generation advances, each worker still registered made the opening arrival or arrived in the closed generation and waited ever since |
| BarrierProtocol.StrandedMeansOnlyTimeouts | syscall_replayer.c:138-148 | only timeouts can happen if and only if all registered workers wait on the current generation |
| BarrierProtocol.NeverStranded | syscall_replayer.c:155-169 | over every run and exit order: with no late timeout charged, the workers are not stranded |
| BarrierProtocol.LastStepStrandsIff | syscall_replayer.c:119-167 | the arrival or exit that completes a generation strands everyone if and only if a late timeout was charged to it |
| BarrierProtocol.ReleaseIsReachable | syscall_replayer.c:106-150 | from every reachable state with no late timeout charged, arrivals and wake-ups alone free all blocked workers |
| BarrierProtocol.FrozenForever | syscall_replayer.c:106-169 | over every run: once a late timeout is charged, or fewer than two workers are left, the generation never changes again |
| BarrierProtocol.OpensAgainIff | syscall_replayer.c:106-169 | some run opens the barrier again if and only if no late timeout is charged and at least two workers are left |
| BarrierProtocol.LateTimeoutCanStrand | syscall_replayer.c:138-148 | a five-step run in which a late timeout strands two workers for good: no continuation ever opens the barrier |
| RingBuffer.RingBuf.constructor | syscall_replayer.c:556-562 | a new queue is empty and open |
| RingBuffer.RingBuf.Count | syscall_replayer.c:570-575 | the difference taken modulo 2^32 and then 4096 is the number of queued records |
| RingBuffer.RingBuf.Shutdown | syscall_replayer.c:577-583 | shutdown keeps the queued records |
| RingBuffer.RingBuf.Enqueue | syscall_replayer.c:585-600 | appends at the end; blocks exactly when 4095 records are queued; refused exactly after shutdown |
| RingBuffer.RingBuf.Dequeue | syscall_replayer.c:602-618 | returns the oldest record; blocks exactly when empty and open; reports the end exactly when empty and shut down |
| Replay.PoolGet | syscall_replayer.c:1402-1444 | the lookup loop returns the routing function's worker |
| Replay.RouteFromSpec | syscall_replayer.c:1402-1444 | that is the first worker with the pid, else a new one, else worker 0 of a full pool of 256 |
| Replay.OwnershipStable | syscall_replayer.c:1402-1444 | a pid once routed keeps its worker as the pool grows, also after folding |
| Replay.RunKeepsInv | syscall_replayer.c:1402-1616 | every run of reads, arrivals, wake-ups, timeouts, dispatches and exits keeps: what was routed to a worker is what it dispatched plus what it holds and has queued, in order, and its counters classify its dispatches |
| Replay.PidOrderPreserved | syscall_replayer.c:1479-1616 | in every interleaving, what was dispatched of a pid is a prefix, in file order, of its records routed so far |
| Replay.OfPidLists | syscall_replayer.c:1479-1616 | the records of a pid in file order: record j stands behind as many as there are records of its pid before it |
| Replay.ByWorkerLists | syscall_replayer.c:1479-1616 | the dispatches of a worker in log order, in the same way |
| Replay.Totals | syscall_replayer.c:1446-1463 | the summing loop adds the counters of all workers, field by field |
| Replay.TotalsCountLog | syscall_replayer.c:1446-1600 | in every reachable state each summed counter is the number of dispatches of the whole log that ended in its class, the class read off the return value, the verification flag, the call number and the captured return |
| Replay.ClassCountIs | syscall_replayer.c:1550-1607 | a worker's count of a class is the number of its own dispatches that ended in it, by return value, mode and captured return |
| Replay.SerialKeepsFileOrder | syscall_replayer.c:1402-1408 | in serial mode, in every interleaving, there is one worker at most and what was dispatched is a prefix of the capture across all pids |
| Replay.FinishedRunIsComplete | syscall_replayer.c:1446-1607 | a finished run dispatched every pid's records completely and in order; total = ok + failed + skipped + mismatch = records in the capture, each of the four is the number of dispatches that ended so, and each worker's counters are its own class counts |
| Replay.SomebodyCanMove | syscall_replayer.c:1479-1616 | no deadlock with the barrier and its timeout included: a reachable state is finished if and only if no step is enabled |
| Replay.RunsAreFinite | syscall_replayer.c:1479-1616 | no run, with its arrivals, wake-ups and timeouts, is longer than the work left, so every maximal run finishes |
| ReplayProgress.CountPids | syscall_replayer.c:1720-1742 | the pre-pass counts the distinct non-zero pids, 256 at most |
| ReplayProgress.PoolWithinParties | syscall_replayer.c:1382-1444 | if the pids counted include those of all records, the pool never has more workers than the barrier has parties |
| ReplayProgress.RunRefines | syscall_replayer.c:1479-1616 | while the pool is within the parties, every run of the engine performs a run of the barrier protocol |
| ReplayCounters.CountersMean | syscall_replayer.c:106-169 | in every reachable state and for every pool: active = parties less exits, waiting = workers at the barrier less late timeouts, and waiting stays below active |
| ReplayCounters.ClosesOnlyWhenAllArrived | syscall_replayer.c:1545-1616 | a step of the engine closes a generation only when workers >= parties + late timeouts, and then every other worker waits for it or has exited if and only if workers = parties + late timeouts |
| ReplayCounters.FrozenInEngine | syscall_replayer.c:106-169 | over every run of the engine: while workers < parties + late timeouts no generation closes; so after one late timeout, in a pool within the parties, none ever does |
| ReplayCounters.UncountedWorkerBreaksBarrier | syscall_replayer.c:1720-1742 | a reachable state with a record of pid 0: the barrier opens while a live worker still has its write queued |
| ReplayProgress.OnlyTimeoutsIff | syscall_replayer.c:1479-1616 | only a timeout can move the engine if and only if some worker waits for the current generation, every other one waits too, sleeps on its empty queue or has exited, and the reader is blocked on a full queue or done |
| ReplayProgress.HaltNeedsAbsentee | syscall_replayer.c:1382-1395 | with no late timeout charged, such a halt means that a party has no worker or its worker sleeps on an empty queue |
| ReplayProgress.DrainsWithoutTimeouts | syscall_replayer.c:1446-1616 | once everything is routed, with every party present and no late timeout charged, the replay can finish without any timeout |
| ReplayProgress.FullQueueHalts | syscall_replayer.c:585-600 | a reachable halt: the reader is blocked on the full queue of a worker that waits for a process whose first record is not read yet |
| ReplayProgress.AbsentProcessHalts | syscall_replayer.c:1720-1742 | a reachable halt: the barrier waits for a process that the pre-pass counted and that has no record |
| Probing.Probe | syscall_replayer.c:388-409 | the probe loop stops at the first matching or vacant slot of the key's path |
| Probing.LocateFromPath | syscall_replayer.c:354-386 | the slot found ends a path of other keys; none is found only in a full table without the key |
| Probing.AtCovers | syscall_replayer.c:354-386 | a probe path visits every slot |
| PendingMmap.PendingTable.Set | syscall_replayer.c:354-386 | stores the arguments at the first matching or free slot, or fails on a full table |
| PendingMmap.PendingTable.Get | syscall_replayer.c:388-409 | returns what the key's probe path leads to, stopping at a hole |
| PendingMmap.PendingTable.Clear | syscall_replayer.c:411-430 | vacates the key's slot without moving any other |
| PendingMmap.LookupSound | syscall_replayer.c:346-430 | after every run of sets and clears, a lookup returns nothing or exactly the arguments stored for that key |
| PendingMmap.SlotsWereSet | syscall_replayer.c:354-386 | whatever a slot holds was stored by a set of the run |
| PendingMmap.StoredStays | syscall_replayer.c:346-430 | a stored entry is never overwritten by another key |
| PendingMmap.LookupFindsIff | syscall_replayer.c:388-409 | a stored, uncleared key is found if and only if no earlier slot of its path is vacant |
| PendingMmap.EmptiedMeans | syscall_replayer.c:354-430 | a slot was vacated since if and only if some later operation vacated it when it ran |
| PendingMmap.MissIsExplained | syscall_replayer.c:354-430 | after a successful set, a key that was not cleared is missed only if an earlier slot of its path was cleared after it was stored |
| PendingMmap.ClearHidesCollidingKey | syscall_replayer.c:411-430 | of any two colliding keys, clearing the first hides the second |
| PageTally.RecordPage | mmap_readamp.c:336-343 | one page key bumps its file's bucket, opens one, or is dropped when all are taken |
| PageTally.TallyPages | mmap_readamp.c:326-346 | after the walk each bucket holds the number of pages of its file, and the buckets sum to the pages walked if and only if there are at most 2^18 files |
| PageTally.ExactIffFits | mmap_readamp.c:326-346 | the table is the exact per-file count if and only if the files fit; no file has two buckets |
| FdMap.FdTable.Get | syscall_replayer.c:641-661 | returns the top of the captured fd's stack, or -1 |
| FdMap.FdTable.Set | syscall_replayer.c:663-704 | pushes the replay fd on the captured fd's stack, overwriting the top of a full one; a negative replay fd pops, and frees an emptied bucket |
| FdMap.PopIsClearOfTop | syscall_replayer.c:677-682 | popping a captured fd is clearing the replay fd it means |
| FdMap.FdTable.ClearFd | syscall_replayer.c:706-744 | removes the topmost entry of that replay fd, keeps the order of the others, frees an emptied bucket |
| FdMap.FdTable.RemoveAt | syscall_replayer.c:723-741 | the shift loop removes exactly entry j of one stack and touches no other bucket |
| FdMap.WithoutLastAt | syscall_replayer.c:716-741 | removing the last occurrence is removing the greatest index that holds it |
| FdTranslation.PidTable.Slot | syscall_replayer.c:746-771 | the first slot of the pid, else the first free slot, else none |
| FdTranslation.LatestIsTop | syscall_replayer.c:641-744 | the stack of open, unclosed replay fds and the backward scan over the history agree at every depth |
| FdTranslation.ExecSim | syscall_replayer.c:641-771 | after every history within the limits, opens stored under -1 included, each bucket holds exactly the unclosed opens of its fd or a captured value that no lookup asks for |
| FdTranslation.ResolvesToLatestUnclosed | syscall_replayer.c:951-959 | a captured fd resolves to the replay fd of its latest open not yet closed by the same pid, and to -1 otherwise |
| FdTranslation.OtherPidsDoNotMatter | syscall_replayer.c:746-771 | no history of other pids changes the answer |
| FdTranslation.OpenCloseRestoresIff | syscall_replayer.c:663-744 | an open followed by its close restores the answer if and only if the stack had room or its two topmost entries are equal |
| FdTranslation.FullStackForgets | syscall_replayer.c:680-704 | the 65th nested open replaces the 64th |
| FdTranslation.OutOfRangeFdHides | syscall_replayer.c:622-625 | captured values that share a bucket do harm: 65536 displaces small fds, and closing one hides another |
| FreeSlots.FreeSlotQueue.constructor | nvme_uring_cmd_smoke.c:977-987 | all slots are free, in ascending order |
| FreeSlots.FreeSlotQueue.Take | nvme_uring_cmd_smoke.c:989-997 | takes the oldest free slot, fails exactly when none is free |
| FreeSlots.FreeSlotQueue.Release | nvme_uring_cmd_smoke.c:999-1007 | appends the slot, fails exactly when it is no slot or the queue is full |
| SlotInvariant.SubmitKeepsInv | nvme_uring_cmd_smoke.c:1043-1099 | a submission below the queue depth keeps free slots and slots in flight a partition, at most the depth in flight, and slot k first used by command k |
| SlotInvariant.StampKeepsInv | nvme_uring_cmd_smoke.c:1106-1118 | stamping a batch gives every command in flight a submission time and no other a new one |
| SlotInvariant.CompleteKeepsInv | nvme_uring_cmd_smoke.c:1137-1184 | a completion in any order keeps the partition and records completion time minus submission time |
| SlotInvariant.DoneMeans | nvme_uring_cmd_smoke.c:1209-1229 | when all commands completed, all slots are free, none is busy, exactly min(count, slots) were touched, and every latency is completion minus submission |
| SlotScheduler.Workload.Submit | nvme_uring_cmd_smoke.c:1056-1099 | takes a free slot that is not busy and records it |
| SlotScheduler.Workload.Stamp | nvme_uring_cmd_smoke.c:1106-1118 | the stamping loop gives the batch its time |
| SlotScheduler.Workload.Complete | nvme_uring_cmd_smoke.c:1137-1184 | none of the completion checks fires, the slot is released, one more command is complete |
| SlotScheduler.Workload.SubmitBatch | nvme_uring_cmd_smoke.c:1042-1099 | submits exactly the commands that the schedule of the ring says: until all are out, the depth is reached or the ring refuses, which it does not when idle; the invariant with its depth bound is kept |
| SlotScheduler.Workload.Reap | nvme_uring_cmd_smoke.c:1119-1186 | reaps exactly the completions that the ring delivers, in its order, at least one |
| SlotScheduler.Workload.Run | nvme_uring_cmd_smoke.c:1038-1229 | the workload terminates with every command complete, every slot free, no self-check fired and exactly min(count, slots) slots touched; each recorded time is the clock at the call that delivered the command minus the clock at the call that stamped it, and the errors are those of the deliveries, all given by the ring alone |
| SlotScheduler.Workload.Validate | nvme_uring_cmd_smoke.c:1215-1229 | reports a busy slot, else a wrong touched count, else nothing |
| RingSchedule.FilledMeans | nvme_uring_cmd_smoke.c:1042-1058 | over call numbers: the commands of a batch are taken in calls of their own, in a row, until all are out or the depth is reached or the next call is refused |
| RingSchedule.StampingMeans | nvme_uring_cmd_smoke.c:1106-1117 | the whole batch gets the clock of the first call after its submissions, and no other command a new time |
| RingSchedule.DrainedMeans | nvme_uring_cmd_smoke.c:1124-1131 | a wait delivers one command per call as long as the ring has more and some are in flight |
| RingSchedule.DeliveredMeans | nvme_uring_cmd_smoke.c:1135-1184 | a delivery ends the command that the ring picks at the clock of that call, leaves the others in flight in order, and counts an error if and only if its result is not 0 |
| LatencyStats.Percentile | nvme_uring_cmd_smoke.c:1239-1245 | the least value with at least p percent of all samples at or below it |
| Medians.SortedCounts | nvme_uring_cmd_smoke.c:1261 | sorting does not change how many samples are at most a value |
| LatencyStats.CalculateLatencyStats | nvme_uring_cmd_smoke.c:1247-1269 | refuses exactly when some time is not marked done; otherwise strips the mark from all, leaves them sorted in place, and gives their mean, maximum and nearest-rank percentiles 50, 95 and 99 |
| LatencyStats.StrippedAfterRun | nvme_uring_cmd_smoke.c:1253-1257 | the times a run leaves are all accepted by the summary, and stripped they are completion minus submission |
| Pairing.PairCompletions | examples/lmcache/kvio2perfetto.py:160-178 | the durations are those of a one-to-one pairing that never ends before it begins, takes the latest open submission first, never crosses, and is as large as any such pairing |
| Pairing.NoLargerMatching | examples/lmcache/kvio2perfetto.py:160-178 | no matching pairs more than the submissions up to the last unpaired completion plus the completions after it |
| Pairing.LatestFirstNests | examples/lmcache/kvio2perfetto.py:160-178 | pairing the latest submission first makes intervals nest or be disjoint |
| Pairing.PairSorted | examples/lmcache/kvio2perfetto.py:163-178 | the stack loop pairs so, with a certificate that no matching is larger |
| Sorting.SortIndices | examples/lmcache/kvio2perfetto.py:138-139 | the stable order of the keys: a permutation, ascending, ties by position |
| Sorting.OrderIsUnique | examples/lmcache/kvio2perfetto.py:138-139 | the keys fix that order, and with it which 64 VMAs a run keeps |
| Lanes.AssignLanes | examples/lmcache/kvio2perfetto.py:132-148 | every span is placed once; spans that share a lane do not touch; the number of lanes is the largest number of spans covering an instant |
| Lanes.NoFewerLanes | examples/lmcache/kvio2perfetto.py:132-148 | no separated placement uses fewer lanes |
| Lanes.LanesAtLeastCover | examples/lmcache/kvio2perfetto.py:132-148 | a separated placement needs a lane for every span covering an instant |
| Lanes.FirstFree | examples/lmcache/kvio2perfetto.py:140-147 | the first lane that is strictly free at the begin, or a new one |
| OffsetJoin.Extents | examples/lmcache/kvio2perfetto.py:268-277 | exactly the records with a slot, in order; each extent holds the header and the fewest whole blocks that hold the payload, each window reaches 5 ms past the record on both sides, and stores are writes, loads reads |
| OffsetJoin.DescribesOne | examples/lmcache/kvio2perfetto.py:268-277 | that fixes the operation of a record |
| OffsetJoin.AccessMeans | examples/lmcache/kvio2perfetto.py:292-298 | a command begins at its block number times the block size that its bytes and blocks give, the device's if one is missing, and is as long as its bytes, or its blocks, say |
| OffsetJoin.WholeBlocksLie | examples/lmcache/kvio2perfetto.py:292-298 | a command of whole blocks, of whatever size, covers exactly those blocks |
| OffsetJoin.BuildIndex | examples/lmcache/kvio2perfetto.py:267-278 | the index lists every operation under its base in input order, bases ascending |
| OffsetJoin.BisectRight | examples/lmcache/kvio2perfetto.py:302 | the number of bases not above the offset |
| OffsetJoin.PickByWindow | examples/lmcache/kvio2perfetto.py:319-326 | the first operation in the window of the right direction, else the first in the window |
| OffsetJoin.JoinOne | examples/lmcache/kvio2perfetto.py:302-331 | one command through the index gets the verdict of the join over all pairs |
| OffsetJoin.BruteForceIsFunctional | examples/lmcache/kvio2perfetto.py:280-285 | that reference verdict is unique |
| OffsetJoin.ExactIffOneExtent | examples/lmcache/kvio2perfetto.py:308-318 | over separate slots the code's verdicts on command records of whole blocks are all verdicts of the reference if and only if all operations at one base have one extent |
| OffsetJoin.MixedExtentsDiffer | examples/lmcache/kvio2perfetto.py:308 | wherever an operation ends elsewhere than the first of its base, some command record of whole blocks spills and is called unmatched |
| OffsetJoin.LongerExtentIsLost | examples/lmcache/kvio2perfetto.py:308-331 | wherever an operation is longer than the first of its base, some command record inside it and its window is attributed by the reference and left unmatched by the code |
| OffsetJoin.Join | examples/lmcache/kvio2perfetto.py:262-347 | over exactly the records with a slot, every command is attributed, with the number of the record plus one as its trace id, as by the reference when extents are uniform, and by the first extent of its base otherwise; each counter is the number of commands of its kind, and unique, cross, gap and unmatched add up to the commands with an address |
| OffsetJoin.KindsPartition | examples/lmcache/kvio2perfetto.py:288-347 | the four verdicts partition the commands with an address, and cookies split the unique ones |
| OffsetJoin.Segment | examples/lmcache/kvio2perfetto.py:403-414 | each command belongs to the occurrence numbered by the operation ends before it, the last one at most |
| OffsetJoin.EndsBeforeIs | examples/lmcache/kvio2perfetto.py:403-414 | the occurrence is counted by the operations that ended before the command |
| Coalesce.CoalesceSorted | pagemon_viz_v2.c:291-331 | the merge loop partitions the sorted VMAs into runs; each span reaches from its least to its greatest byte with no hole, and keeps its first 64 VMAs |
| Coalesce.CoalesceAll | pagemon_viz_v2.c:257-337 | sorts by offset, longest first, and merges into spans whose bytes are exactly the mapped bytes |
| Coalesce.UnionPreserved | pagemon_viz_v2.c:280-337 | a file byte lies in a span if and only if some VMA maps it |
| Coalesce.GapBetween | pagemon_viz_v2.c:280-337 | between two spans lies a byte that no VMA maps |
| Coalesce.SourcesCompleteIff | pagemon_viz_v2.c:303-330 | the spans keep every VMA once, in order, if and only if none merges more than 64 |
| PageBlocks.FileRange | pagemon_viz_v2.c:247-253 | the least and greatest mapped file byte |
| PageBlocks.Scan.VisitPage | pagemon_viz_v2.c:699-717 | a page already seen changes nothing; a new one is counted once in its block, with its flags |
| PageBlocks.Scan.ScanVma | pagemon_viz_v2.c:685-720 | exactly the pages of the VMA become seen, new ones through this VMA |
| PageBlocks.Scan.ScanSpans | pagemon_viz_v2.c:682-721 | the pages counted are those mapped by a scanned VMA, each through the first that maps it |
| PageBlocks.ScanFile | pagemon_viz_v2.c:637-721 | as few blocks as hold the file; each counts its own distinct pages and their present, dirty, swapped and file-mapped flags; totals sum to the distinct pages, dirty counts to the dirty total |
| PageBlocks.SnapshotCounts | pagemon_viz_v2.c:709-721 | block totals sum to the distinct pages and block dirty counts to the dirty total |
| PageBlocks.Snapshot | pagemon_viz_v2.c:637-721 | from VMAs to blocks over the range from the least to the greatest mapped byte, runs listing their VMAs by offset and longest first: all distinct mapped pages are counted if and only if, in each merged run, the VMAs beyond the first 64 map no page that the first 64 do not |
| PageBlocks.AllCountedIff | pagemon_viz_v2.c:682-721 | that equivalence for the pages of the scanned and of all VMAs |
| PageBlocks.SixtyFifthIsNotScanned | pagemon_viz_v2.c:303-330 | 65 adjacent VMAs merge into one run whose last page only the 65th maps, so it is not scanned |
| LogFilter.CollectExits | filter_syscall_log.py:74-79 | the first pass queues the return values of each process's openat exits |
| LogRecords.ExitsList | filter_syscall_log.py:74-79 | that queue is in log order: an exit record stands behind as many values as there are exits of its process before it |
| LogRecords.PatchedComesOut | filter_syscall_log.py:113-122 | an openat entry takes the return of the exit record that has as many exits of its process before it as the entry has entries before it, if that is a descriptor; nothing else changes |
| LogRecords.OpenAtIff | filter_syscall_log.py:124-145 | a descriptor is registered if and only if some openat returned it and no close named it since |
| LogRecords.MustWaitIff | filter_syscall_log.py:147-166 | a record waits if and only if it is a write or pwrite64, no openat that returned its descriptor is unclosed, and within the window its process ends an openat that returns it |
| LogFilter.LooksAhead | filter_syscall_log.py:152-158 | finds an openat exit of the same process for the descriptor within the window, if there is one |
| LogFilter.OnOpenat | filter_syscall_log.py:113-136 | an openat entry takes the next exit value; the output grows by it and, at once, by the writes waiting for its descriptor, which then wait no more |
| LogFilter.OnWrite | filter_syscall_log.py:147-172 | a write to an unregistered descriptor waits exactly when its openat comes soon |
| LogFilter.SortedKeys | filter_syscall_log.py:176-184 | the remaining descriptors in ascending order |
| LogFilter.FilterLog | filter_syscall_log.py:74-184 | every record but the exits comes out exactly once, each openat with the return of the exit record that has as many exits of its process before it as the openat has openats; only the writes that must wait move: one is flushed if and only if a later record opens its descriptor, and then only flushed writes of that descriptor stand between the first such record and it; the others come last, ascending by process and descriptor; writes to one descriptor and all other records keep their order; deferred = flushed + late, input = output + exits, and every counter is the number of records of its kind |
| Lifecycle.ComputeLatencies | analyzers/blktrace_analyzer.py:528-543 | completed requests are, in completion order, request j of a key for its j-th completion with its own queue and issue times; the rest is pending, oldest first |
| Lifecycle.CreatedIsCompletedPlusPending | analyzers/blktrace_analyzer.py:528-543 | created = completed + pending for every key at every moment |
| Lifecycle.FirstInFirstOut | analyzers/blktrace_analyzer.py:540-542 | of two requests of one key the one created first completes first, and only then |
| Lifecycle.IssuedAfterBirth | analyzers/blktrace_analyzer.py:536-539 | an issue time comes from an issue event no earlier than the request's creation |
| Lifecycle.FinishedIs | analyzers/blktrace_analyzer.py:528-543 | a completed request has place and direction of the event that created it, that event's time if it was a queue event, the time of the last issue of its key since the closing event before, and the time of its completion |
| Lifecycle.BirthNumber | analyzers/blktrace_analyzer.py:540-542 | as many requests of the key were created before it as were closed before its completion |
| Lifecycle.FinishedLists | analyzers/blktrace_analyzer.py:540-543 | the completed requests are listed in the order of their completion events |
| Lifecycle.LatenciesMakeSense | analyzers/blktrace_analyzer.py:380-391 | each latency, in microseconds, leads exactly from its first time to its second and exists if and only if both are known; queue <= issue <= complete, no latency is negative, Q2C = Q2D + D2C |
| IndirectionUnits.TouchedCountsUnits | analyzers/blktrace_analyzer.py:579-582 | last unit minus first unit plus one is the number of distinct units that hold a sector |
| IndirectionUnits.IdealIsBest | analyzers/blktrace_analyzer.py:583 | no placement touches fewer than the ideal, and an aligned one touches exactly that |
| IndirectionUnits.AtMostOneExtra | analyzers/blktrace_analyzer.py:577-585 | touched is the ideal or one more, and one more if and only if the remainders of start and length wrap |
| IndirectionUnits.Analyze | analyzers/blktrace_analyzer.py:573-585 | touched, ideal, crossings, sub-unit flag and a ratio between 1 and 2 for one request; aligned if and only if start and length are multiples of the unit |
| IndirectionUnits.AnalyzeAll | analyzers/blktrace_analyzer.py:568-599 | one analysis per queue event with blocks, in order |
| IndirectionUnits.AnalysesList | analyzers/blktrace_analyzer.py:568-599 | the analysis of event j stands behind as many as there are queue events with blocks before j |
| IndirectionUnits.BucketHolds | analyzers/blktrace_analyzer.py:712 | a bucket holds its own stretch of time and the last one everything later |
| IndirectionUnits.ClockFor | analyzers/blktrace_analyzer.py:708 | as few buckets as reach the end of the trace, and at least one |
| IndirectionUnits.WafOverTime | analyzers/blktrace_analyzer.py:705-717 | each bucket's ratio is that of its own sums, between 1 and 2, 1 when empty, and 1 if and only if every request in it touched the ideal number of units |
| IndirectionUnits.ComputeWaf | analyzers/blktrace_analyzer.py:691-718 | the whole computation: analyses of all queue events of an ordered trace, bucketed as above; one bucket at 1 without an indirection unit or such events |
| IndirectionUnits.WafBucketsConserve | analyzers/blktrace_analyzer.py:708-714 | the buckets together hold the units of every request that is not a read |
| ExtentBins.FurthestInlier | analyzers/blktrace_analyzer.py:868-872 | the furthest end within eight medians, or the furthest of all when there is none |
| ExtentBins.AddRequest | analyzers/blktrace_analyzer.py:883-906 | a request changes exactly the bins it touches, to what one more request makes of them |
| ExtentBins.Accumulate | analyzers/blktrace_analyzer.py:876-906 | the bins after all requests, on a given grid |
| ExtentBins.BinIsColumn | analyzers/blktrace_analyzer.py:876-906 | in every bin write bytes are the shares of the writes alone, read bytes those of the reads, total bytes both, and the counts the numbers of such requests that touch the bin |
| ExtentBins.ShareMeans | analyzers/blktrace_analyzer.py:883-900 | a bin's share read off the addresses: all or nothing for a request that is not split or starts in the last bin, the bytes that lie in the bin for any other |
| ExtentBins.AccumulateLba | analyzers/blktrace_analyzer.py:831-908 | the whole accumulation: no requests give empty bins; otherwise the grid ends at the furthest end within eight medians, every bin holds in each column the shares of the requests of that direction, and bytes are lost if and only if requests are split and one ends past eight medians and starts before the last bin |
| ExtentBins.ShareIsOverlap | analyzers/blktrace_analyzer.py:887-898 | inside the grid the one-bin shortcut and the split agree: every bin gets its overlap |
| ExtentBins.RequestConserved | analyzers/blktrace_analyzer.py:889-906 | a request's bytes all land in bins, except what a split request has past the grid |
| ExtentBins.BytesConservedIff | analyzers/blktrace_analyzer.py:876-906 | on any grid, bytes in bins = bytes requested if and only if no split request ends past the grid |
| ExtentBins.FittedConservesIff | analyzers/blktrace_analyzer.py:868-906 | on the grid that the requests give, bytes are lost if and only if requests are split and one ends past eight medians and starts before the last bin |
| Medians.SortedIs | analyzers/blktrace_analyzer.py:868 | the median is taken from the values in ascending order, each as often as given |
| Medians.MedianMeans | analyzers/blktrace_analyzer.py:868 | the median lies halfway between the least value with at least half and the least with more than half of all values at or below it |
| ExtentBins.OutlierLosesBytes | analyzers/blktrace_analyzer.py:868-906 | three requests that end at sector 10 and one that ends at 100: median and grid end are 10, and the bins fall 46080 bytes short |
| ExtentBins.BinAfter | analyzers/blktrace_analyzer.py:876-906 | in every bin total = read + write, in bytes and in requests |
| Wire.NeverOverflows | nvme_uring_cmd_smoke.c:494-512 | the three 64-bit overflow checks can never fire after the checks before them |
| Wire.AcceptsIff | nvme_uring_cmd_smoke.c:439-520 | the validation accepts exactly the options whose buffers, descriptors and modes fit together and under which every command of the run is decoded to its trace id and its length |
| Wire.UserDataDecodes | nvme_uring_cmd_smoke.c:1069-1070 | the low half decodes to the sequence, the high half to the trace id modulo 2^32 |
| Wire.TraceRoundTripIff | nvme_uring_cmd_smoke.c:513-518 | every trace id of the run survives if and only if the range check passes |
| Wire.SlbaRoundTrip | nvme_uring_cmd_monitor.bpf.c:188 | the start address split over two dwords is reassembled |
| Wire.NlbRoundTripIff | nvme_uring_cmd_monitor.c:150 | the block count survives if and only if it is 1 to 65536 |
| Wire.RoundTrip | nvme_uring_cmd_smoke.c:1069-1090 | for accepted options every command decodes to its sequence, trace id, address, blocks and bytes, and the address range ends below 2^64 |
| Wire.CookieIsTraceId | examples/lmcache/kvio2perfetto.py:289 | the cookie that the offset join takes as ground truth is the trace id that the generator encoded |
| Wire.SequentialTiles | nvme_uring_cmd_smoke.c:1085-1090 | sequential commands tile the address range without gap, overlap or wrap |
| KvKeys.HexOf | nvme_kv_smoke.c:78-83 | the hex of a key, byte by byte |
| KvKeys.HexAt | nvme_kv_smoke.c:78-83 | digits 2i and 2i + 1 are those of byte i, the high one first, in lower case |
| KvKeys.KvKeyHex | nvme_uring_cmd_monitor.c:109-122 | the hex of the captured bytes up to the length field, at most 16 |
| KvKeys.LengthsRoundTrip | nvme_kv_smoke.c:103-104 | value length and key length modulo 256 survive the address field |
| KvKeys.KeyBytesRoundTrip | nvme_kv_smoke.c:66-76 | the four dwords give back the key padded to 16 bytes |
| KvKeys.KeyHexMatchesIff | nvme_uring_cmd_monitor.c:105-122 | the tracer's hex is the generator's hex if and only if the key has at most 16 bytes |
| KvKeys.JoinKeysIdentify | nvme_uring_cmd_monitor.c:105-122 | on keys of at most 16 bytes equal hex means equal keys |

## Left out

- BarrierProtocol.RunKeepsInv: the 64-bit generation is unbounded in the model, and a worker that dies without unregistering is not modelled.
- BarrierProtocol.ReleaseIsReachable: every registered worker is free to arrive; in the engine it may sleep on an empty queue or not exist yet, which `ReplayProgress.OnlyTimeoutsIff` accounts for.
- ReplayProgress.RunRefines: is stated while the pool has no more workers than parties, since the protocol registers its workers at the start; `ReplayCounters` states counters, safety and freeze for every pool.
- Replay.RunKeepsInv: allocation and thread-creation failures, pacing, and what a dispatched system call does; its return value is an input of the step.
- PendingMmap.LookupFindsIff: assumes that a (pid, timestamp) pair is set at most once, as each names one mmap call.
- PageTally.TallyPages: page counts are unbounded, and the BPF map walk is the sequence of keys it yields.
- FdTranslation.ResolvesToLatestUnclosed: pid 0, captured values of one pid that agree modulo 65536, more than 256 pids and more than 64 nested opens of one descriptor are outside; the lemmas beside it show what they do.
- SlotScheduler.Workload.Run: the ring completes only what is outstanding, each once, and the clock is monotonic, non-zero and below 2^63 ns; failing system calls, ring counters and the timed window are not modelled.
- Lanes.AssignLanes: separation and optimality are stated for spans that do not end before they begin.
- Pairing.PairCompletions: timestamps are integers of nanoseconds.
- OffsetJoin.ExactIffOneExtent: slots lie at non-negative offsets on block boundaries of some size, one byte included.
- OffsetJoin.Join: JSON parsing and float seconds are outside; semantic times are integers of nanoseconds.
- Coalesce.CoalesceAll: VMAs of equal offset and size stay in input order, where the library sort may order them in any way.
- PageBlocks.Snapshot: without the page bitmap (files above 4 TiB, or a failed allocation) pages are counted once per VMA; that mode and short pagemap reads are not modelled.
- LogFilter.FilterLog: JSON null values, the process and pid filters and file handling are outside; an absent field is a missing value.
- Lifecycle.LatenciesMakeSense: timestamps are reals, and events are in time order as the loader sorts them.
- IndirectionUnits.Analyze: an indirection unit smaller than a logical block divides by zero in the code and is excluded; the NPWG and AWUN fields repeat the same arithmetic.
- ExtentBins.AccumulateLba: sums are over reals, so floating-point rounding is not modelled; requests that all end at sector 0, which the caller filters out, divide by zero in the code and are excluded.
- Wire.RoundTrip: the pseudo-random address choice is any 64-bit address.
- The mmap address table of the replayer, which scans 1024 entries for a captured address without probing; the dispatch of one system call, which passes the translated descriptor on; and the parsing of hex numbers and open flags.
- BPF programs, ring buffers to user space, procfs and io_uring calls: kernel interfaces.
- Plotting, Perfetto emission and the remaining statistics of the analysers: output formatting and sums.
- The sub-page comparison, overhead and timeline modes of the page monitor.
