# treasure_house: verified models

Dafny models of the concurrent and data-structure core of the C library treasure_house, and proofs of
the properties the library depends on. `dafny verify dfyconfig.toml` checks the whole project.

| file | models |
|---|---|
| `MpscQueue.dfy` | the lock-free multi-producer single-consumer queue, as interleaved atomic steps, and its code run alone |
| `ThreadPool.dfy` | the thread pool, one step per critical section, and the critical sections as code |
| `SlabSizing.dfy`, `Slab.dfy`, `Mempool.dfy`, `MempoolRuns.dfy`, `MempoolAsWritten.dfy`, `MempoolAsWrittenRuns.dfy`, `MempoolCode.dfy` | the slab memory pool |
| `BinaryHeap.dfy`, `CoSched.dfy`, `CoLoop.dfy`, `CoSchedCode.dfy` | the timer heap, the deadline comparison, the coroutine scheduler and the thread of its main loop |
| `IntrusiveList.dfy` | the circular intrusive list |
| `LogFormat.dfy` | the log prefix formatter |
| `Seqs.dfy` | facts used by several of them |

The concurrent components are state machines: a step is one shared read or write (queue), one critical
section (thread pool) or one round of the main loop between two moments at which another thread may create
a coroutine (scheduler), any number of threads interleave, and the theorems are about every state of every
run. Memory is sequentially consistent. The sequential components are classes and methods with the
source's fields and loops, each tied to a specification function about which the properties are proved.

How C is read:

- Queue links are a map; a node without an entry has a null link. Nodes may hold any old link when they are pushed.
- The poison values of deleted list entries are null, and a list is described by the sequence of its nodes.
- `struct slab` is a value kept in a map from the addresses of the allocated slabs. A released slab has no
  entry, and a call that goes on to read it has no result. `freelist` is part of the struct and holds unsigned shorts:
  the sentinel -1 is stored as 65535 and read back into a short as -1.
- `ALIGN` for a power of two clears the low bits, written as subtracting the remainder.
- `co_timer_cmp` converts a long difference to int, and `event_loop_run` a long wait: the low 32 bits in
  two's complement.
- The clock, the system allocator, `pthread_create` and the thread a signal wakes are parameters.
- A format string is the text of the C string without its terminator.

## Where the code departs from its intent

Three statements of `src/memory/mempool.c` are modelled twice, as written and as intended
(`SlabMem.Mode`): line 296 compares with -1 where it should assign, line 382 compares unsigned shorts with
-1, and line 424 releases a slab that line 430 then reads and that may stay the current slab. The pool's
theorems hold for the intended statements. About the statements as written:

- A program is safe from the first and the third exactly if it never holds more objects at a time than
  one slab has. Up to that number every free object can be allocated again (`NeverStrandsIff`) and no
  valid free reads a released slab (`NeverReadsReleasedIff`), in every history and for every pool
  geometry; with one object more, `StrandingHistory` ends in a state in which a free object exists and
  the next allocation returns NULL, and `ReleasedReadHistory` in one in which a valid free reads the slab
  it has released.
- Destroying the pool calls no destructor at all, whatever the history, and leaves `used_objs` at the number
  of objects held; so it is right exactly if the program holds none (`DestroyAsWrittenIff`).
- For a single call, `AllocAsWrittenIff`, `FreeAsWrittenIff` and `TeardownAsWrittenIff` give the exact
  condition under which it does what is meant, and `CurDanglesIff` when the current slab would be a
  released one if only the read at line 430 were repaired.
- What still holds in every history: the free chains, the layout, the counters and that every slab is on
  one list, so that `mempool_free` finds the owner of every live object (`AsWrittenFindsOwner`).

More guarantees hold under an exact condition. A stopped thread pool has drained its queue exactly for
pools of at least one thread (`DrainsIffSomeThread`); stopping signals the shutdown condition only once,
so all callers of `threadpool_wait` are woken exactly when there is at most one
(`WakesIffAtMostOneWaiter`). The deadline comparison is exact, both ways round, exactly while two deadlines
are less than 2^31 ms apart (`CompareExactIff`); while pending deadlines are that close, timers fire in
order and the wait computed is exact, and in every case none fires early or is lost.

The main loop is told to wait in `event_loop_run` exactly if timers remain, and does so although a coroutine
is ready exactly if its first pass over the timers has fired one or another thread has created a coroutine
since the failed pick (`IdleTurnProgress`); in terms of what is known before the pass, exactly if some pending deadline is due at
the first clock reading or a coroutine has been created (`BlocksWithReadyIff`). The wait is converted to
int: the loop can go on exactly from the earliest deadline on if and only if the wait is less than 2^31 ms
(`IdleTurnPunctual`), and it never blocks for ever exactly for programs whose sleeps are all shorter than
that (`NeverBlocksForeverIff`).

## Model

| member | source | states |
|---|---|---|
| MpscQueue.FifoInEveryInterleaving | src/queue/mpscq.c:19-56 | in every state of every interleaving there is exactly one chain from tail to head through written or pending links, and popped nodes followed by its user nodes are the nodes in exchange order: nothing lost, duplicated or reordered |
| MpscQueue.StepKeeps | src/queue/mpscq.c:19-56 | every producer and consumer step keeps the chain, the pending-link ownership and the FIFO history |
| MpscQueue.ExchangeKeeps | src/include/atm_gcc_sync.h:61-67 | the successful compare-and-swap appends the node to the chain behind a link that only this producer owes |
| MpscQueue.LoadKeeps | src/include/atm_gcc_sync.h:63-65 | loading head and a failed compare-and-swap change nothing anyone relies on |
| MpscQueue.ClearKeeps | src/queue/mpscq.c:21 | clearing the link of a node about to be pushed cuts no chain, whatever the link held before |
| MpscQueue.LinkKeeps | src/queue/mpscq.c:22-23 | writing the owed link closes exactly the gap this producer opened |
| MpscQueue.AdvanceKeeps | src/queue/mpscq.c:34-42 | moving tail drops exactly the first node of the chain |
| MpscQueue.StubClearKeeps | src/queue/mpscq.c:48 | clearing the stub's link loses no node |
| MpscQueue.StubExchangeKeeps | src/queue/mpscq.c:48 | the consumer's exchange puts the stub at the end of the chain, at most once |
| MpscQueue.StubLinkKeeps | src/queue/mpscq.c:48 | the consumer's link of the stub closes its own gap and no other |
| MpscQueue.ReturnedNodeIsFree | src/queue/mpscq.c:38-54 | a node returned by pop is not head, tail or on the chain, no producer holds it as node or prev, and it may be pushed again at once |
| MpscQueue.StubReuseIsSafe | src/queue/mpscq.c:44-48 | when the stub is pushed again it is off the chain, is neither head nor tail, and nobody owes it a link |
| MpscQueue.NullPopExplained | src/queue/mpscq.c:28-55 | a pop that returns NULL found the queue empty at its first read, or a producer was between exchange and link at some moment of that pop |
| MpscQueue.PopIsBounded | src/queue/mpscq.c:26-56 | a pop makes at most 10 steps and 2 more for each node pushed meanwhile, and can always make the next one, so every pop that keeps stepping returns |
| MpscQueue.PushIsBounded | src/queue/mpscq.c:19-24 | a push makes at most 4 steps and 2 more for each exchange of another thread, and can always make the next one |
| MpscQueue.PushTakesExactly | src/include/atm_gcc_sync.h:61-67 | a push takes exactly 4 steps, and a load and a compare-and-swap more for each compare-and-swap that fails |
| MpscQueue.ChainUnique | src/queue/mpscq.h:34-47 | memory and the pending links determine the chain |
| MpscQueue.Queue.constructor | src/queue/mpscq.c:4-9 | creation gives an empty valid queue over arbitrary old links |
| MpscQueue.Queue.Exchange | src/include/atm_gcc_sync.h:61-67 | the retry loop returns the old head and leaves the new one |
| MpscQueue.Queue.Push | src/queue/mpscq.c:19-24 | without interference push appends to the contents |
| MpscQueue.Queue.Pop | src/queue/mpscq.c:26-56 | without interference pop returns NULL exactly on the empty queue and otherwise removes the first of the contents |
| ThreadPool.NoLostWakeup | src/threadpool/threadpool.c:23-58 | with at least one thread allowed, a non-empty queue always has a worker that will look at it without being woken |
| ThreadPool.QueueIsFifo | src/threadpool/threadpool.c:23-58 | dequeued works followed by queued works are the accepted works in order, num is the list length, and threads_num is the next free thread slot while running |
| ThreadPool.OneThreadPerSubmit | src/threadpool/threadpool.c:157-165 | while the pool runs it has one worker for each submit that has succeeded, up to the limit |
| ThreadPool.CreateLimits | src/threadpool/threadpool.c:108-135 | the limit is the smaller of the argument and three times the processors, and a new pool runs without workers and works |
| ThreadPool.StoppedMeansDone | src/threadpool/threadpool.c:82-101 | in a stopped pool the queue is empty, every accepted work has run exactly once and all workers are gone |
| ThreadPool.DrainsIffSomeThread | src/threadpool/threadpool.c:108-135 | the drain guarantee holds exactly for pools of at least one thread |
| ThreadPool.ThreadlessRun | src/threadpool/threadpool.c:148-192 | the run of a pool without threads that accepts a work and stops with it still queued |
| ThreadPool.DrainIsBounded | src/threadpool/threadpool.c:60-101 | after the stop no work is accepted and the number of worker steps is bounded by queued works and live workers |
| ThreadPool.StepAfterStop | src/threadpool/threadpool.c:60-101 | after the stop each worker step lowers the measure, no other step raises it, and nobody is left to wake |
| ThreadPool.NobodyWaitsAfterStop | src/threadpool/threadpool.c:60-66 | after the broadcast no worker is in an unsignalled wait, ever |
| ThreadPool.WorkersComeToRest | src/threadpool/threadpool.c:23-101 | workers do not spin: while nothing is submitted and nobody is woken they make a bounded number of steps |
| ThreadPool.DrainNeverStuck | src/threadpool/threadpool.c:60-101 | until the pool is stopped a worker or the holder of the pool lock can move |
| ThreadPool.LoneWaiterWakes | src/threadpool/threadpool.c:194-203 | a lone caller of threadpool_wait is never left asleep in a stopped pool |
| ThreadPool.WaitReturnsWhenDone | src/threadpool/threadpool.c:194-203 | threadpool_wait returns only when the queue is empty, every accepted work has run and all workers are gone |
| ThreadPool.StoppedLetsReturn | src/threadpool/threadpool.c:194-203 | in a stopped pool a caller that looks at the status returns, and one that has returned never waits again |
| ThreadPool.WaiterSleeps | src/threadpool/threadpool.c:198-199 | in a pool not yet stopped a caller that looks goes to sleep, and only the end of the pool or a spurious wakeup ends its sleep |
| ThreadPool.WakesIffAtMostOneWaiter | src/threadpool/threadpool.c:91-96 | all n callers of threadpool_wait are woken in every run exactly when n is at most one |
| ThreadPool.StepKeeps | src/threadpool/threadpool.c:23-203 | every critical section keeps thread accounting, wakeups, queue, executions and waiters in order |
| ThreadPool.PutKeeps | src/threadpool/threadpool.c:46-58 | signalling only on a put into the empty queue is enough, and no other put wakes anyone |
| ThreadPool.GetKeeps | src/threadpool/threadpool.c:23-44 | taking a work, waiting or leaving keeps the pool in order |
| ThreadPool.LeaveKeeps | src/threadpool/threadpool.c:91-98 | the last worker out stops the pool and signals |
| ThreadPool.Pool.constructor | src/threadpool/threadpool.c:108-135 | creation gives the initial state with the smaller of the two thread limits |
| ThreadPool.Pool.SubmitBegin | src/threadpool/threadpool.c:148-173 | the submit step; 0 exactly if the pool runs and a needed thread could be created, with exactly one worker more below the limit and none at it; otherwise nothing changes |
| ThreadPool.Pool.CreateNewThread | src/threadpool/threadpool.c:138-146 | a new worker and the count, or neither |
| ThreadPool.Pool.WorkqueuePut | src/threadpool/threadpool.c:46-58 | the put step |
| ThreadPool.Pool.WorkqueueGet | src/threadpool/threadpool.c:23-44 | one turn of the get loop: the first work exactly if num is not 0, otherwise leave or wait |
| ThreadPool.Pool.WorkqueueStop | src/threadpool/threadpool.c:60-66 | the stop step |
| ThreadPool.Pool.ShutdownPool | src/threadpool/threadpool.c:175-192 | the three steps of shutdown; stopped at once if there are no threads; nobody waits on the queue afterwards |
| ThreadPool.Pool.WorkerExit | src/threadpool/threadpool.c:91-100 | the exit step; the last worker stops the pool |
| ThreadPool.Pool.FinishWork | src/threadpool/threadpool.c:68-80 | the task has run once and its worker asks for the next |
| ThreadPool.Pool.WaitBegin | src/threadpool/threadpool.c:194-203 | the first look at the status: return exactly if it is stopped, otherwise sleep |
| ThreadPool.Pool.WaitAgain | src/threadpool/threadpool.c:198-199 | each further look once woken |
| SlabSizing.AlignRoundsUp | src/include/types.h:27-29 | ALIGN gives the least multiple at or above its argument |
| SlabSizing.CalculateAlignmentIs | src/memory/mempool.c:33-51 | every requested alignment is rounded up to words, and a power of two of at least a word is kept |
| SlabSizing.AlignPadsIff | src/include/types.h:27-29 | for every word, ALIGN as written pads a one-byte object to the alignment exactly if the alignment is 0 or a power of two |
| SlabSizing.AlignToZero | src/include/types.h:27-29 | with alignment 0 every padded size is 0, by which mempool_estimate divides |
| SlabSizing.PaddingUpToPage | src/include/types.h:27-29 | the alignments that pad and do not exceed a page are exactly the thirteen powers of two |
| SlabSizing.NoWrapIff | src/memory/mempool.c:72-73 | the room left by the alignment stays above zero in every order exactly for alignments up to a page |
| SlabSizing.PoolSizeBounds | src/memory/mempool.c:182-186 | for every request that is rounded up to a power of two up to a page, the padded size is a multiple of it, less than one alignment above the object size, and fits an unsigned int |
| SlabSizing.EstimateRoomy | src/memory/mempool.c:68-96 | the estimate accounts for all bytes, and gives 8 objects exactly if 8 objects and the slack fit |
| SlabSizing.FragmentationAccepts | src/memory/mempool.c:133-137 | the fragmentation test never rejects an order with at least 8 objects |
| SlabSizing.ObjectCountBound | src/memory/mempool.c:110-140 | the least such order holds between 8 and 511 objects, below the short sentinel |
| SlabSizing.CalculateSlabOrder | src/memory/mempool.c:110-140 | the loop finds the least order up to 6 with 8 objects, and fails exactly when order 6 has fewer |
| SlabSizing.SizePool | src/memory/mempool.c:142-192 | sizing succeeds exactly when 8 objects and the slack fit 64 pages, and then gives the least slab of 1, 2, 4, .. 64 pages that takes them and the number of objects that fit it, for every positive int size and every request that is rounded up to a power of two up to a page |
| SlabSizing.CreationLimit | src/memory/mempool.c:166-192 | with an alignment of at most 8 a pool can be created exactly for objects of up to 32760 bytes |
| SlabMem.FollowFinds | src/memory/mempool.c:281-290 | following the links from free_idx visits the chain and then meets the sentinel |
| SlabMem.NewSlabOk | src/memory/mempool.c:201-235 | a new slab is in order and has no used slot |
| SlabMem.FreeIdxValid | src/memory/mempool.c:285-286 | the assertion on free_idx cannot fire on a slab with a free object; free_idx is the last free index exactly if one object is free |
| SlabMem.TakeObjChained | src/memory/mempool.c:281-298 | in either mode, taking an object removes the head of the free chain and changes no other slot |
| SlabMem.TakeObjOk | src/memory/mempool.c:281-298 | with line 296 as intended, last_free_idx stays the tail of the chain as well |
| SlabMem.TakeObjAsWrittenIff | src/memory/mempool.c:294-298 | as written, the slab stays in order exactly if it was not its last free object |
| SlabMem.PutObjOk | src/memory/mempool.c:410-433 | freeing puts the slot at the head of the chain and keeps last_free_idx its tail |
| SlabMem.InUseTestExact | src/memory/mempool.c:379-382 | the teardown test holds exactly for the live slots (intended line 382) |
| SlabMem.InUseTestAsWrittenNever | src/memory/mempool.c:382 | as written the test never holds |
| SlabMem.SlotInBlock | src/memory/mempool.c:231-233 | every object is aligned and inside the slab's block, and obj_end stays strictly inside it |
| SlabMem.SlotsApart | src/memory/mempool.c:305 | slots of a slab do not overlap and the index is recovered from the address |
| MempoolState.AllocOk | src/memory/mempool.c:316-340 | alloc returns NULL exactly when nothing is free and the system refuses; otherwise exactly one slot that was free becomes live, in the slab that is now current |
| MempoolState.FindSlabFinds | src/memory/mempool.c:249-279 | find_slab finds a slab with a free object whenever the counter says there is one: the current one if it has one, else the first partial one, else the empty one |
| MempoolState.AllocFromOk | src/memory/mempool.c:281-306 | an allocation in a slab keeps lists, counters and blocks in order |
| MempoolState.MovedFirst | src/memory/mempool.c:17-21 | MOVE_LIST puts the slab at the head of one list and takes it off the others |
| MempoolState.NewSlabFirst | src/memory/mempool.c:237-241 | the new slab is at the head of the empty list and current |
| MempoolState.SlabAllocOk | src/memory/mempool.c:210-247 | a new slab keeps the pool in order, with at most one empty slab |
| MempoolState.FreeOk | src/memory/mempool.c:410-437 | freeing a live object makes exactly its slot free and keeps the pool in order, also when the slab is released |
| MempoolState.FreeReleasesOk | src/memory/mempool.c:422-436 | on the releasing path the counters still balance (intended lines 424 to 433) |
| MempoolState.FreeOneSlabOk | src/memory/mempool.c:398-408 | releasing a slab takes exactly its share off the counters |
| MempoolState.FindObjSlabIff | src/memory/mempool.c:342-363 | the lookup returns a slab exactly for the addresses from its first object up to and including the one behind its last, while it has a used object |
| MempoolState.FindObjSlabExact | src/memory/mempool.c:342-363 | the lookup returns the owner of a live object, and the slot is recovered from the address, for the statements as intended and as written |
| MempoolState.OnlyOwnerHolds | src/memory/mempool.c:26-27 | despite the inclusive test only the owner's range contains an object's address |
| MempoolState.SlotsDisjoint | src/memory/mempool.c:210-235 | objects of a pool are aligned, inside their blocks and pairwise disjoint |
| MempoolState.CountersAgree | src/memory/mempool.c:237-241 | total is used plus free and slabs times objects per slab, and no counter is negative |
| MempoolState.TeardownExact | src/memory/mempool.c:365-396 | the teardown of a slab destroys exactly its live objects, each once, and counts them exactly |
| MempoolRuns.HistoryFacts | src/memory/mempool.c:316-451 | after any history of allocations and valid frees: counters, free chains, list membership, at most one empty slab |
| MempoolRuns.HistoryKeeps | src/memory/mempool.c:316-451 | every pool reached by a history is in order |
| MempoolRuns.DestroyExact | src/memory/mempool.c:453-472 | destruction calls the destructor once on each live object and nothing else, and all counters reach zero |
| MempoolRuns.FreeAddrOk | src/memory/mempool.c:439-451 | mempool_free by address frees exactly that object, and does nothing for an address no slab in use holds |
| MempoolAsWritten.AllocAsWrittenIff | src/memory/mempool.c:295-298 | as written, an allocation keeps the pool in order exactly if it does not take a slab's last free object |
| MempoolAsWritten.FreeAsWrittenIff | src/memory/mempool.c:422-433 | as written, in any state, a free reads the slab it has released exactly if it empties a slab while another is empty, and otherwise is the intended free |
| MempoolAsWritten.TeardownAsWrittenIff | src/memory/mempool.c:365-396 | as written, in any state with a right free chain, the teardown of a slab destroys no slot and leaves used_objs alone, so it selects the live slots exactly if the slab has no used object |
| MempoolAsWritten.StrandingHistory | src/memory/mempool.c:249-337 | as written, a history that holds one object more than a slab has and ends with a free object while every allocation returns NULL |
| MempoolAsWritten.NeverStrandsIff | src/memory/mempool.c:249-337 | as written, an existing free object can be allocated after every history that holds at most n objects at a time exactly if n is at most the number of objects of a slab |
| MempoolAsWritten.ReleasedReadHistory | src/memory/mempool.c:410-437 | as written, a history that holds one object more than a slab has and ends where freeing the object of the current slab reads that slab after its release |
| MempoolAsWritten.NeverReadsReleasedIff | src/memory/mempool.c:410-437 | as written, no valid free reads a released slab after any history that holds at most n objects at a time exactly if n is at most the number of objects of a slab |
| MempoolAsWritten.OneSlabStep | src/memory/mempool.c:249-437 | as written, allocations and frees keep to one slab with a right free chain, right counters and a right empty list as long as no more objects are held than it has |
| MempoolAsWritten.HeldIsUsed | src/memory/mempool.c:303-304 | as written, used_objs is the number of allocations that returned an object less the number of frees |
| MempoolAsWritten.IntendedNeverFails | src/memory/mempool.c:249-437 | as intended, neither failure occurs, however many objects are held |
| MempoolAsWritten.CurDanglesIff | src/memory/mempool.c:422-433 | after a free that leaves cur alone, cur is a released slab exactly if the call released the current slab |
| MempoolAsWrittenRuns.AsWrittenKeeps | src/memory/mempool.c:210-437 | after every history as written: right free chains, layout and counters, and every slab on exactly one list, the empty one exactly if it is unused |
| MempoolAsWrittenRuns.AsWrittenFindsOwner | src/memory/mempool.c:342-363 | as written too, find_obj_slab returns the owner of every live object and its slot is recovered, so a free of a history is mempool_free of the address |
| MempoolAsWrittenRuns.DestroyAsWrittenIff | src/memory/mempool.c:453-472 | after every history as written, destruction releases all slabs, calls no destructor, leaves used_objs at the number of objects held and free_objs as far below zero; the destructor calls are the live objects exactly if none is held |
| MempoolAsWrittenRuns.LostDestructorHistory | src/memory/mempool.c:365-396 | as written, a history of one allocation after which a live object is never destroyed |
| MempoolAsWrittenRuns.LiveIffUsed | src/memory/mempool.c:303-304 | some object is live exactly if used_objs is not 0 |
| MempoolCode.InitFreelist | src/memory/mempool.c:201-208 | the loop builds the initial chain |
| MempoolCode.MempoolCreate | src/memory/mempool.c:166-199 | for the same sizes and requests, NULL exactly when 8 objects and the slack exceed 64 pages, otherwise an empty pool in order with exactly that slab, object number, alignment and padded size |
| MempoolCode.Mempool.MempoolAlloc | src/memory/mempool.c:316-340 | the code of alloc meets the statement of AllocOk |
| MempoolCode.Mempool.FindSlabNow | src/memory/mempool.c:249-279 | the two list loops and the cached slab |
| MempoolCode.Mempool.FindObjSlabNow | src/memory/mempool.c:342-363 | the two lookup loops |
| MempoolCode.Mempool.FreeAllObjsOneSlab | src/memory/mempool.c:365-396 | the loop destroys the slots the test selects and adjusts the counters |
| MempoolCode.Mempool.FreeObj2Slab | src/memory/mempool.c:410-437 | the code of a free is the intended step |
| MempoolCode.Mempool.MempoolFree | src/memory/mempool.c:439-451 | the code of mempool_free frees exactly the object at the address |
| MempoolCode.Mempool.FreeAllSlabs | src/memory/mempool.c:453-472 | the three list loops destroy each live object exactly once and leave no slab and zero counters |
| BinaryHeap.SwapUp | src/container/heap.c:34-43 | one turn towards the root leaves at most the next edge out of order |
| BinaryHeap.SwapDown | src/container/heap.c:72-86 | one turn towards the leaves leaves at most the next edges out of order |
| BinaryHeap.RootIsLeastOfAll | src/container/heap.c:102-109 | the root of a heap is below every element |
| BinaryHeap.Heap.Push | src/container/heap.c:46-58 | push appends and moves the element up as long as its parent is greater, grows by 16 cells exactly when full, adds exactly one element and keeps the heap order for every total preorder |
| BinaryHeap.Heap.Pop | src/container/heap.c:89-100 | pop returns NULL exactly on the empty heap and otherwise removes the root once, a least element for every total preorder, and moves the last element down as long as its smaller child is less |
| BinaryHeap.Heap.Top | src/container/heap.c:102-109 | top returns NULL exactly on the empty heap and otherwise the root, a least element for every total preorder |
| BinaryHeap.Heap.SiftDown | src/container/heap.c:29-44 | the loop towards the root keeps the elements, and restores the order for every total preorder |
| BinaryHeap.Heap.SiftUp | src/container/heap.c:60-87 | replacing the root and the loop towards the leaves drop exactly the old root, and restore the order for every total preorder |
| CoTime.CompareExactIff | src/coroutine/co_time.c:39-48 | the truncated comparison is exact both ways round exactly for deadlines less than 2^31 ms apart |
| CoTime.ToIntIs | src/coroutine/co_time.c:47 | the conversion gives the int that agrees in the low 32 bits |
| CoTime.FarTimersBreakOrder | src/coroutine/co_time.c:39-48 | two timers 2^31 ms apart are each before the other |
| CoTime.NearIsOrdered | src/coroutine/co_time.c:39-48 | for close deadlines the comparison is a total preorder |
| CoSched.RunKeeps | src/coroutine/sched/core.c:26-272 | in every run, whatever the deadlines and whichever due timer the heap hands out, each unfinished coroutine is ready, waiting or running, exactly one of them, co_nums counts them, and waiting coroutines have one timer each |
| CoSched.NeverStuck | src/coroutine/sched/core.c:112-136 | if coroutines exist and none is ready or running, a timer is pending |
| CoSched.RunsInReadyOrder | src/coroutine/sched/core.c:26-56 | coroutines are picked in the order in which they became ready, each once per wakeup |
| CoLoop.LoopKeeps | src/coroutine/sched/core.c:112-136 | in every run of the loop thread with any threads creating coroutines between its steps, every unfinished coroutine is in its place, and the loop waits for a pending timer or, if there is none, not at all |
| CoLoop.IdleTurnProgress | src/coroutine/sched/core.c:125-130 | whenever the loop is idle, the ready queue is what has been created or woken since the failed pick, in that order; so it waits while a coroutine is ready exactly if the first pass has fired a timer or a coroutine has been created since, and it is told to wait exactly if timers remain |
| CoLoop.BlocksWithReadyIff | src/coroutine/sched/core.c:125-130 | while timers come in deadline order, it waits while a coroutine is ready exactly if some pending deadline was due at the first clock reading or a coroutine has been created since the failed pick |
| CoLoop.CreatedWhileBlocked | src/coroutine/sched/core.c:227-243 | for every shorter sleep than 2^31 ms, a run in which nothing has fired, a coroutine created by another thread is ready, and the loop cannot go on before the sleep is over |
| CoLoop.TimeoutExactIff | src/coroutine/runtime/event_loop.c:23-28 | a wait reaches epoll_pwait unchanged exactly if it is less than 2^31 ms |
| CoLoop.IdleTurnPunctual | src/coroutine/sched/core.c:125-130 | while timers come in deadline order, the loop can go on exactly from the earliest deadline on if and only if the wait is less than 2^31 ms |
| CoLoop.TurnEndsReady | src/coroutine/sched/core.c:125-130 | while timers come in deadline order and no wait reaches 2^31 ms, every idle turn ends with a coroutine ready |
| CoLoop.PassEnds | src/coroutine/sched/core.c:95-110 | a pass makes at most one round for each pending timer and one more, whatever other threads create |
| CoLoop.SomeCoroutineRuns | src/coroutine/sched/core.c:112-136 | while timers come in deadline order and no wait reaches 2^31 ms, the loop thread has a coroutine running after at most 7 steps and one for each pending timer, whatever is created in between, and while coroutines exist it can always make the next step |
| CoLoop.SleepsLongEnough | src/coroutine/sched/core.c:257-272 | a sleeping coroutine stays in the wait queue with its timer at least as long as asked |
| CoLoop.LoopStuckIff | src/coroutine/sched/core.c:112-136 | with coroutines alive the loop thread can move on exactly unless it has passed a negative timeout |
| CoLoop.ForeverIsForever | src/coroutine/runtime/event_loop.c:23-28 | once it has, it never moves again, whatever other threads do |
| CoLoop.SleepForever | src/coroutine/sched/core.c:265-272 | the run of a single coroutine that sleeps 2^31 ms and is never woken |
| CoLoop.NeverBlocksForeverIff | src/coroutine/sched/core.c:265-272 | the loop never blocks for ever in any run whose sleeps are at most n ms exactly if n is less than 2^31 |
| CoSched.FireAllKeeps | src/coroutine/sched/core.c:95-110 | firing any pending timers keeps every coroutine in its place |
| CoSched.PassedKeeps | src/coroutine/sched/core.c:95-110 | a pass over the expired timers keeps every coroutine in its place and makes as many ready as it fires |
| CoSched.SleepKeeps | src/coroutine/sched/core.c:265-272 | a sleep pairs the coroutine with its new timer |
| CoSched.RemoveTimerKeeps | src/coroutine/sched/core.c:245-263 | a resume moves the coroutine of the fired timer and no other |
| CoSchedCode.Sched.ProcessExpiredTimers | src/coroutine/sched/core.c:95-110 | terminates, fires each timer once and never early; while deadlines are less than 2^31 ms apart it fires in deadline order and returns the exact wait to the earliest remaining timer or 0 exactly when none remains |
| CoSchedCode.Sched.SchedSched | src/coroutine/sched/core.c:227-243 | a new coroutine becomes ready and is counted |
| CoSchedCode.Sched.PickOneCo | src/coroutine/sched/core.c:49-56 | the oldest ready coroutine becomes current; 1 exactly when none is ready |
| CoSchedCode.Sched.SchedYieldCoroutine | src/coroutine/sched/core.c:213-220 | the running coroutine goes to the end of the ready queue |
| CoSchedCode.Sched.SchedDelay | src/coroutine/sched/core.c:265-272 | the running coroutine waits for a new timer; the heap stays in deadline order while deadlines are less than 2^31 ms apart |
| CoSchedCode.Sched.CoDone | src/coroutine/sched/core.c:169-182 | a finished coroutine is no longer counted |
| CoSchedCode.Sched.SchedCoResume | src/coroutine/sched/core.c:245-255 | unlinks exactly one entry and appends it to the ready queue |
| CoSchedCode.Sched.Round | src/coroutine/sched/core.c:98-106 | one round finds no timer, one that is not due, or fires one that is; an earliest one while deadlines are close |
| CoSchedCode.MainLoop.Enter | src/coroutine/sched/core.c:114-124 | the loop goes on exactly if there are coroutines |
| CoSchedCode.MainLoop.TryPick | src/coroutine/sched/core.c:125 | the pick is the step of the loop thread |
| CoSchedCode.MainLoop.PassRound | src/coroutine/sched/core.c:127-129 | a round of either pass is a step of the loop thread, in deadline order while deadlines are close |
| CoSchedCode.MainLoop.Spawn | src/coroutine/sched/core.c:227-243 | creating a coroutine from another thread is a step that leaves the loop thread where it is |
| IntrusiveList.RingDetermined | src/container/list.h:50-52 | the pointers determine the sequence |
| IntrusiveList.RotateRing | src/container/list.h:81-89 | a ring may be read from any of its nodes |
| IntrusiveList.ListTests | src/container/list.h:329-353 | empty, first, last and singular tests in terms of the sequence |
| IntrusiveList.ListAddBetween | src/container/list.h:133-144 | inserts between two neighbours and keeps next and prev inverse |
| IntrusiveList.ListAdd | src/container/list.h:154-157 | inserts after any node of the ring |
| IntrusiveList.ListAddTail | src/container/list.h:168-171 | appends |
| IntrusiveList.ListDel | src/container/list.h:180-219 | removes exactly the entry and poisons it |
| IntrusiveList.ListReplace | src/container/list.h:228-235 | the new node takes the old one's place, also in a ring of one |
| IntrusiveList.ListSwap | src/container/list.h:256-266 | exchanges two distinct entries of one list, adjacent in either order or apart, or of two lists |
| IntrusiveList.ListMoveTail | src/container/list.h:294-299 | moves an entry to the back of its own or of another list |
| IntrusiveList.ListRotateLeft | src/container/list.h:396-404 | the first entry becomes the last |
| IntrusiveList.ListRotateToFront | src/container/list.h:413-426 | rotates so that the given entry is first |
| IntrusiveList.ListBulkMoveTail | src/container/list.h:310-322 | moves a section to the back in order, also if it is already there |
| IntrusiveList.ListCutPosition | src/container/list.h:459-471 | splits after an entry; leaves everything alone for an empty list or a foreign entry |
| IntrusiveList.ListCutBefore | src/container/list.h:487-501 | splits before an entry, or takes all entries if it is the head |
| IntrusiveList.ListSplice | src/container/list.h:522-527 | joins at the front |
| IntrusiveList.ListSpliceTail | src/container/list.h:534-539 | joins at the back |
| IntrusiveList.ListSpliceInit | src/container/list.h:548-555 | joins at the front and empties the source list |
| IntrusiveList.ListSpliceTailInit | src/container/list.h:565-572 | joins at the back and empties the source list |
| IntrusiveList.CutThenSplice | src/container/list.h:433-555 | cutting anywhere and splicing back restores the list |
| IntrusiveList.DeleteWhileIterating | src/container/list.h:784-788 | a deleting safe loop leaves exactly the other entries, in order |
| IntrusiveList.KeptExact | src/container/list.h:784-788 | the entries left are those at the positions not deleted, in increasing order |
| LogFormat.LogFmtToString | src/log/log.c:73-129 | writes only inside the buffer and leaves the first len - 1 characters of the whole expansion, or all of it, and NUL |
| LogFormat.LogGetTimeFmt | src/log/log.c:37-71 | writes the field cut to the room and never advances past it |
| LogFormat.FieldsPrinted | src/log/log.c:42-64 | the year, month, day, hour, minute and second directives print exactly 1900 + tm_year, tm_mon + 1 and so on, in 4 digits for the year and 2 for the others |
| LogFormat.DateAndTimePrinted | src/log/log.c:52-66 | %F and %T print those fields with a dash or a colon at fixed positions |
| LogFormat.LinePrinted | src/log/log.c:108-113 | the line number reads back, sign included, without superfluous digits |
| LogFormat.LevelPrinted | src/log/log.c:17-35 | the level prints as one of the six names |
| LogFormat.OthersPrinted | src/log/log.c:77-125 | the file name, unknown letters and plain characters print as they are, a lone percent sign prints nothing |
| LogFormat.EscapeRoundTrip | src/log/log.c:84-88 | the format that doubles every percent sign prints the text itself |
| LogFormat.ExpandConcat | src/log/log.c:73-126 | complete formats compose |
| LogFormat.ExpandNoNul | src/log/log.c:127-128 | the expansion holds no NUL, so the one written at the end is the first |
| LogFormat.CompositeDirectives | src/log/log.c:52-66 | %F is %Y-%m-%d and %T is %H:%M:%S |
| LogFormat.PaddedRoundTrip | src/log/log.c:43-66 | a zero-padded field of any number reads back, sign included, and is as wide as asked or as the number needs |

## Left out

- Weak memory ordering, the inside of pthreads and of malloc: steps are sequentially consistent, critical sections atomic, and allocated blocks fresh and disjoint.
- Failure of the malloc calls whose result the source does not check (a work in threadpool_submit, a timer in co_timer_after).
- The name registry, constructor callbacks, flags and refcount of a memory pool; a name that is NULL or taken makes mempool_create return NULL before the part modelled here.
- Arguments of mempool_free that lie inside a slab in use but are not the address of a live object, such as a double free.
- SlabSizing.SizePool: covers the requests that `calculate_alignment` rounds up to a power of two up to a page. For the others the code goes wrong: AlignToZero, AlignPadsIff and NoWrapIff say where. The same holds for SlabSizing.PoolSizeBounds and MempoolCode.MempoolCreate.
- MempoolCode.Mempool.FreeAllSlabs: each list loop takes the first remaining entry, which is what the safe loop visits when every entry is removed; `slabs` are values in a map, not linked structs.
- ThreadPool.StepKeeps: a task body and its cleanup are one step that ends; that tasks terminate is an assumption of the drain bound.
- CoSchedCode.Sched.CoDone: freeing the coroutine and lowering co_nums are one step.
- Coroutine stacks, context switches and the status fields; the condition variable on which the loop sleeps while there are no coroutines; stopping the scheduler.
- Events other than timeouts in `event_loop_run`: no descriptor becomes ready, and no signal interrupts the wait.
- Overflow of a long in deadlines and of the unsigned element counts of the heap.
- heap_destory, co_timer_destory and other releases of memory that no property needs.
- Wait queues, coroutine mutex, spinlock, channel, streams, server, futures and event loop: unfinished code or I/O wrappers.
- hlist operations, list_move, list_replace_init, list_del_init and the careful variants: unused here or easy members of the same family.
- Opening the log file, the level tables and the variable part of a log message.
