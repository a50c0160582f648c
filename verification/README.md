# Verified models of the systems kernels

Dafny models of the concurrent, allocator and storage kernels in `system-level-programming/`, and of three
algorithms from the interview notes, with proofs of what they promise. `dafny verify dfyconfig.toml` checks
everything.

**Step protocols**, as transition systems whose steps are the source's atomic operations, for any number of
threads: the futex mutex (`FutexMutex.dfy`) and the lock-free ring queue (`MpmcQueue.dfy`, with the mask and
capacity arithmetic in `Bits.dfy`). Results are about every state of every run.

**The fiber runtime** (`FiberScheduler.dfy`) is a class. A fiber is a script of calls, and a context switch is
a step of the scheduler. Scripts are finite and fixed, so a fiber's later calls do not depend on values it received,
and `Run` ends. Every method is proved against a function on the whole state of the runtime (`FiberWorld`), which
logs the completed calls; that every fiber's script is the calls it has completed followed by those it has left, that
channels and mutexes are what the log made of them, and that nobody overtakes, is then proved about that function. The
invariant counts, for each mutex and channel, the units available against the runnable fibers about to take one.

**The transactional engine** (`MvccVersions.dfy`, `WalLog.dfy`, `WalTail.dfy`, `TransactionalEngine.dfy`) is a class
over version chains and a byte-level log. Its ghost state is a specification of snapshot isolation: the committed
database, and for each active transaction its snapshot and its own writes. `Valid` ties every chain, view and
log byte to it, and every operation keeps `Valid` (a put, exactly when no other active transaction wrote the key).
`Sane` is what every operation needs, and keeps after conflicting puts too. A key that was never written is identified
with its empty initial version, which is what the first put leaves for older snapshots.

**Storage structures**: the slotted page on the bytes of its 4096-byte buffer (`SlottedPage.dfy`), the buffer
pool with its LRU-K replacer (`BufferPool.dfy`, `PageHistory.dfy`, `LruKReplacer.dfy`), the skip list of heap nodes
(`SkipList.dfy`), Bloom filter, SSTable and LSM engine (`BloomFilter.dfy`, `SsTable.dfy`, `LsmEngine.dfy`), and
the checksummed log store (`WalStore.dfy`, `Fnv.dfy`; FNV-1a is section 2 of draft-eastlake-fnv). Each refines a
plain map.

**The buddy allocator** (`BuddyAllocator.dfy`): free and live blocks tile the pool, free blocks are maximally
coalesced, and the live blocks alone determine the free ones.

**From the notes**: KMP (`Kmp.dfy`), nested undo-log transactions against a stack of full snapshots
(`NestedTransactions.dfy`), and a price-time matching engine (`OrderBook.dfy`).

Every lemma switches automatic induction off, so each induction is written out.

Where the code falls short of what a reader may expect, the model keeps the code and states exactly when the
property holds:

- The engine does not detect write-write conflicts. `Engine.Put` keeps the engine consistent exactly when no other
  active transaction wrote the key. `AbortTransaction` takes back exactly its own versions of a key exactly when these
  are the newest ones. `ConflictingPut`, `ConflictingCommits` and `CommitThenAbort` say what two writers of a key lead
  to; `AbortedWriteSurvives`, `EarlierWriteLost` and `CommittedWriteLost` are runs that show it.
- The engine reopens its log for append without cutting off a torn record. `AllMetIff`: all records are met exactly
  when the log ended with a complete one, or the bytes repeat. `OwnIdMetIff` rules repetition out for an appended
  transaction with an id of its own; the engine does not promise that after a tear inside a header, since it then may
  give out the torn id again. `RecoverTorn` and `RecoverBehindGap` say what is recovered in every case, and
  `SwallowedCommit` and `TornPutCommitted` are logs that lose a commit and that commit a torn put.
- Recovery gives out an id again whose header was torn. `TornIdReused` and `NextIdAfterCut` say exactly when.
- The log store does not cut off a torn block: `AppendedOps`.
- `new_page` leaves the page clean, and a write that is not reported dirty may be lost when the page is evicted.
  `FetchPage` finds the latest content exactly when the page's history did not lose it, and `StatusIsHistory` says
  which histories do; `UnreportedPage` is one.
- `new_page` hands out ids from 0 whatever was fetched before. `NewPage` keeps the pool consistent exactly when the id
  is not resident, or sits in the frame about to be taken; `FetchThenNew` is a run where it does not.
- The book takes an order whose id already rests. `Rest` keeps the index exact exactly for new ids, `AddOrder` says
  when it is exact again, and `SameIdTwice` is a run that leaves an order unknown to the index.
- Any fiber may unlock a mutex. `MutualExclusion` says exactly which histories still exclude; `StolenMutex` does not.
- The allocator frees whatever it is given. `Deallocate` keeps the pool consistent exactly for live blocks.
- The lookup of a key in an older snapshot gives the empty value, not nothing, once somebody has put the key.

## Model

| member | source | states |
|---|---|---|
| `FutexMutex.MutualExclusion` | system-level-programming/06-systems-ipc-and-shared-memory/exercises/futex_mutex.hpp:25-56 | In every state of every run, with any number of threads and spurious wake-ups, at most one thread holds the mutex, and the holder never finds the word at 0, so its `fetch_sub` never wraps. |
| `FutexMutex.NoLostWakeup` | system-level-programming/06-systems-ipc-and-shared-memory/exercises/futex_mutex.hpp:32-55 | While a thread sleeps, the word is 2, or some thread is about to exchange 2 in, or an unlocker still owes a wake. |
| `FutexMutex.AcquiresIffFree` | system-level-programming/06-systems-ipc-and-shared-memory/exercises/futex_mutex.hpp:25-47 | In any reachable state a thread gets the mutex exactly by its exchange of 1, its exchange of 2 or its `try_lock`, and exactly when nobody owns it; a `try_lock` that does not get it changes nothing. |
| `FutexMutex.ReleasesOnce` | system-level-programming/06-systems-ipc-and-shared-memory/exercises/futex_mutex.hpp:49-56 | Unlocking frees the mutex in one step without waiters; with waiters the word is cleared next and then one sleeper is woken, if there is any. No other thread is touched. |
| `FutexMutex.SleepsIffContended` | system-level-programming/06-systems-ipc-and-shared-memory/exercises/futex_mutex.hpp:28-41 | A thread falls asleep exactly when the kernel finds the word still at 2, and gets to the kernel only with the word marked 2 and the mutex owned. |
| `FutexMutex.UncontendedIsFast` | system-level-programming/06-systems-ipc-and-shared-memory/exercises/futex_mutex.hpp:25-56 | Without contention locking and unlocking is one exchange and one decrement, and gives back the state before. |
| `FutexMutex.StepKeepsInv` | system-level-programming/06-systems-ipc-and-shared-memory/exercises/futex_mutex.hpp:25-56 | Every atomic step of every thread keeps the invariant behind both. |
| `FutexMutex.RunKeepsInv` | system-level-programming/06-systems-ipc-and-shared-memory/exercises/futex_mutex.hpp:25-56 | The invariant holds in every reachable state. |
| `FutexMutex.QuiescentMeansEmpty` | system-level-programming/06-systems-ipc-and-shared-memory/exercises/futex_mutex.hpp:37-55 | When nobody is inside the mutex code, nobody sleeps and the word is 0. |
| `FutexMutex.DrainIsBounded` | system-level-programming/06-systems-ipc-and-shared-memory/exercises/futex_mutex.hpp:25-56 | Once no new calls arrive, at most `Work` steps are left, and three more for every spurious wake-up, whatever the schedule: no livelock. |
| `FutexMutex.WorkBound` | system-level-programming/06-systems-ipc-and-shared-memory/exercises/futex_mutex.hpp:25-56 | That bound is at most 32 n^2 + 16 n + 1 steps for n threads. |
| `FutexMutex.EveryDrainServesEveryone` | system-level-programming/06-systems-ipc-and-shared-memory/exercises/futex_mutex.hpp:25-56 | Such a run, spurious wake-ups included, has at most quadratically many steps besides three for each of them, and can only come to rest with every call served, all threads out and the word at 0: no deadlock. |
| `MpmcQueue.StepKeepsInv` | system-level-programming/04-hardware-sync-and-lock-free-internals/projects/lockfree_ring_buffers/mpmc_queue.hpp:46-107 | Every atomic step of every producer and consumer keeps the cell-lifecycle invariant. |
| `MpmcQueue.RunKeepsInv` | system-level-programming/04-hardware-sync-and-lock-free-internals/projects/lockfree_ring_buffers/mpmc_queue.hpp:22-107 | The invariant holds in every state of every interleaving of any number of threads. |
| `MpmcQueue.NoDataRace` | system-level-programming/04-hardware-sync-and-lock-free-internals/projects/lockfree_ring_buffers/mpmc_queue.hpp:54-61 | Two threads that are writing, publishing, moving out or releasing never use the same cell. |
| `MpmcQueue.StepRefinesFifo` | system-level-programming/04-hardware-sync-and-lock-free-internals/projects/lockfree_ring_buffers/mpmc_queue.hpp:46-107 | The atomic steps refine a bounded FIFO, linearised at the successful compare-exchanges. |
| `MpmcQueue.PopReturnsHead` | system-level-programming/04-hardware-sync-and-lock-free-internals/projects/lockfree_ring_buffers/mpmc_queue.hpp:83-98 | The pop that claims a position returns exactly the value then at the head of the queue. |
| `MpmcQueue.EveryPushClaimed` | system-level-programming/04-hardware-sync-and-lock-free-internals/projects/lockfree_ring_buffers/mpmc_queue.hpp:56-60 | Every position below the enqueue counter was claimed by some producer step of the run. |
| `MpmcQueue.EveryPopClaimed` | system-level-programming/04-hardware-sync-and-lock-free-internals/projects/lockfree_ring_buffers/mpmc_queue.hpp:93-97 | Every position below the dequeue counter was claimed by some consumer step of the run. |
| `MpmcQueue.ClaimedAtMostOnce` | system-level-programming/04-hardware-sync-and-lock-free-internals/projects/lockfree_ring_buffers/mpmc_queue.hpp:56-97 | No position is claimed by two producers, nor by two consumers. |
| `MpmcQueue.QuiescentIsExact` | system-level-programming/04-hardware-sync-and-lock-free-internals/projects/lockfree_ring_buffers/mpmc_queue.hpp:46-107 | With no call in flight nothing is lost or duplicated: exactly the positions below the dequeue counter were popped, with the pushed values, and the rest sit in their cells. |
| `MpmcQueue.PushRefusalExact` | system-level-programming/04-hardware-sync-and-lock-free-internals/projects/lockfree_ring_buffers/mpmc_queue.hpp:50-68 | What the sequence load of a push decides, in any reachable state: it refuses if and only if its position is the true enqueue position and the previous lap of its cell is unclaimed or still being moved out; it goes on to claim if and only if the position is true and claimable, or claimed by a producer who has not published; otherwise it reloads. |
| `MpmcQueue.PopRefusalExact` | system-level-programming/04-hardware-sync-and-lock-free-internals/projects/lockfree_ring_buffers/mpmc_queue.hpp:87-105 | What the sequence load of a pop decides: it refuses if and only if its position is the true dequeue position and that position is unclaimed or not yet published; it goes on to claim if and only if the position is true and published, or claimed by a consumer who has not released; otherwise it reloads. |
| `MpmcQueue.PushClaimExact` | system-level-programming/04-hardware-sync-and-lock-free-internals/projects/lockfree_ring_buffers/mpmc_queue.hpp:56-60 | The exchange of a push claims exactly when its position is the true one and the exchange does not fail spuriously, and then there is room; else the push goes on with the true position and the same value. |
| `MpmcQueue.PopClaimExact` | system-level-programming/04-hardware-sync-and-lock-free-internals/projects/lockfree_ring_buffers/mpmc_queue.hpp:93-97 | The exchange of a pop claims exactly when its position is the true one and the exchange does not fail spuriously, and then the queue is not empty; else it goes on with the true position. |
| `MpmcQueue.SoloPush` | system-level-programming/04-hardware-sync-and-lock-free-internals/projects/lockfree_ring_buffers/mpmc_queue.hpp:46-70 | A push that runs alone from any reachable state ends within six steps: the queue has the value at its end, unless the push was blocked, and then nothing has changed. |
| `MpmcQueue.SoloPop` | system-level-programming/04-hardware-sync-and-lock-free-internals/projects/lockfree_ring_buffers/mpmc_queue.hpp:83-107 | A pop that runs alone from any reachable state takes exactly the value at the head, unless it was blocked, and then nothing has changed. |
| `Bits.MaskIsModulo` | system-level-programming/04-hardware-sync-and-lock-free-internals/projects/lockfree_ring_buffers/mpmc_queue.hpp:24-50 | Masking with capacity - 1 is the remainder modulo the capacity, which is how the queue model indexes its cells. |
| `Bits.CapacityMaskIsMask` | system-level-programming/04-hardware-sync-and-lock-free-internals/projects/lockfree_ring_buffers/mpmc_queue.hpp:119-129 | The rounded capacity is a power of two, at least 2, and reaches the request. |
| `Bits.CapacityMaskIsLeast` | system-level-programming/04-hardware-sync-and-lock-free-internals/projects/lockfree_ring_buffers/mpmc_queue.hpp:119-129 | No smaller power of two from 2 on fits the request. |
| `Bits.CapacityWraps` | system-level-programming/04-hardware-sync-and-lock-free-internals/projects/lockfree_ring_buffers/mpmc_queue.hpp:119-129 | The rounded capacity wraps around to 0 exactly for requests above 2^63. |
| `Bits.XorInPair` | system-level-programming/02-virtual-memory-and-custom-allocators/projects/slab_and_buddy_allocator/buddy_allocator.hpp:116-119 | Flipping the size bit of an aligned offset moves to the other half of the enclosing block. |
| `BuddyBlocks.HalvesAreBuddies` | system-level-programming/02-virtual-memory-and-custom-allocators/projects/slab_and_buddy_allocator/buddy_allocator.hpp:89-95 | The two halves a split makes are each other's XOR buddies and make up the block. |
| `BuddyBlocks.ParentHalves` | system-level-programming/02-virtual-memory-and-custom-allocators/projects/slab_and_buddy_allocator/buddy_allocator.hpp:115-134 | A block and its XOR buddy are the two halves of one aligned parent. |
| `BuddyBlocks.SplitTiles` | system-level-programming/02-virtual-memory-and-custom-allocators/projects/slab_and_buddy_allocator/buddy_allocator.hpp:89-95 | Splitting a block of a tiling gives a tiling of the pool. |
| `BuddyBlocks.MergeTiles` | system-level-programming/02-virtual-memory-and-custom-allocators/projects/slab_and_buddy_allocator/buddy_allocator.hpp:130-134 | Merging two buddies of a tiling gives a tiling of the pool. |
| `BuddyBlocks.FreeBlocksAreCanonical` | system-level-programming/02-virtual-memory-and-custom-allocators/projects/slab_and_buddy_allocator/buddy_allocator.hpp:61-138 | The live blocks alone determine the free blocks: any history that leaves the same live blocks leaves the same maximal free blocks. |
| `BuddyPool.AllFreedIsWholePool` | system-level-programming/02-virtual-memory-and-custom-allocators/projects/slab_and_buddy_allocator/buddy_allocator.hpp:104-138 | Once everything is freed the only free block is the whole pool. |
| `BuddyPool.RoomIff` | system-level-programming/02-virtual-memory-and-custom-allocators/projects/slab_and_buddy_allocator/buddy_allocator.hpp:61-99 | The free lists have a block of at least the order if and only if the live blocks leave room for an aligned block of it: coalescing loses no room. |
| `BuddyFree.StrayFreeBreaks` | system-level-programming/02-virtual-memory-and-custom-allocators/projects/slab_and_buddy_allocator/buddy_allocator.hpp:104-138 | Freeing a block that is not live never leaves a consistent pool, however far it merges. |
| `BuddyPool.FitsOrderUnique` | system-level-programming/02-virtual-memory-and-custom-allocators/projects/slab_and_buddy_allocator/buddy_allocator.hpp:160-169 | The order of a request is determined by its size. |
| `BuddyAllocator.SizeToOrder` | system-level-programming/02-virtual-memory-and-custom-allocators/projects/slab_and_buddy_allocator/buddy_allocator.hpp:160-169 | Gives the least order whose blocks hold the request, or the top order. |
| `BuddyAllocator.BuddyAllocator.Allocate` | system-level-programming/02-virtual-memory-and-custom-allocators/projects/slab_and_buddy_allocator/buddy_allocator.hpp:61-99 | Fails exactly for size 0, sizes over the pool, or when no aligned block of the needed order lies in the pool apart from all live blocks. Otherwise it hands out the left end of the last block in the first non-empty free list from the needed order up, as a new live block; the lists gain the right halves of its splits and nothing else, and the pool stays consistent. |
| `BuddyFree.TakenFree` | system-level-programming/02-virtual-memory-and-custom-allocators/projects/slab_and_buddy_allocator/buddy_allocator.hpp:73-95 | Allocation uses up one free block, of the smallest sufficient order, and frees exactly the right halves of its splits; with a block of exactly the order every other free block stays. |
| `BuddyAllocator.BuddyAllocator.Deallocate` | system-level-programming/02-virtual-memory-and-custom-allocators/projects/slab_and_buddy_allocator/buddy_allocator.hpp:104-138 | Takes any pointer and size. The pool stays consistent, blocks and byte count, if and only if they name a live block, which is then removed from the live ones, and the free blocks are coalesced maximally; the merges made are counted, and no split is. |
| `BuddyAllocator.BuddyAllocator.SplitDown` | system-level-programming/02-virtual-memory-and-custom-allocators/projects/slab_and_buddy_allocator/buddy_allocator.hpp:88-95 | Splitting down to the wanted order keeps the whole pool consistent, and leaves exactly the right halves in the lists. |
| `BuddyAllocator.BuddyAllocator.MergeUp` | system-level-programming/02-virtual-memory-and-custom-allocators/projects/slab_and_buddy_allocator/buddy_allocator.hpp:114-137 | Merges on any lists as the recursive definition says; on a consistent pool it leaves no two buddies free together. |
| `FiberState.ExactlyOnePlace` | system-level-programming/12-capstone-systems/03-cooperative-fiber-scheduler/fiber_scheduler.hpp:93-140 | An unfinished fiber is in exactly one place: the ready queue, running, or the wait list of the one resource its next call needs. |
| `FiberState.StuckIsJustified` | system-level-programming/12-capstone-systems/03-cooperative-fiber-scheduler/fiber_scheduler.hpp:113-129 | With nothing runnable, no fiber waits for a free mutex, a free slot or a queued value. |
| `FiberState.WakeKeepsInv` | system-level-programming/12-capstone-systems/03-cooperative-fiber-scheduler/fiber_scheduler.hpp:135-140 | Waking the longest waiter settles exactly the unit that was produced, so no wake-up is lost. |
| `FiberState.BlockKeepsInv` | system-level-programming/12-capstone-systems/03-cooperative-fiber-scheduler/fiber_scheduler.hpp:161-225 | Suspending is safe because nothing was available when the fiber tested. |
| `FiberState.AdvanceKeepsInv` | system-level-programming/12-capstone-systems/03-cooperative-fiber-scheduler/fiber_scheduler.hpp:161-237 | A completed call takes one unit and leaves every other waiter accounted for. |
| `FiberScheduler.FiberRuntime.LockCall` | system-level-programming/12-capstone-systems/03-cooperative-fiber-scheduler/fiber_scheduler.hpp:161-171 | Takes a free mutex, and the call is logged as completed; else suspends at the back of its wait list. Everything else is unchanged, and the runtime stays consistent. |
| `FiberScheduler.FiberRuntime.UnlockCall` | system-level-programming/12-capstone-systems/03-cooperative-fiber-scheduler/fiber_scheduler.hpp:173-182 | Frees the mutex, logs the call and makes its longest waiter ready; everything else is unchanged. |
| `FiberLocks.OneInside` | system-level-programming/12-capstone-systems/03-cooperative-fiber-scheduler/fiber_scheduler.hpp:161-182 | Over any history of completed calls in which every lock found the mutex free and only holders unlocked: at most one fiber is between its lock and its unlock, and there is one exactly when the last call was a lock. |
| `FiberScheduler.FiberRuntime.MutualExclusion` | system-level-programming/12-capstone-systems/03-cooperative-fiber-scheduler/fiber_scheduler.hpp:161-182 | In every state of the runtime: at most one fiber has ever been inside each mutex if and only if nobody was let in after a fiber unlocked what another one held, before the holder unlocked it. While only holders unlock, somebody is inside exactly when the mutex is locked. |
| `FiberLocks.ExclusiveIff` | system-level-programming/12-capstone-systems/03-cooperative-fiber-scheduler/fiber_scheduler.hpp:161-182 | The same over any history of completed calls in which every lock found the mutex free. |
| `FiberScheduler.StolenMutex` | system-level-programming/12-capstone-systems/03-cooperative-fiber-scheduler/fiber_scheduler.hpp:161-182 | A concrete run: a fiber unlocks and locks a mutex that another one holds, and both are inside. |
| `FiberScheduler.FiberRuntime.SendCall` | system-level-programming/12-capstone-systems/03-cooperative-fiber-scheduler/fiber_scheduler.hpp:197-214 | Queues the value, logs the call and wakes one receiver, or suspends when full; everything else is unchanged. |
| `FiberScheduler.FiberRuntime.ReceiveCall` | system-level-programming/12-capstone-systems/03-cooperative-fiber-scheduler/fiber_scheduler.hpp:216-237 | Takes the oldest value, logs the call with it and wakes one sender, or suspends when empty; everything else is unchanged. |
| `FiberScheduler.FiberRuntime.Dispatch` | system-level-programming/12-capstone-systems/03-cooperative-fiber-scheduler/fiber_scheduler.hpp:114-124 | The fiber that has been ready longest runs next. |
| `FiberScheduler.FiberRuntime.YieldCall` | system-level-programming/12-capstone-systems/03-cooperative-fiber-scheduler/fiber_scheduler.hpp:101-111 | The running fiber has completed its call and goes to the back of the ready queue, nothing else changes. |
| `FiberScheduler.FiberRuntime.Finish` | system-level-programming/12-capstone-systems/03-cooperative-fiber-scheduler/fiber_scheduler.hpp:58-65 | A fiber whose function returns is dead and in no queue. |
| `FiberScheduler.FiberRuntime.Step` | system-level-programming/12-capstone-systems/03-cooperative-fiber-scheduler/fiber_scheduler.hpp:58-65 | Makes exactly the call that the running fiber's script has next, or finishes the fiber; the runtime stays consistent, and the fiber goes on with less left to do or gives the processor back. |
| `FiberWorld.StepKeeps` | system-level-programming/12-capstone-systems/03-cooperative-fiber-scheduler/fiber_scheduler.hpp:58-237 | Every move keeps the consistency of the whole runtime: places, units, and every fiber's script as the calls it has completed followed by those it has left. |
| `FiberWorld.StepProgress` | system-level-programming/12-capstone-systems/03-cooperative-fiber-scheduler/fiber_scheduler.hpp:93-129 | Every move leaves less work to the running fiber or gives the processor back, so no schedule of finite scripts runs forever. |
| `FiberWorld.StepLogs` | system-level-programming/12-capstone-systems/03-cooperative-fiber-scheduler/fiber_scheduler.hpp:161-237 | A call is logged as completed exactly when the fiber goes on or yields, never when it suspends; only a spawn adds a fiber. |
| `FiberWorld.RunLogs` | system-level-programming/12-capstone-systems/03-cooperative-fiber-scheduler/fiber_scheduler.hpp:78-129 | Over any number of moves the log only grows, and the fibers are the old ones and one for every spawn logged. |
| `FiberWorld.NobodyOvertakes` | system-level-programming/12-capstone-systems/03-cooperative-fiber-scheduler/fiber_scheduler.hpp:101-124 | Over any number of moves: the fibers that were ready, but for as many as were dispatched, still stand first and in the same order. |
| `FiberWorld.WaitersInOrder` | system-level-programming/12-capstone-systems/03-cooperative-fiber-scheduler/fiber_scheduler.hpp:135-237 | A wait list loses nobody but its longest waiter, who becomes ready, and gains nobody but the running fiber, at its back. |
| `FiberScheduler.FiberRuntime.Run` | system-level-programming/12-capstone-systems/03-cooperative-fiber-scheduler/fiber_scheduler.hpp:113-129 | Terminates, and is nothing but moves of the scheduler one after the other. Then every finished fiber has completed the whole script it was spawned with, call by call in order, and every other one is suspended on a locked mutex, a full channel (sender) or an empty channel (receiver). Mutexes and channels are what the log of completed calls made of them, and there is one new fiber for every spawn logged. |
| `MvccVersions.VisibleIff` | system-level-programming/09-database-transactions-and-recovery/exercises/mvcc_undo_log.hpp:25-37 | A view sees a transaction if and only if it is its creator, or older and not active at begin. |
| `MvccVersions.BinarySearchFinds` | system-level-programming/09-database-transactions-and-recovery/exercises/mvcc_undo_log.hpp:36-36 | Binary search in the sorted active ids finds exactly the members. |
| `MvccVersions.ReadTupleSnapshot` | system-level-programming/09-database-transactions-and-recovery/exercises/mvcc_undo_log.hpp:62-80 | The walk returns the newest visible version of the chain, or nothing. |
| `MvccVersions.PopSkips` | system-level-programming/09-database-transactions-and-recovery/projects/mini_transactional_engine/transactional_engine.hpp:118-131 | Popping a transaction's own versions leaves none of them and changes nothing for those who cannot see it. |
| `SnapshotIsolation.PutKey` | system-level-programming/09-database-transactions-and-recovery/projects/mini_transactional_engine/transactional_engine.hpp:70-101 | A put keeps the key's chain in agreement with the snapshot-isolation specification. |
| `SnapshotIsolation.CommitKey` | system-level-programming/09-database-transactions-and-recovery/projects/mini_transactional_engine/transactional_engine.hpp:103-116 | A commit moves the writer's value into what new snapshots read, and into nothing older. |
| `SnapshotIsolation.AbortKey` | system-level-programming/09-database-transactions-and-recovery/projects/mini_transactional_engine/transactional_engine.hpp:118-143 | A rollback restores agreement with the specification without the aborted writes. |
| `TransactionalEngine.Engine.BeginTransaction` | system-level-programming/09-database-transactions-and-recovery/projects/mini_transactional_engine/transaction_manager.hpp:33-62 | In any state, also after conflicting writes: gives a fresh id whose view sees itself and exactly the transactions finished before it. A consistent engine stays consistent. |
| `TransactionalEngine.Engine.Get` | system-level-programming/09-database-transactions-and-recovery/projects/mini_transactional_engine/transactional_engine.hpp:56-68 | Nothing exactly for a key without a slot, also after conflicting writes. In a consistent engine, snapshot isolation: the transaction's own last write, else what was committed when it began. |
| `TransactionalEngine.Engine.Put` | system-level-programming/09-database-transactions-and-recovery/projects/mini_transactional_engine/transactional_engine.hpp:70-101 | In any state: visible to the writer only; every other read is unchanged, except that a key without a slot now has the empty initial version. A consistent engine stays consistent if and only if no other active transaction wrote the key. |
| `TransactionalEngine.Engine.CommitTransaction` | system-level-programming/09-database-transactions-and-recovery/projects/mini_transactional_engine/transactional_engine.hpp:103-116 | Adds exactly the transaction's writes to the committed database of the specification and changes no chain; a consistent engine stays consistent. |
| `TransactionalEngine.Engine.AbortTransaction` | system-level-programming/09-database-transactions-and-recovery/projects/mini_transactional_engine/transactional_engine.hpp:118-143 | Pops one version per undo entry. In any state, for each key exactly the versions of the transaction go if and only if they are the newest ones; if they are for every key, as in a consistent engine, nobody else can tell that the transaction ran. |
| `TransactionalEngine.Engine.RollBack` | system-level-programming/09-database-transactions-and-recovery/projects/mini_transactional_engine/transactional_engine.hpp:121-131 | Pops one version per undo entry of each key. |
| `TransactionalEngine.ConflictingPut` | system-level-programming/09-database-transactions-and-recovery/projects/mini_transactional_engine/transactional_engine.hpp:118-131 | After a second active writer, aborting the first leaves no version of it behind if and only if it had not written the key; otherwise the second write is lost and the aborted one becomes what new transactions read. |
| `TransactionalEngine.AbortExact` | system-level-programming/09-database-transactions-and-recovery/projects/mini_transactional_engine/transactional_engine.hpp:118-131 | Whatever was written before: which keys lose exactly the versions of the aborted transaction, and that no other read changes when all do. |
| `TransactionalEngine.CommitThenAbort` | system-level-programming/09-database-transactions-and-recovery/projects/mini_transactional_engine/transactional_engine.hpp:103-131 | The second writer commits before the first aborts: memory loses the committed write and shows the aborted one, while recovery keeps the committed one. |
| `TransactionalEngine.ConflictingCommits` | system-level-programming/09-database-transactions-and-recovery/projects/mini_transactional_engine/transactional_engine.hpp:103-116 | Two writers of one key that both commit: readers and recovery keep the later put whatever the order of the commits, and agree with the specification if and only if the commits follow the puts or the values are the same. |
| `TransactionalEngine.AbortedWriteSurvives` | system-level-programming/09-database-transactions-and-recovery/projects/mini_transactional_engine/transactional_engine.hpp:70-143 | A concrete run: of two writers of one key the first aborts; a new transaction then reads the aborted value, and the second writer no longer reads its own. |
| `TransactionalEngine.EarlierWriteLost` | system-level-programming/09-database-transactions-and-recovery/projects/mini_transactional_engine/transactional_engine.hpp:70-116 | A concrete run: both writers commit, the later writer first; its value stays although the other commit is the last one. |
| `TransactionalEngine.CommittedWriteLost` | system-level-programming/09-database-transactions-and-recovery/projects/mini_transactional_engine/transactional_engine.hpp:70-189 | A concrete run: after such a commit and abort a new transaction reads the aborted value, and recovery finds the committed one. |
| `TransactionalEngine.CrashRecovery` | system-level-programming/09-database-transactions-and-recovery/projects/mini_transactional_engine/transactional_engine.hpp:148-189 | A crash at any byte of the log recovers exactly the database committed as of the last complete record. The ids given out next are exactly those above every id whose header is complete in the kept bytes. |
| `TransactionalEngine.RecoveryMatchesMemory` | system-level-programming/09-database-transactions-and-recovery/projects/mini_transactional_engine/transactional_engine.hpp:148-189 | Recovering the whole log gives for every key what a fresh reader would see in memory. |
| `TransactionalEngine.WrittenIsComplete` | system-level-programming/09-database-transactions-and-recovery/projects/mini_transactional_engine/transactional_engine.hpp:84-114 | Records already written stay complete however much of what follows is lost. |
| `WalLog.RecoverCutLog` | system-level-programming/09-database-transactions-and-recovery/projects/mini_transactional_engine/transactional_engine.hpp:148-189 | For every byte prefix, recovery holds for each key the last value written by a transaction whose commit record is complete in it; torn tails, unfinished and aborted writers are ignored. |
| `WalLog.RecoverFromWal` | system-level-programming/09-database-transactions-and-recovery/projects/mini_transactional_engine/transactional_engine.hpp:148-189 | The two passes compute that recovery function on the bytes of any file. |
| `WalLog.AnalysisPass` | system-level-programming/09-database-transactions-and-recovery/projects/mini_transactional_engine/transactional_engine.hpp:155-172 | The first loop finds the committed ids and the largest id. |
| `WalLog.RedoPass` | system-level-programming/09-database-transactions-and-recovery/projects/mini_transactional_engine/transactional_engine.hpp:174-188 | The second loop replays the committed puts in order. |
| `WalLog.TornParses` | system-level-programming/09-database-transactions-and-recovery/projects/mini_transactional_engine/transactional_engine.hpp:159-182 | A torn record is not met at all, or met as a put of the same transaction. |
| `WalLog.RedoMeaning` | system-level-programming/09-database-transactions-and-recovery/projects/mini_transactional_engine/transactional_engine.hpp:174-188 | Replaying leaves for each key the last value put by one of the given transactions. |
| `WalTail.JoinedParses` | system-level-programming/09-database-transactions-and-recovery/projects/mini_transactional_engine/transactional_engine.hpp:36-41 | The log is reopened for append with its torn tail. For every cut, in the header or in the value, and any appended bytes: recovery makes one entry of the torn record and goes on in the appended bytes at the distance that entry announces; under 21 bytes there is no entry. |
| `WalTail.JoinedHeader` | system-level-programming/09-database-transactions-and-recovery/projects/mini_transactional_engine/transactional_engine.hpp:155-172 | That entry has the torn record's kind, from nine bytes on its transaction id, and behind a complete header its announced length. |
| `WalTail.MetBehindGap` | system-level-programming/09-database-transactions-and-recovery/projects/mini_transactional_engine/transactional_engine.hpp:155-188 | When the gap ends after the first j appended records, exactly the others are met. |
| `WalTail.RecoverAny` | system-level-programming/09-database-transactions-and-recovery/projects/mini_transactional_engine/transactional_engine.hpp:148-189 | On the bytes of any file: the table and the next id are those of the records the file is taken for. |
| `WalTail.RecoverTorn` | system-level-programming/09-database-transactions-and-recovery/projects/mini_transactional_engine/transactional_engine.hpp:148-189 | For a record torn at any byte and any appended bytes: the table and the next id are those of the kept records, the torn record as completed by appended bytes, and what the rest reads as. |
| `WalTail.RecoverBehindGap` | system-level-programming/09-database-transactions-and-recovery/projects/mini_transactional_engine/transactional_engine.hpp:148-189 | When the gap ends between two appended records, recovery holds for each key exactly the last value put by a transaction whose commit record is met, among the kept records, the torn record as completed by appended bytes, and the appended records behind the gap. No assumption on ids. |
| `WalTail.RecoverWithoutTorn` | system-level-programming/09-database-transactions-and-recovery/projects/mini_transactional_engine/transactional_engine.hpp:148-189 | If no transaction met has the id read from the torn put, the torn put has no effect. |
| `WalTail.RecoverBehindValue` | system-level-programming/09-database-transactions-and-recovery/projects/mini_transactional_engine/transactional_engine.hpp:148-189 | For a put torn inside its value: the gap is what the value lacked, and the id is its own. |
| `WalTail.TornIdReused` | system-level-programming/09-database-transactions-and-recovery/projects/mini_transactional_engine/transactional_engine.hpp:155-172 | The id of a torn record is not given out again if and only if its header is complete, it is 0, or a complete record has an id as high. |
| `WalTail.NextIdAfterCut` | system-level-programming/09-database-transactions-and-recovery/projects/mini_transactional_engine/transactional_engine.hpp:155-172 | For a log cut at any byte, the ids given out next are exactly those above every id whose header is complete. |
| `WalTail.TornTailSwallows` | system-level-programming/09-database-transactions-and-recovery/projects/mini_transactional_engine/transactional_engine.hpp:148-189 | When everything appended fits into the gap, the next recovery gives the same table as without it. |
| `WalTail.TornCommitRevives` | system-level-programming/09-database-transactions-and-recovery/projects/mini_transactional_engine/transactional_engine.hpp:155-172 | A commit record torn behind its transaction id commits nothing at the first recovery, and does at the next one as soon as enough bytes follow. |
| `WalTail.CleanTailKeeps` | system-level-programming/09-database-transactions-and-recovery/projects/mini_transactional_engine/transactional_engine.hpp:36-41 | Behind a complete record, recovery holds for each key the last committed value of the kept and the appended records together. |
| `WalTail.AllMetIff` | system-level-programming/09-database-transactions-and-recovery/projects/mini_transactional_engine/transactional_engine.hpp:36-41 | The kept and appended records are met, and nothing else, if and only if the log ended with a complete record, or the torn bytes are part of a header and with the log behind them repeat the bytes of the log that a reader looks at. No assumption on ids. |
| `WalTail.ReadsExactly` | system-level-programming/09-database-transactions-and-recovery/projects/mini_transactional_engine/transactional_engine.hpp:155-188 | Which files read as exactly the given records: those that hold their bytes, as far as a reader looks, and then less than a header. |
| `WalTail.OwnIdMetIff` | system-level-programming/09-database-transactions-and-recovery/projects/mini_transactional_engine/transactional_engine.hpp:36-41 | For an appended transaction with an id of its own below 2^32 there is no such repetition: all are met if and only if the log ended with a complete record. |
| `WalTail.TornTwin` | system-level-programming/09-database-transactions-and-recovery/projects/mini_transactional_engine/transactional_engine.hpp:155-172 | A repetition: a commit record torn behind its id and written once more reads as if nothing had been torn. |
| `WalTail.SwallowedCommit` | system-level-programming/09-database-transactions-and-recovery/projects/mini_transactional_engine/transactional_engine.hpp:148-189 | A concrete log: a transaction committed behind a torn put is not recovered; behind no torn record it is. |
| `WalTail.TornPutCommitted` | system-level-programming/09-database-transactions-and-recovery/projects/mini_transactional_engine/transactional_engine.hpp:148-189 | A concrete log: a put torn in its header has its id given out again, the new transaction commits it, and recovery holds a value nobody wrote instead of the value put. |
| `Bytes.RoundTrip` | system-level-programming/09-database-transactions-and-recovery/projects/mini_transactional_engine/transactional_engine.hpp:24-29 | Reading back a little-endian field gives what was written, if it fits. |
| `LruKReplacer.VictimIsUnique` | system-level-programming/07-database-storage-and-buffer-pool/projects/concurrent_buffer_pool_manager/lru_k_replacer.hpp:54-95 | The policy never leaves a choice, so the hash map's order cannot matter. |
| `LruKReplacer.Replacer.RecordAccess` | system-level-programming/07-database-storage-and-buffer-pool/projects/concurrent_buffer_pool_manager/lru_k_replacer.hpp:28-37 | Keeps the last k of the frame's accesses; access times stay unique across frames. |
| `LruKReplacer.Replacer.SetEvictable` | system-level-programming/07-database-storage-and-buffer-pool/projects/concurrent_buffer_pool_manager/lru_k_replacer.hpp:39-52 | The size stays the number of evictable entries. |
| `LruKReplacer.Replacer.Victim` | system-level-programming/07-database-storage-and-buffer-pool/projects/concurrent_buffer_pool_manager/lru_k_replacer.hpp:54-95 | Fails exactly when nothing is evictable, else takes the policy's victim out. |
| `LruKReplacer.Replacer.Scan` | system-level-programming/07-database-storage-and-buffer-pool/projects/concurrent_buffer_pool_manager/lru_k_replacer.hpp:58-85 | The scan, in any order, finds the frame with fewer than k accesses and the earliest first access, else the one with the largest backward k-distance. |
| `LruKReplacer.Replacer.Remove` | system-level-programming/07-database-storage-and-buffer-pool/projects/concurrent_buffer_pool_manager/lru_k_replacer.hpp:97-106 | Removes the entry; the size stays the number of evictable entries. |
| `BufferPool.BufferPool.NewPage` | system-level-programming/07-database-storage-and-buffer-pool/projects/concurrent_buffer_pool_manager/buffer_pool_manager.hpp:46-77 | Fails exactly when every frame is pinned; otherwise the first free frame, else the LRU-K victim, holds the page pinned with its initial bytes and nothing else is touched. The pool stays consistent if and only if, before the call, the id was not resident or sat in the very frame to be taken. |
| `BufferPool.BufferPool.FetchPage` | system-level-programming/07-database-storage-and-buffer-pool/projects/concurrent_buffer_pool_manager/buffer_pool_manager.hpp:82-121 | Fails exactly when the page is not resident and every frame is pinned. The frame then holds the latest content if and only if the page's history did not lose it; on a miss the frame is the first free one, else the LRU-K victim, pinned frames keep page and bytes, and the access is recorded for LRU-K. |
| `BufferPool.BufferPool.WritePage` | system-level-programming/07-database-storage-and-buffer-pool/projects/concurrent_buffer_pool_manager/buffer_pool_manager.hpp:76-76 | A client writing through the pointer it was given makes these bytes the page's latest content and changes no other page; a page that had lost a write has its guarantee back. |
| `BufferPool.BufferPool.UnpinPage` | system-level-programming/07-database-storage-and-buffer-pool/projects/concurrent_buffer_pool_manager/buffer_pool_manager.hpp:126-145 | Drops a pin and adds the report, if any, to the page's history and the frame's mark; fails exactly for pages not resident or not pinned. No access is recorded. |
| `BufferPool.BufferPool.FlushPage` | system-level-programming/07-database-storage-and-buffer-pool/projects/concurrent_buffer_pool_manager/buffer_pool_manager.hpp:150-160 | Puts a resident page's bytes on disk, marked dirty or not, and records the flush in the page's history; fails exactly for pages not resident. |
| `BufferPool.BufferPool.FlushAllPages` | system-level-programming/07-database-storage-and-buffer-pool/projects/concurrent_buffer_pool_manager/buffer_pool_manager.hpp:162-170 | Leaves no dirty frame and loses no history; the disk then holds the latest content of exactly the pages whose latest write is neither lost nor unsaved. |
| `BufferPool.BufferPool.FindFrame` | system-level-programming/07-database-storage-and-buffer-pool/projects/concurrent_buffer_pool_manager/buffer_pool_manager.hpp:181-188 | A free frame, else the LRU-K victim; nothing exactly when all are pinned. |
| `BufferPool.BufferPool.Install` | system-level-programming/07-database-storage-and-buffer-pool/projects/concurrent_buffer_pool_manager/buffer_pool_manager.hpp:57-76 | Evicting and installing keeps page table and frames inverse exactly when the page is not resident elsewhere. |
| `PoolState.EvictCoherent` | system-level-programming/07-database-storage-and-buffer-pool/projects/concurrent_buffer_pool_manager/buffer_pool_manager.hpp:100-107 | Writing back exactly the marked frames keeps disk and frames in step with every page's history. |
| `PoolState.TwiceResident` | system-level-programming/07-database-storage-and-buffer-pool/projects/concurrent_buffer_pool_manager/buffer_pool_manager.hpp:54-69 | Handing out the id of a page resident in another frame breaks the page table. |
| `PageHistory.StatusIsHistory` | system-level-programming/07-database-storage-and-buffer-pool/projects/concurrent_buffer_pool_manager/buffer_pool_manager.hpp:57-160 | Exactly which histories lose a page's latest write: it was evicted after that write, not flushed in between, with no report in force; and it was not written since. |
| `BufferPool.FetchThenNew` | system-level-programming/07-database-storage-and-buffer-pool/projects/concurrent_buffer_pool_manager/buffer_pool_manager.hpp:46-121 | A concrete run on two frames: page 0 is fetched, the next new page gets id 0 too, and both frames claim it. |
| `BufferPool.UnreportedPage` | system-level-programming/07-database-storage-and-buffer-pool/projects/concurrent_buffer_pool_manager/buffer_pool_manager.hpp:46-160 | A concrete run on one frame: a new page never reported dirty comes back as 4096 zero bytes, unless it was flushed before its eviction. |
| `SlottedPage.Page.InsertTuple` | system-level-programming/07-database-storage-and-buffer-pool/exercises/slotted_page.hpp:75-110 | Succeeds exactly when live bytes + payload + 6 * (slot count + 1) fit in 4072; then stores the payload under the lowest unused id and changes no other tuple, else changes nothing. It compacts exactly when the bytes below the free pointer do not suffice. |
| `SlottedPage.Page.GetTuple` | system-level-programming/07-database-storage-and-buffer-pool/exercises/slotted_page.hpp:115-122 | Returns the stored tuple; fails exactly for unknown or deleted ids. |
| `SlottedPage.Page.UpdateTuple` | system-level-programming/07-database-storage-and-buffer-pool/exercises/slotted_page.hpp:127-154 | Fails exactly when there is no such tuple, or the longer payload does not fit beside all live bytes; changes only the named tuple. |
| `SlottedPage.Page.DeleteTuple` | system-level-programming/07-database-storage-and-buffer-pool/exercises/slotted_page.hpp:159-167 | Removes exactly the named tuple and gives its bytes back. |
| `SlottedPage.Page.Compact` | system-level-programming/07-database-storage-and-buffer-pool/exercises/slotted_page.hpp:172-193 | Changes no tuple and leaves all unused bytes free. |
| `SlottedPage.EmptyPages` | system-level-programming/07-database-storage-and-buffer-pool/exercises/slotted_page.hpp:50-58 | A fresh page and a page of zeros both store nothing and use no space. |
| `SlotSpace.LiveFits` | system-level-programming/07-database-storage-and-buffer-pool/exercises/slotted_page.hpp:65-70 | Tuples in bounds and disjoint cannot take more than the space between pointer and page end. |
| `SlotSpace.MovedOk` | system-level-programming/07-database-storage-and-buffer-pool/exercises/slotted_page.hpp:177-184 | Compacted tuples are in bounds, disjoint and clear of the slot array. |
| `SlottedPage.Inserted` | system-level-programming/07-database-storage-and-buffer-pool/exercises/slotted_page.hpp:86-106 | The writes of an insert, on the bytes of the page, add exactly one tuple. |
| `SlottedPage.Compacted` | system-level-programming/07-database-storage-and-buffer-pool/exercises/slotted_page.hpp:186-192 | Copying the compacted tuples back keeps every tuple. |
| `SkipList.SkipList.LevelsNest` | system-level-programming/08-database-indexing-and-concurrency/projects/concurrent_lsm_tree_engine/skiplist_memtable.hpp:66-77 | Over the forward pointers of any reachable list: each level runs from the head through nodes with strictly increasing keys, and every node of a level is on the level below. |
| `SkipList.LevelList` | system-level-programming/08-database-indexing-and-concurrency/projects/concurrent_lsm_tree_engine/skiplist_memtable.hpp:66-91 | Following the pointers of a level visits exactly the nodes linked at it. |
| `SkipLevels.WalkVisits` | system-level-programming/08-database-indexing-and-concurrency/projects/concurrent_lsm_tree_engine/skiplist_memtable.hpp:86-91 | Level l visits exactly the nodes taller than l, in list order. |
| `SkipLevels.NextInserted` | system-level-programming/08-database-indexing-and-concurrency/projects/concurrent_lsm_tree_engine/skiplist_memtable.hpp:73-77 | Which links a new node of a given height changes, at every level. |
| `SkipList.SkipList.Put` | system-level-programming/08-database-indexing-and-concurrency/projects/concurrent_lsm_tree_engine/skiplist_memtable.hpp:45-81 | For any drawn height, changes exactly one entry of the map of puts; the byte count stays the sum over the nodes and the level the height of the tallest. |
| `SkipList.SkipList.Get` | system-level-programming/08-database-indexing-and-concurrency/projects/concurrent_lsm_tree_engine/skiplist_memtable.hpp:83-99 | Is lookup in the map of puts. |
| `SkipList.SkipList.ToVector` | system-level-programming/08-database-indexing-and-concurrency/projects/concurrent_lsm_tree_engine/skiplist_memtable.hpp:101-112 | Lists that map in strictly increasing key order, completely. |
| `SkipList.InsertLinked` | system-level-programming/08-database-indexing-and-concurrency/projects/concurrent_lsm_tree_engine/skiplist_memtable.hpp:73-77 | After linking, every forward pointer leads to the next node tall enough. |
| `BloomFilter.Bloom.Add` | system-level-programming/08-database-indexing-and-concurrency/projects/concurrent_lsm_tree_engine/bloom_filter.hpp:27-35 | The set bits stay exactly the probes of the keys added so far, so every key ever added stays a possible member. |
| `BloomFilter.Contains` | system-level-programming/08-database-indexing-and-concurrency/projects/concurrent_lsm_tree_engine/bloom_filter.hpp:37-48 | Says no exactly when some probe of the key finds its bit clear. |
| `BloomFilter.SetBitSets` | system-level-programming/08-database-indexing-and-concurrency/projects/concurrent_lsm_tree_engine/bloom_filter.hpp:33-43 | Setting a bit sets it and touches no other. |
| `BloomFilter.MayContainIff` | system-level-programming/08-database-indexing-and-concurrency/projects/concurrent_lsm_tree_engine/bloom_filter.hpp:37-48 | With the bits of a set of keys: no false negatives, and a key is a possible member if and only if every probe of it hits a probe of some key of the set. |
| `BloomFilter.KnownValues` | system-level-programming/08-database-indexing-and-concurrency/projects/concurrent_lsm_tree_engine/bloom_filter.hpp:61-79 | The two mixing functions and the double hashing on a known key. |
| `SsTable.OpenBuilt` | system-level-programming/08-database-indexing-and-concurrency/projects/concurrent_lsm_tree_engine/sstable.hpp:91-121 | Opening a file that was built gives back exactly its index and filter. |
| `SsTable.OpenExact` | system-level-programming/08-database-indexing-and-concurrency/projects/concurrent_lsm_tree_engine/sstable.hpp:91-121 | Opening any file: refused exactly when it is too short for a footer or lacks the magic number 0x53535431; otherwise index and filter are the words the footer points at. |
| `SsTable.Build` | system-level-programming/08-database-indexing-and-concurrency/projects/concurrent_lsm_tree_engine/sstable.hpp:34-89 | Refuses only an empty memtable; the index covers all records and the filter has exactly the bits of their keys. |
| `SsTable.BuildBlocks` | system-level-programming/08-database-indexing-and-concurrency/projects/concurrent_lsm_tree_engine/sstable.hpp:46-63 | The blocks hold all records in order and the index has one exact entry for each. |
| `SsTable.OnlyBlock` | system-level-programming/08-database-indexing-and-concurrency/projects/concurrent_lsm_tree_engine/sstable.hpp:136-153 | The first block whose last key is not below the key is the only one that can hold it. |
| `SsTable.FindBlock` | system-level-programming/08-database-indexing-and-concurrency/projects/concurrent_lsm_tree_engine/sstable.hpp:136-149 | The binary search finds that block. |
| `SsTable.Get` | system-level-programming/08-database-indexing-and-concurrency/projects/concurrent_lsm_tree_engine/sstable.hpp:130-172 | Is lookup in the map the table was built from. |
| `LsmEngine.NewestDecides` | system-level-programming/08-database-indexing-and-concurrency/projects/concurrent_lsm_tree_engine/lsm_engine.hpp:50-55 | The newest table that has the key decides; without one the key is absent. |
| `LsmEngine.LsmEngine.Put` | system-level-programming/08-database-indexing-and-concurrency/projects/concurrent_lsm_tree_engine/lsm_engine.hpp:32-39 | Changes exactly one entry of the map of all puts, and flushes exactly when the memtable has reached the threshold: then its map becomes the newest table and the memtable is empty, otherwise no table changes. |
| `LsmEngine.LsmEngine.Flush` | system-level-programming/08-database-indexing-and-concurrency/projects/concurrent_lsm_tree_engine/lsm_engine.hpp:71-83 | Changes nothing a reader can see. |
| `LsmEngine.LsmEngine.Get` | system-level-programming/08-database-indexing-and-concurrency/projects/concurrent_lsm_tree_engine/lsm_engine.hpp:41-58 | Is lookup in the map of all puts so far, across any flush points. |
| `WalStore.RestIsZero` | system-level-programming/12-capstone-systems/02-embedded-lsm-kv-database/wal_storage_engine.hpp:23-34 | In every block that is written the time stamp, the padding and the reserved bytes are zero. |
| `Fnv.OneByteChanges` | system-level-programming/12-capstone-systems/02-embedded-lsm-kv-database/wal_storage_engine.hpp:36-44 | Changing exactly one byte always changes the FNV-1a checksum. |
| `Fnv.RoundIsInjective` | system-level-programming/12-capstone-systems/02-embedded-lsm-kv-database/wal_storage_engine.hpp:40-42 | A round can be undone from either side: multiplication by the prime is injective modulo 2^32. |
| `Fnv.ComputeChecksum` | system-level-programming/12-capstone-systems/02-embedded-lsm-kv-database/wal_storage_engine.hpp:36-44 | The loop computes FNV-1a. |
| `Fnv.PublishedValues` | system-level-programming/12-capstone-systems/02-embedded-lsm-kv-database/wal_storage_engine.hpp:36-44 | The published 32-bit FNV-1a values of the empty input and of "a". |
| `WalStore.DamagedIsBad` | system-level-programming/12-capstone-systems/02-embedded-lsm-kv-database/wal_storage_engine.hpp:143-149 | A block with exactly one byte changed, wherever it is, never passes the checks. |
| `WalStore.DamageRecovers` | system-level-programming/12-capstone-systems/02-embedded-lsm-kv-database/wal_storage_engine.hpp:126-163 | When one byte of a log is changed, recovery keeps exactly the operations before the damaged block. |
| `WalStore.CutRecovers` | system-level-programming/12-capstone-systems/02-embedded-lsm-kv-database/wal_storage_engine.hpp:126-163 | When a log is cut at any byte, recovery keeps exactly the operations whose blocks are complete. |
| `WalStore.StopsAtBadBlock` | system-level-programming/12-capstone-systems/02-embedded-lsm-kv-database/wal_storage_engine.hpp:135-161 | Recovery ignores everything from the first bad block on, including what is appended after it. |
| `WalStore.AppendBehindTear` | system-level-programming/12-capstone-systems/02-embedded-lsm-kv-database/wal_storage_engine.hpp:135-161 | Opening does not cut off a torn block: the next block read mixes it with what is appended. If that block is incomplete or fails the check, everything appended is lost; otherwise it is replayed and reading goes on behind it. |
| `WalStore.AppendedOps` | system-level-programming/12-capstone-systems/02-embedded-lsm-kv-database/wal_storage_engine.hpp:126-163 | Operations appended behind a block torn after c bytes: all count for c = 0, none for 1 to 3 bytes or a single missing one, and otherwise a checksum over the mixed block decides. |
| `WalStore.Recover` | system-level-programming/12-capstone-systems/02-embedded-lsm-kv-database/wal_storage_engine.hpp:126-163 | The replay loop computes that recovery function. |
| `WalStore.CounterCoversLog` | system-level-programming/12-capstone-systems/02-embedded-lsm-kv-database/wal_storage_engine.hpp:151-151 | The recovered counter is at least every logged sequence number. |
| `WalStore.Store.PutKey` | system-level-programming/12-capstone-systems/02-embedded-lsm-kv-database/wal_storage_engine.hpp:76-93 | Appends exactly the block of the operation; index and counter stay those of the put and delete history, and the file its encoding if it was. |
| `WalStore.Store.DeleteKey` | system-level-programming/12-capstone-systems/02-embedded-lsm-kv-database/wal_storage_engine.hpp:103-120 | Appends exactly the block of the operation; index and counter stay those of the put and delete history, and the file its encoding if it was. |
| `WalStore.Store.constructor` | system-level-programming/12-capstone-systems/02-embedded-lsm-kv-database/wal_storage_engine.hpp:126-163 | Opens any file: index and counter are what recovery makes of it, and those of the logged operations when the block behind them is missing, incomplete or bad. |
| `Kmp.BuildLps` | real-interview-q/adobe.md:750-763 | Computes the longest proper border of every prefix. |
| `Kmp.KmpSearch` | real-interview-q/adobe.md:765-779 | Terminates with the first occurrence of the pattern, or -1 exactly when there is none. |
| `Kmp.ExtendsShorter` | real-interview-q/adobe.md:757-759 | After a mismatch only borders of the border can still be extended. |
| `Kmp.SearchFallBack` | real-interview-q/adobe.md:773-776 | Falling back to the longest border skips no occurrence. |
| `NestedTransactions.KVStore.Rollback` | real-interview-q/bloomberg-design.md:423-439 | Restores exactly the store at the matching begin, and fails without a transaction. |
| `NestedTransactions.KVStore.Commit` | real-interview-q/bloomberg-design.md:441-463 | Keeps the store, and every outer begin stays exactly recoverable. |
| `NestedTransactions.KVStore.Begin` | real-interview-q/bloomberg-design.md:419-421 | Pushes the present store as a rollback target. |
| `NestedTransactions.KVStore.Set` | real-interview-q/bloomberg-design.md:396-405 | Changes one key; all rollback targets are unchanged. |
| `NestedTransactions.KVStore.Del` | real-interview-q/bloomberg-design.md:414-417 | Removes one key; all rollback targets are unchanged. |
| `NestedTransactions.TouchKeeps` | real-interview-q/bloomberg-design.md:488-500 | Saving a key before its first change leaves every begin's store recoverable. |
| `NestedTransactions.CommitKeeps` | real-interview-q/bloomberg-design.md:449-462 | Merging undo entries into the parent leaves every outer begin's store recoverable. |
| `OrderBook.LimitOrderBook.AddOrder` | real-interview-q/bloomberg-design.md:1685-1697 | The order queues behind every order of a price at least as good; afterwards the book is uncrossed, the trades are exactly those between the queue heads in turn, and volume is conserved, whatever the id. The index has the new order in place of one with the same id, without the ids of filled orders; if the id rested already, an exact index is exact again if and only if no order with it rests any more. |
| `OrderBook.LimitOrderBook.Rest` | real-interview-q/bloomberg-design.md:1687-1695 | Puts the order in its place in the queue; an exact index stays exact if and only if the id is new to it. |
| `OrderBook.LimitOrderBook.Match` | real-interview-q/bloomberg-design.md:1716-1741 | Terminates uncrossed and does nothing to an uncrossed book. The trades are exactly the ones that trading the two queue heads against each other makes, one after the other, as long as they cross: same orders, same volumes, and the queues left are what that leaves. Both sides lose the same volume. The index loses exactly the ids of filled orders, and an exact one stays exact. |
| `OrderBook.OneWayToTrade` | real-interview-q/bloomberg-design.md:1716-1741 | The two queues determine the trades and what is left: there is one way to trade heads until nothing crosses. |
| `OrderBook.LimitOrderBook.CancelOrder` | real-interview-q/bloomberg-design.md:1699-1713 | In any book, also with two orders of one id: takes exactly the order out that the index leads to, if any, counts its volume as cancelled and cannot cross the book. |
| `OrderBook.SameIdTwice` | real-interview-q/bloomberg-design.md:1685-1713 | A concrete run: of two orders with one id cancelling takes the later one out, and the earlier one rests unknown to the index. |
| `BookSide.AddQueues` | real-interview-q/bloomberg-design.md:1687-1695 | Where an added order stands among all orders of its side. |
| `BookSide.RemoveRemoves` | real-interview-q/bloomberg-design.md:1704-1711 | Cancelling takes exactly one order out of the queue. |
| `BookSide.FillFills` | real-interview-q/bloomberg-design.md:1726-1740 | Trading with the first order of the best level is trading with the head of the price-time queue. |
| `BookIndex.IndexedRemove` | real-interview-q/bloomberg-design.md:1731-1739 | Dropping an order and its id keeps an exact index exact. |
| `BookIndex.TradeEvolves` | real-interview-q/bloomberg-design.md:1726-1740 | A trade keeps every index entry leading to a resting order with its id, and keeps the index exact, or exact but for one id. |
| `BookIndex.ExactAgain` | real-interview-q/bloomberg-design.md:1689-1695 | An index that is exact but for one doubled id is exact again if and only if no order with that id rests. |

## Left out

- Memory orderings weaker than sequential consistency, cache alignment and timing.
- 64-bit wrap-around of the ring queue's positions and of transaction ids, sequence numbers, timestamps and pin counts: they are unbounded here. Ids, keys and values that are written to a log must fit their fields.
- Calls of mutex and channel operations from outside a fiber, and what a context switch does to stacks and registers.
- Latches inside the database classes: each public method is one atomic step. Thread-safety of the classes is not modelled.
- Failing system calls. Writes and reads of files succeed; the flush of the LSM engine, which drops its memtable even when a table cannot be built, is modelled with building that succeeds.
- The engine object is opened, in one step, on logs that end with a complete record. What recovery makes of torn logs, and of appends behind them, is stated on the recovery function; a recovery in the middle of running transactions is not modelled.
- Fibers whose calls depend on what they received, and fibers that never end.
- SsTable.Open: files are sequences of 8-byte words, so a footer with misaligned offsets, which no builder writes, is not modelled.
- The sizing of the Bloom filter by logarithms and its false-positive rate: the filter's sizes are arbitrary.
- The random heights of the skip list are arbitrary numbers from 1 to 16; `byte_size` uses 48 bytes for a node and 8 for a pointer.
- Times to live in the nested-transaction store are absolute expiry times given by the caller; reading the clock is not modelled.
- The iterators that the order book keeps are modelled as numbers, one for each list node ever made.
- OrderBook.LimitOrderBook.AddOrder: prices are real numbers, so rounding and not-a-number are not modelled.
- What the allocator does after a pointer was freed that named no live block; pointers below the pool.
- `spsc_queue.hpp`, `shm_ipc_bus.hpp`, `shm_feed.hpp`, `logger.hpp`: the same ring argument as the queue here, with less contention.
- `latch_crabbing_btree.hpp`, `embedded_lsm_database.hpp`, `orderbook.hpp`, `slab_allocator.hpp`, the SIMD kernels, servers, probes and benchmarks: easier members, I/O plumbing or floating point.
