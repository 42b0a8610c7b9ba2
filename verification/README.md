# Verified model of the kernel's heap, processes, block cache and console

A Dafny model of five stateful parts of a small x86-64 teaching kernel, with proofs of what
they keep over whole runs. `dafny verify dfyconfig.toml` checks everything.

Each part is given twice. A *specification* module describes the state as a value and each
operation as a function on it; the theorems are about these. An *implementation* module holds
a class with the program's own fields, loops and in-place writes, and proves that each method
computes its specification; `HeapManager.Do`, `Kernel.Do` and `CacheManager.Do` put the methods
together, so that what is proved of runs holds of the classes. Pointers are addresses and 0 is NULL: headers, control blocks and
cache blocks live in a map from addresses, so reading through a pointer requires that the
thing it points to has not been freed.

| part | specification and theorems | implementation |
|---|---|---|
| kernel heap | `HeapSpec`, `HeapTheory`, `HeapMemory` | `Heap` |
| processes, FIFO scheduler | `ProcessSpec`, `Fifo`, `FifoEffect`, `Waiting`, `ExitWait`, `PendingWait` | `Kernel` |
| SJF scheduler | `Sjf`, `SjfReach`, `SjfFails`, `Mixed` | `Kernel` |
| block cache | `CacheSpec`, `CacheTheory`, `CacheEffect`, `CacheLru`, `CacheHole` | `BlockCache` |
| screen, number printing | `Screen`, `Itoa` | `VgaText`, `Itoa` |

## Main results

- **Heap.** In every run the blocks tile the region, aligned and fully coalesced, and the free
  counter is exact (`HeapTheory.RunSafe`). The live blocks alone determine the whole list
  (`HeapSpec.Canonical`); so the order of releases does not matter, releasing everything restores
  the initial heap, and `kmalloc` followed by `kfree` is the identity. Allocation succeeds if and
  only if a large enough gap exists (`HeapTheory.KmallocComplete`). Of all headers that
  are intact in memory, merged-away ones included, exactly the live ones may be released
  (`HeapMemory.FreedSoundIff`).
- **FIFO scheduling.** One invariant survives every interleaving of create, tick, schedule, wake,
  exit, wait and non-idle block (`Fifo.RunSafe`). A ready process is current after exactly the
  number of ticks that `Waiting.Delay` computes (`Waiting.ExactDelay`), and after at most that many
  whatever else happens (`Waiting.BoundedWaiting`). What each operation does to every control block is
  given in closed form (`FifoEffect`). A wait delivers the exit code of its target,
  once (`ExitWait.WaitDelivers`), and it does so if and only if the target has exited with that code
  and was not collected before (`ExitWait.WaitBeginIff`, `ExitWait.RunWaitReturnsZeroIff`). A wait that blocked returns 0 if and
  only if its target has exited since and nobody else collected it; otherwise something else woke the
  caller, as every exit does, and it returns -1 (`PendingWait.WaitOutcome`).
- **SJF scheduling.** `schedule_sjf` ends if and only if `Sjf.Halts` holds, and then after at most one
  retry; otherwise it recurses for ever (`Sjf.SjfTermination`). A ready process is current in some
  SJF-only run if and only if it is not `SjfReach.Starved` (`SjfReach.RunsIffNotStarved`).
- **Block cache.** Reference counts are the outstanding handles (`CacheTheory.RunSafe`), and a block
  held throughout a run keeps its address, id and size (`CacheTheory.RunKeepsHeld`). The timestamp
  table and the answers of the gets are those of a recency list (`CacheLru.RunRefines`). A held block is
  dirty exactly when it was marked after it was last written back (`CacheEffect.RunFlag`).
- **Console.** The screen is a 25-row window onto an unbounded sheet (`Screen.ScreenIsWindow`);
  `itoa` round-trips exactly for non-negative numbers and for base ten (`Itoa.RoundTrip`).

## Where the code does not do what one would expect

- The repository's documentation ranks priority 0 highest, but the code gives it an empty time
  slice. SJF never runs such a process (`Sjf.PriorityZeroStarves`), and when only such processes
  are ready `schedule_sjf` never returns (`Sjf.SjfTermination`). One creation of priority 0 after
  `process_init` is enough for that (`SjfFails.NeverReturnsReached`). One process alone on the ready side is
  made current exactly when its counter is usable or its priority gives it a slice
  (`SjfReach.OnlyReadyRunsIff`).
- SJF starves more than priority 0. A process that is switched out becomes ready with
  its counter as it is, so two rivals with smaller counters take turns for ever. `SjfReach.Starved` is the exact
  condition: two others preferred in (counter, slot) order, or, for a process whose counter is used up,
  no slice at all, two others with usable counters, which put off the refresh for ever, or two others
  that will be preferred after it. Ticks do not help, since one that uses up a slice calls the FIFO
  scheduler (`SjfReach.RunsIffNotStarved`). After three creations of priority 1 the third process is
  starved (`SjfFails.StarvedReached`).
- Under FIFO no process ever gets a new time slice: `do_timer` counts down and nothing refills
  (`FifoEffect.TickEffect`, `FifoEffect.SlicesNeverRenewed`). Once its slice is used up, a process runs for a
  single tick per turn.
- `scheduler_block` does not refuse idle. Blocking keeps the scheduler's invariant exactly when the
  caller is not idle (`Fifo.BlockKeepsUnlessIdle`).
- `scheduler_add` clears the link of a process before appending it. Adding one that is already
  queued cuts the queue behind it: processes are lost exactly when it is queued and not last
  (`Kernel.AddLosesNoneIff`). Adding the last one links it to itself (`Kernel.AddKeepsListIff`). FIFO
  runs never do this; mixing `schedule` with `schedule_sjf` does, and loses ready processes (`Mixed.MixedRunLosesReady`). An SJF decision keeps the FIFO invariant exactly
  when the ready queue is empty (`Mixed.SjfKeepsFifoIff`).
- `kfree` checks only the magic number. Among the pointers just behind an intact header, exactly the live
  ones leave a sound heap: releasing a free block spoils the counter, and releasing a merged-away header
  spoils the counter or makes a block overlap its neighbours (`HeapMemory.FreedSoundIff`,
  `Heap.HeapManager.Kfree`). Such headers exist: a release leaves that of a free right neighbour behind
  (`HeapMemory.NeighbourStale`), until a later split stores a header over it (`HeapMemory.CutSurvivors`). A
  second release right after the first always does harm (`Heap.HeapManager.DoubleFree`).
- `heap_init` checks nothing. The heap it leaves is sound exactly when the region does not start at NULL,
  does not wrap around, holds a header and has a block size below 2^32 (`Heap.HeapManager.constructor`).
- Rounding a request up to 16 wraps for the last 15 sizes, which are then granted a block that is
  too small: the grant covers the request exactly when the addition does not wrap
  (`HeapTheory.RoundBounds`, `HeapTheory.KmallocMeaning`).
- A failed allocation after an eviction leaves an empty slot that the count does not show. From then on
  the cache evicts, or refuses, although a slot is empty: a miss evicts exactly when the count is at its
  limit and some block is unreferenced (`CacheTheory.MissEvictsIff`, `CacheTheory.EmptySlotUnused`). The state
  is reached by 256 gets, a release and a refused get (`CacheHole.HoleReached`, `CacheHole.HoleRefuses`, `CacheHole.HoleEvicts`).
- Negative numbers in a base other than ten do not read back (`Itoa.RoundTrip`): each digit d of the
  absolute value is written as the byte 48 - d, which is not a digit unless d is 0 (`Itoa.NegativeBytes`).

## Model

| member | source | states |
|---|---|---|
| `HeapSpec.FirstFit` | kernel/mm/heap.c:79-83 | the chosen block is free and large enough and every earlier block is not |
| `HeapSpec.Canonical` | kernel/mm/heap.c:131-185 | two coalesced tilings of one region with the same live blocks are the same list |
| `HeapTheory.RoundBounds` | kernel/mm/heap.c:76 | rounding covers the request exactly when the 64-bit addition does not wrap, and adds at most 15 |
| `HeapTheory.CarveLayout` | kernel/mm/heap.c:83-110 | taking a free block, split or whole, keeps tiling, alignment and coalescing |
| `HeapTheory.KmallocMeaning` | kernel/mm/heap.c:73-116 | a successful allocation adds exactly one live block, keeps all others, is 16-aligned, grants at least the request unless rounding wrapped and at most 15 + 32 + 16 bytes more, and charges the counter for it |
| `HeapTheory.KmallocFails` | kernel/mm/heap.c:119-123 | a failed allocation changes nothing |
| `HeapTheory.KmallocComplete` | kernel/mm/heap.c:73-124 | allocation succeeds if and only if some contiguous span of the rounded size plus a header is clear of every live block; it takes the lowest-addressed free block that fits |
| `HeapTheory.FreeAtCoalesced` | kernel/mm/heap.c:152-184 | looking one block each way restores full coalescing |
| `HeapTheory.KfreeMeaning` | kernel/mm/heap.c:131-185 | a release removes exactly that block from the live ones, moves and resizes none, and credits the counter |
| `HeapTheory.KfreeKeepsIffLive` | kernel/mm/heap.c:137-150 | on the block list: releasing a listed block keeps the heap well formed if and only if it is live (merged-away headers: `HeapMemory.FreedSoundIff`) |
| `HeapTheory.MallocFreeRoundTrip` | kernel/mm/heap.c:73-185 | `kfree` of what `kmalloc` returned restores the exact block list and counter |
| `HeapTheory.ReleasedIs` | kernel/mm/heap.c:131-185 | a sound heap from which exactly one live block has gone is the heap `kfree` leaves |
| `HeapTheory.NewPtr` | kernel/mm/heap.c:79-116 | the pointer an allocation returns was not live before and is live after |
| `HeapTheory.BytesSum` | kernel/mm/heap.c:53 | free and live bytes, headers included, make up the region |
| `HeapTheory.RunKeeps` | kernel/mm/heap.c:37-185 | every legal run keeps the heap well formed |
| `HeapTheory.RunSafe` | kernel/mm/heap.c:37-185 | from `heap_init` on: tiling of the aligned region, sizes below 2^32, no two free neighbours, counter plus live bytes equal to the heap size |
| `HeapTheory.FreeOrderIrrelevant` | kernel/mm/heap.c:131-185 | releasing a set of live blocks gives the same heap in every order |
| `HeapTheory.FreeEverything` | kernel/mm/heap.c:55-64 | releasing all live blocks, in any order, restores the single initial block |
| `HeapTheory.LiveDisjoint` | kernel/mm/heap.c:87-116 | live blocks never overlap any other block and their payloads avoid every header |
| `HeapMemory.CutSurvivors` | kernel/mm/heap.c:87-95 | a split destroys exactly the headers that share bytes with the one it stores |
| `HeapMemory.CutKeepsAll` | kernel/mm/heap.c:87-107 | after a split no two intact headers share a byte, and each still ends where its link points |
| `HeapMemory.CutShape` | kernel/mm/heap.c:85-107 | the stores of a split keep the list linked both ways, mean two blocks for one and keep the magic numbers of listed headers |
| `HeapMemory.AbsorbShape` | kernel/mm/heap.c:154-184 | taking over the right neighbour keeps the list linked both ways, means one merged block and leaves the old header in memory off the list |
| `HeapMemory.AbsorbAbuts` | kernel/mm/heap.c:156-167 | a merged size never overflows the 32-bit field, and every intact header, listed or not, still ends where its link points |
| `HeapMemory.FreedListed` | kernel/mm/heap.c:146-184 | the writes of a release to a listed header compute the list-level release |
| `HeapMemory.FreedStale` | kernel/mm/heap.c:137-184 | releasing a merged-away header that is intact, as are those its links lead to, leaves no list under which the heap is sound |
| `HeapMemory.FreedTwice` | kernel/mm/heap.c:137-184 | releasing a block that is already free leaves no list under which the heap is sound |
| `HeapMemory.FreedSoundIff` | kernel/mm/heap.c:137-184 | over all intact headers whose links lead to intact headers: the heap is sound after the release if and only if the header is listed and live |
| `HeapMemory.NeighbourStale` | kernel/mm/heap.c:152-168 | after the release of a live block with a free right neighbour, the neighbour's header is intact with its magic number, and releasing it leaves no sound heap |
| `Heap.HeapManager.CutHeaders` | kernel/mm/heap.c:87-107 | the stores of a split, including what they destroy |
| `Heap.RegionIff` | kernel/mm/heap.c:37-57 | the 64-bit arithmetic of `heap_init` describes one block filling the region if and only if the region is usable |
| `Heap.HeapManager.constructor` | kernel/mm/heap.c:37-65 | `heap_init` of any region: the heap is sound if and only if the region avoids NULL, does not wrap, holds a header and fits the size field; then it is the single free block |
| `Heap.HeapManager.Split` | kernel/mm/heap.c:85-107 | a split keeps the list linked both ways and means two blocks for one; every other listed header stays intact |
| `Heap.HeapManager.Take` | kernel/mm/heap.c:83-116 | marking and charging the block that was found computes the carved list |
| `Heap.HeapManager.FindFit` | kernel/mm/heap.c:79-120 | the list walk stops at the first fit, or at NULL |
| `Heap.HeapManager.Kmalloc` | kernel/mm/heap.c:73-124 | computes `HeapSpec.Kmalloc`, failure included, and keeps the linked representation |
| `Heap.HeapManager.Absorb` | kernel/mm/heap.c:156-167 | the pointer writes of one merge, for any two headers whose links can be followed |
| `Heap.HeapManager.MergeWithNext` | kernel/mm/heap.c:154-168 | forward coalescing under the test of the code, for any intact header |
| `Heap.HeapManager.MergeWithPrev` | kernel/mm/heap.c:170-184 | backward coalescing under the test of the code, for any intact header |
| `Heap.HeapManager.Release` | kernel/mm/heap.c:146-184 | mark, credit and both merges, for any intact header, listed or not |
| `Heap.HeapManager.Kfree` | kernel/mm/heap.c:131-185 | for any pointer just behind an intact header: null and corrupted headers change nothing; otherwise the heap stays sound if and only if the block is live, and then this is `HeapSpec.Kfree` |
| `Heap.HeapManager.DoubleFree` | kernel/mm/heap.c:73-185 | from every sound heap, `kmalloc`, `kfree` and the same `kfree` again leave an unsound one |
| `Heap.HeapManager.Do` | kernel/mm/heap.c:73-185 | every legal operation on the headers is `HeapTheory.Step` on the blocks; the magic numbers of listed headers are kept |
| `Heap.HeapManager.HeapStats` | kernel/mm/heap.c:193-202 | the reported free and used sizes are the sums over the blocks |
| `ProcessSpec.CounterInit` | kernel/process/process.c:18-20 | the slice is 5 minus the priority, and none for priority 0 |
| `Fifo.ScheduleShape` | kernel/process/scheduler.c:140-169 | `schedule` runs the head of the queue and puts a running process at the end |
| `Fifo.ScheduleKeeps` | kernel/process/scheduler.c:140-183 | `schedule` re-establishes the invariant and always leaves a process that is not running |
| `Fifo.TickKeeps` | kernel/process/process.c:479-508 | a timer tick keeps the invariant |
| `Fifo.BlockKeeps` | kernel/process/scheduler.c:202-211 | a process other than idle that blocks is blocked and switches away to the head of the queue |
| `Fifo.BlockKeepsUnlessIdle` | kernel/process/scheduler.c:202-211 | blocking keeps the invariant if and only if the caller is not idle |
| `Fifo.WakeKeeps` | kernel/process/scheduler.c:220-228 | waking a blocked process makes it ready and appends it; any other is left alone |
| `Fifo.ExitKeeps` | kernel/process/process.c:282-335 | an exit keeps the invariant and never stays current |
| `Fifo.CreateKeeps` | kernel/process/process.c:178-275 | a creation keeps the invariant and the order of those already queued (what is appended: `Fifo.CreateSucceedsIff`) |
| `Fifo.CreateSucceedsIff` | kernel/process/process.c:178-275 | creation succeeds if and only if there is an entry point, a free place and memory; the new control block, its slot, its pid and its place in the queue; what stays as it was; what a failure uses up |
| `Fifo.ExitWakesEveryone` | kernel/process/process.c:321-330 | after an exit nobody is blocked |
| `Fifo.ReapKeeps` | kernel/process/process.c:437-469 | a collected process is not current, not queued, not in the table and has no control block |
| `Fifo.WaitSwitchesAway` | kernel/process/process.c:395-400 | a wait on a living process blocks the caller and switches away |
| `Fifo.StepKeeps` | kernel/process/process.c:178-508 | every operation keeps the invariant |
| `Fifo.RunSafe` | kernel/process/process.c:30-508 | in every run from `process_init`: exactly `current` is running and unqueued, the queue holds exactly the ready processes once, idle is current or queued, pids are distinct, the count is one more than the highest slot, creation below the limit finds a slot |
| `Fifo.InitialInv` | kernel/process/process.c:30-89 | `process_init` leaves idle alone, running, with pid 0 and no slice, in slot 0, and this satisfies the invariant |
| `FifoEffect.ScheduleStays` | kernel/process/scheduler.c:140-152 | `schedule` does nothing with nobody queued or with the current process at the head |
| `FifoEffect.YieldEffect` | kernel/process/scheduler.c:140-183 | every control block, the queue and the table after a `schedule` by the running process |
| `FifoEffect.TickEffect` | kernel/process/process.c:496-507 | every control block after a tick: one less, down to zero, for the current process, and no new slice at zero |
| `FifoEffect.BlockEffect` | kernel/process/scheduler.c:202-211 | every control block after a block, by idle too |
| `FifoEffect.WakeEffect` | kernel/process/scheduler.c:220-228 | the whole state after a wake |
| `FifoEffect.WakeFromQueue` | kernel/process/process.c:322-330 | the wake loop appends the blocked processes in slot order |
| `FifoEffect.ExitEffect` | kernel/process/process.c:282-335 | every control block and the queue after an exit; idle is refused |
| `FifoEffect.ReapEffect` | kernel/process/process.c:447-469 | the whole state after a terminated process is collected |
| `FifoEffect.SlicesNeverRenewed` | kernel/process/process.c:178-508 | over every FIFO run, no process changes its pid or priority and no counter ever rises |
| `Waiting.TickDelay` | kernel/process/process.c:496-507 | a tick brings a ready process exactly one tick nearer, or makes it current |
| `Waiting.CreateDelay` | kernel/process/process.c:269-270 | creations leave every delay unchanged |
| `Waiting.WakeDelay` | kernel/process/scheduler.c:220-228 | wakes leave every delay unchanged |
| `Waiting.YieldDelay` | kernel/process/scheduler.c:140-169 | a voluntary `schedule` shortens the delay by the whole current slice |
| `Waiting.BlockDelay` | kernel/process/scheduler.c:202-211 | a block strictly shortens the delay or makes the process current |
| `Waiting.ExitDelay` | kernel/process/process.c:282-335 | an exit strictly shortens the delay or makes the process current; from idle it does nothing |
| `Waiting.ResumeDelay` | kernel/process/process.c:402-471 | collecting a process leaves every delay unchanged |
| `Waiting.OtherDelay` | kernel/process/process.c:178-472 | no operation but a tick ever lengthens the delay |
| `Waiting.ExactDelay` | kernel/process/process.c:479-508 | with only ticks a ready process becomes current after exactly the slices ahead of it, at most 4(k + 1) at position k |
| `Waiting.BoundedWaiting` | kernel/process/scheduler.c:38-169 | no starvation: in every run with that many ticks the process has been current |
| `ExitWait.ExitMatches` | kernel/process/process.c:301-335 | an exit enters the history once, with its code |
| `ExitWait.ResumeMatches` | kernel/process/process.c:402-471 | a wait that returns 0 delivers a code that was passed to exit and was not delivered before |
| `ExitWait.WaitDelivers` | kernel/process/process.c:282-472 | in every run each delivery follows the exit with that pid and code, each pid exits and is delivered at most once, and an exited pid is either delivered or still to be collected |
| `ExitWait.WaitBeginIff` | kernel/process/process.c:351-400 | a call of `process_wait`: when it returns 0 at once, when it blocks and when it returns -1, each as an if and only if; -1 for idle and for a wait for oneself |
| `ExitWait.WaitLeaves` | kernel/process/process.c:351-472 | what a wait that fails, blocks or collects leaves of the system |
| `ExitWait.WaitReturnsZeroIff` | kernel/process/process.c:402-471 | a wait returns 0 with a code if and only if its target exited with that code and was not delivered |
| `ExitWait.RunWaitReturnsZeroIff` | kernel/process/process.c:351-472 | the same after every run |
| `PendingWait.RunTied` | kernel/process/process.c:391-402 | in every run the caller of a blocked wait is alive and its target had not exited when it blocked |
| `PendingWait.WaitOutcome` | kernel/process/process.c:391-471 | a blocked wait returns 0 with a code if and only if its target has exited with it since and was not collected, and -1 if and only if the target has not exited since or was collected |
| `Sjf.Pick` | kernel/process/process.c:525-537 | the lowest-numbered ready slot with the least nonzero counter, or none |
| `Sjf.RefreshIdempotent` | kernel/process/process.c:544-554 | refreshing twice is refreshing once |
| `Sjf.RefreshEffect` | kernel/process/process.c:544-554 | every control block after a refresh |
| `Sjf.SwitchEffect` | kernel/process/process.c:585-619 | every control block after a switch, whatever the target; a switch to NULL or to itself changes nothing |
| `Sjf.SjfTermination` | kernel/process/process.c:515-572 | the recursion ends if and only if nothing is ready or something ready has a usable counter or a priority not divisible by 5, and then within one retry; otherwise the refresh is a fixed point |
| `Sjf.NeverHalts` | kernel/process/process.c:556-560 | otherwise no depth of recursion suffices |
| `Sjf.SjfSelects` | kernel/process/process.c:528-578 | what is switched to: the least nonzero counter, after the refresh if there was one, or idle |
| `Sjf.RunKeepsOneRunning` | kernel/process/process.c:585-619 | every SJF-only run, ticks included, keeps exactly one running task, the current one |
| `Sjf.PriorityZeroStarves` | kernel/process/process.c:18-20 | a process without a time slice is never current in any SJF-only run, ticks included |
| `Sjf.PriorityZeroIsSliceless` | kernel/process/process.c:206-207 | priority 0 makes such a process |
| `SjfReach.StarvedNeverRuns` | kernel/process/process.c:515-578 | in no SJF-only run does a starved process become current |
| `SjfReach.UnstarvedRuns` | kernel/process/process.c:515-578 | a ready process that is not starved becomes current after at most three SJF decisions |
| `SjfReach.RunsIffNotStarved` | kernel/process/process.c:515-578 | a ready process becomes current in some SJF-only run if and only if it is not starved |
| `SjfReach.RunSeated` | kernel/process/process.c:178-619 | every state of an SJF-only run is one these theorems apply to |
| `SjfReach.InitialSeated` | kernel/process/process.c:30-89 | `process_init` leaves such a state |
| `SjfReach.OnlyReadyRunsIff` | kernel/process/process.c:515-578 | with nothing else ready, one call makes the process current if and only if its counter is usable or the refresh gives it a slice; otherwise the call does not return |
| `SjfReach.SjfEffect` | kernel/process/process.c:515-578 | every control block after a decision with something ready: the pick runs, the process it replaces is ready, and who has a new slice |
| `SjfReach.FallbackEffect` | kernel/process/process.c:562-571 | with nothing ready: idle runs and the process it replaces is ready, or nothing changes |
| `SjfReach.FallbackReturns` | kernel/process/process.c:515-578 | the next call brings that process back if and only if its counter is usable or the refresh gives it a slice; otherwise it does not return |
| `SjfFails.NeverReturnsReached` | kernel/process/process.c:515-560 | after `process_init` and one creation of priority 0, `schedule_sjf` never returns |
| `SjfFails.StarvedReached` | kernel/process/process.c:515-578 | after three creations of priority 1, no SJF-only run makes the third process current |
| `Mixed.SjfKeepsFifoIff` | kernel/process/process.c:515-619 | an SJF decision keeps the FIFO invariant if and only if the ready queue is empty |
| `Mixed.MixedRunLosesReady` | kernel/process/process.c:608-619 | after three creations from `process_init`, two SJF decisions and one FIFO decision leave ready processes off the queue |
| `Kernel.AddKeepsListIff` | kernel/process/scheduler.c:45-58 | adding leaves a proper list if and only if the process is not already the tail |
| `Kernel.AddLosesNoneIff` | kernel/process/scheduler.c:45-58 | adding loses no queued process if and only if the added one is not queued or is the last |
| `Kernel.RemoveDropsOne` | kernel/process/scheduler.c:71-108 | removing takes out that process alone and keeps the order of the others |
| `Kernel.Kernel.constructor` | kernel/process/process.c:30-89 | `process_init` establishes the initial state |
| `Kernel.Kernel.SchedulerAdd` | kernel/process/scheduler.c:38-62 | the link writes for any process; unless it is the tail they compute the enlarged, or cut, queue |
| `Kernel.Kernel.FindBefore` | kernel/process/scheduler.c:92-107 | the traversal stops at the predecessor of the process, or at the tail |
| `Kernel.Kernel.SchedulerRemove` | kernel/process/scheduler.c:71-108 | unlinking computes the queue without the process, tail included |
| `Kernel.Kernel.SchedulerNext` | kernel/process/scheduler.c:118-132 | the head of the queue, or the current process |
| `Kernel.Kernel.ScheduleFifo` | kernel/process/scheduler.c:140-183 | computes `ProcessSpec.Schedule` on the linked queue |
| `Kernel.Kernel.SchedulerBlock` | kernel/process/scheduler.c:202-211 | computes `ProcessSpec.Block` |
| `Kernel.Kernel.SchedulerWake` | kernel/process/scheduler.c:220-228 | null and unblocked processes change nothing; otherwise ready and appended |
| `Kernel.Kernel.DoTimer` | kernel/process/process.c:479-508 | computes `ProcessSpec.Tick` |
| `Kernel.Kernel.ProcessCreate` | kernel/process/process.c:178-275 | all failure paths, the slot search and the queue entry compute `ProcessSpec.Create` |
| `Kernel.Kernel.NewBlock` | kernel/process/process.c:202-253 | the control block as it is filled in |
| `Kernel.Kernel.EnterTable` | kernel/process/process.c:255-267 | the lowest empty slot is taken and the count raised if need be |
| `Kernel.Kernel.WakeBlocked` | kernel/process/process.c:322-330 | the loop wakes the blocked processes in table order |
| `Kernel.Kernel.ProcessExit` | kernel/process/process.c:282-335 | computes `ProcessSpec.Exit` |
| `Kernel.Kernel.FindProcess` | kernel/process/process.c:375-383 | the first slot with that pid, or NULL |
| `Kernel.Kernel.LeaveTable` | kernel/process/process.c:447-455 | the slot of the process is cleared |
| `Kernel.Kernel.CountTasks` | kernel/process/process.c:461-468 | one more than the highest occupied slot |
| `Kernel.Kernel.ReapProcess` | kernel/process/process.c:447-469 | frees the target without leaving a dangling pointer |
| `Kernel.Kernel.ProcessWait` | kernel/process/process.c:351-472 | `process_wait` up to its result or its `schedule` |
| `Kernel.Kernel.WaitAgain` | kernel/process/process.c:402-471 | `process_wait` after its `schedule` returned |
| `Kernel.Kernel.Do` | kernel/process/process.c:178-508 | every legal FIFO operation on the linked structures is `Fifo.Step`, so every FIFO run meets the preconditions of the methods |
| `Kernel.Kernel.SwitchTo` | kernel/process/process.c:585-619 | computes `Sjf.SwitchTo`, null included |
| `Kernel.Kernel.ShortestJob` | kernel/process/process.c:525-537 | the scan finds the pick |
| `Kernel.Kernel.RefreshSlices` | kernel/process/process.c:544-554 | the loop refreshes exactly the ready tasks and reports whether there was one |
| `Kernel.Kernel.ScheduleSjf` | kernel/process/process.c:515-578 | terminates where `Sjf.Halts` holds and computes `Sjf.ScheduleSjf` |
| `CacheSpec.Find` | kernel/fs/cache.c:66-76 | a block with that id, or no slot below the count holds it |
| `CacheSpec.Victim` | kernel/fs/cache.c:92-105 | the unreferenced block with the smallest timestamp, or none |
| `CacheTheory.GetWf` | kernel/fs/cache.c:174-207 | a get keeps one block per id, distinct timestamps and every block in one slot |
| `CacheTheory.GetFails` | kernel/fs/cache.c:89-139 | a get returns NULL if and only if the id is absent and memory ran out or the filled table holds only referenced blocks |
| `CacheTheory.GetFailsOnlyWhenPinned` | kernel/fs/cache.c:85-207 | if memory never runs out: NULL if and only if the id is absent and all 256 slots are referenced |
| `CacheTheory.MissEvictsIff` | kernel/fs/cache.c:89-124 | a miss throws out a cached block if and only if the count is at its limit and some block is unreferenced |
| `CacheTheory.EmptySlotUnused` | kernel/fs/cache.c:89-162 | with the count at its limit and an empty slot, a granted miss succeeds if and only if it evicts, which is if and only if some block is unreferenced |
| `CacheHole.HoleReached` | kernel/fs/cache.c:89-139 | a legal run from the empty cache ends with the count at 256, an empty slot and every block referenced |
| `CacheHole.HoleRefuses` | kernel/fs/cache.c:89-109 | there a granted get of a new id returns NULL although a slot is empty |
| `CacheHole.HoleEvicts` | kernel/fs/cache.c:89-162 | after one more release the same get evicts instead of using the empty slot |
| `CacheTheory.GetDelivers` | kernel/fs/cache.c:141-207 | what the returned block is, and that exactly one of the hit and miss counters goes up, modulo 2^64 |
| `CacheEffect.HitEffect` | kernel/fs/cache.c:179-190 | every block after a hit: id, size and dirty flag kept, one more reference and the new time for the one hit, nothing for the others |
| `CacheEffect.RoomEffect` | kernel/fs/cache.c:89-124 | making room removes exactly the oldest unreferenced block, if the count is at its limit, and empties its slot |
| `CacheEffect.MissEffect` | kernel/fs/cache.c:85-207 | every block and slot after a granted miss |
| `CacheEffect.FailedMissEffect` | kernel/fs/cache.c:85-207 | the whole state after a miss that fails |
| `CacheEffect.ReleaseEffect` | kernel/fs/cache.c:214-226 | every block after a release |
| `CacheEffect.FlagEffect` | kernel/fs/cache.c:233-261 | every block after it is marked or written back |
| `CacheEffect.RunFlag` | kernel/fs/cache.c:174-283 | over every run a held block is dirty if and only if it was marked after it was last written back |
| `CacheTheory.HitsAndMisses` | kernel/fs/cache.c:181-194 | in every run hits and misses together count the gets, modulo 2^64 |
| `CacheTheory.SyncAllCleans` | kernel/fs/cache.c:268-283 | after a full write-back no cached block is dirty and nothing else changed |
| `CacheTheory.RoomSparesHeld` | kernel/fs/cache.c:96-123 | eviction never touches a held block |
| `CacheTheory.StepPinned` | kernel/fs/cache.c:174-226 | every operation keeps counts equal to handles, and held blocks keep address, id and size |
| `CacheTheory.RunSafe` | kernel/fs/cache.c:45-283 | in every run from the empty cache the table is well formed and counts equal handles |
| `CacheTheory.RunKeepsHeld` | kernel/fs/cache.c:96-226 | over every run, a block held throughout keeps its address, id and size |
| `CacheLru.RankedUnique` | kernel/fs/cache.c:146 | the order by timestamp is unique |
| `CacheLru.VictimIs` | kernel/fs/cache.c:92-105 | the victim is the least recently got unreferenced block |
| `CacheLru.HitRefines` | kernel/fs/cache.c:179-190 | a hit moves the block to the recent end with one more pin |
| `CacheLru.MissRefines` | kernel/fs/cache.c:85-165 | a miss drops the oldest unpinned block if the table was filled and appends the new one |
| `CacheLru.GetRefines` | kernel/fs/cache.c:174-207 | a get is a get of the recency list, with the same answer |
| `CacheLru.ReleaseRefines` | kernel/fs/cache.c:214-226 | a release unpins in place |
| `CacheLru.RunRefines` | kernel/fs/cache.c:45-226 | in every run the blocks by timestamp are those of a recency list run on the labels get and release of an id alone, and every get gives the same answer |
| `BlockCache.CacheManager.constructor` | kernel/fs/cache.c:45-58 | `cache_init` gives the empty cache |
| `BlockCache.CacheManager.FindCacheBlock` | kernel/fs/cache.c:66-76 | the scan computes `CacheSpec.Find` |
| `BlockCache.CacheManager.FindOldest` | kernel/fs/cache.c:92-105 | the scan finds the victim |
| `BlockCache.CacheManager.Evict` | kernel/fs/cache.c:89-124 | frees the victim and leaves no dangling slot |
| `BlockCache.CacheManager.Enter` | kernel/fs/cache.c:141-162 | the new block goes into the first empty slot with the next timestamp |
| `BlockCache.CacheManager.AllocateCacheBlock` | kernel/fs/cache.c:85-165 | computes `CacheSpec.Allocate`, failures included |
| `BlockCache.CacheManager.Hit` | kernel/fs/cache.c:179-190 | newest timestamp and one more reference, modulo the width of the fields |
| `BlockCache.CacheManager.CacheGetBlock` | kernel/fs/cache.c:174-207 | computes `CacheSpec.Get` |
| `BlockCache.CacheManager.CacheReleaseBlock` | kernel/fs/cache.c:214-226 | never drops a count below zero; null changes nothing |
| `BlockCache.CacheManager.CacheMarkDirty` | kernel/fs/cache.c:233-239 | sets only the dirty flag |
| `BlockCache.CacheManager.CacheSyncBlock` | kernel/fs/cache.c:247-261 | clears only the dirty flag and returns 0 |
| `BlockCache.CacheManager.CacheSyncAll` | kernel/fs/cache.c:268-283 | clears the dirty flag of every cached block and nothing else |
| `BlockCache.CacheManager.Do` | kernel/fs/cache.c:174-283 | every legal operation on the table is `CacheTheory.Step` |
| `Screen.PutShows` | kernel/printk.c:22-66 | one character keeps the screen a window onto the sheet and the cursor on its position |
| `Screen.ScreenIsWindow` | kernel/printk.c:22-69 | so does every character stream from every screen |
| `Screen.ScrollbackFinal` | kernel/printk.c:49-63 | rows that scrolled off are never changed again |
| `Screen.TextAppears` | kernel/printk.c:38-47 | text without control characters appears unchanged across row ends and scrolls |
| `VgaText.Console.CopyUp` | kernel/printk.c:50-57 | the overlapping in-place copy moves every byte up one row |
| `VgaText.Console.ClearLastRow` | kernel/printk.c:59-63 | the last row becomes blank and nothing else changes |
| `VgaText.Console.ScrollUp` | kernel/printk.c:49-63 | the loops mean: drop the top row, append a blank one |
| `VgaText.Console.VgaPutc` | kernel/printk.c:22-69 | the byte-level routine computes `Screen.Put` and keeps the cursor in range |
| `Itoa.RoundTrip` | kernel/printk.c:119-148 | the text parses back to the number if and only if it is not negative or the base is ten |
| `Itoa.NegativeBytes` | kernel/printk.c:132-137 | the bytes of a negative number in a base other than ten, digit by digit |
| `Itoa.NoLeadingZero` | kernel/printk.c:122-139 | no leading zero except for zero |
| `Itoa.ElevenCharacters` | kernel/printk.c:85-88 | a 32-bit number in base ten takes at most 11 characters |
| `Itoa.WriteDigits` | kernel/printk.c:133-137 | the digit loop fills the buffer with the digits in reverse |
| `Itoa.ReversePrefix` | kernel/printk.c:143-147 | the swap loop reverses the prefix in place and touches nothing else |
| `Itoa.ItoA` | kernel/printk.c:119-148 | the buffer holds the text and its terminating zero, the rest is untouched |

## Left out

- Heap.HeapManager.Kfree: a pointer with no intact header in front of it. This includes merged-away headers that a later split has overwritten, or whose links lead to overwritten ones: the code then reads parts of other headers, may find the magic number gone and do nothing, or may follow a wild link.
- HeapMemory.FreedSoundIff: the same.
- HeapMemory.FreedStale: the same.
- HeapTheory.KfreeKeepsIffLive: blocks on the list only; headers that were merged away are in `HeapMemory.FreedSoundIff`.
- What clients store in their payloads, which may overwrite merged-away headers there, or in headers by overflow.
- Itoa.ItoA: the least 32-bit integer in base ten, whose negation is undefined in C, and bases outside 2 to 36.
- Kernel.Kernel.ScheduleFifo: a running process that is already the queue's tail, for which the real list becomes circular.
- Kernel.Kernel.DoTimer: the same, since it calls `schedule`.
- Kernel.Kernel.SchedulerWake: a blocked process that is already the queue's tail, for the same reason.
- Kernel.Kernel.ProcessExit: a current process that is still queued, or a queued one that is not ready; neither occurs in FIFO runs.
- Kernel.Kernel.ReapProcess: a target that is current, queued or entered twice, which would leave a dangling pointer; none occurs in FIFO runs.
- Kernel.Kernel.ProcessWait: calls outside the FIFO invariant.
- Kernel.Kernel.WaitAgain: calls outside the FIFO invariant.
- Fifo.CreateKeeps: does not say what is appended; `Fifo.CreateSucceedsIff` does.
- Fifo.RunSafe: pids are distinct only while `next_pid` has not passed the largest 32-bit value.
- CacheTheory.RunSafe: runs in which the 64-bit clock or a 32-bit reference count would wrap.
- ExitWait.WaitDelivers: the second half of a wait may be taken by any current process for any pid, which covers more runs than the program has; `PendingWait.WaitOutcome` ties it to its caller.
- Calls before `process_init` has succeeded, when `current` is NULL.
- Direct external use of `process_set_state` and `process_set_current`.
- Context switching itself (kernel/process/context.c, kernel/process/switch.S): a switch is the change of `current`.
- Names, parents, CPU time, memory maps and saved registers of a process; `process_create` sees the allocator as granting or refusing.
- Disk contents behind the cache: loading and writing back are empty in the code.
- printk's format parsing, the hardware cursor, and all other console output.
- The keyboard, interrupts, boot code, paging stubs, file-system stubs, shell and string helpers.
