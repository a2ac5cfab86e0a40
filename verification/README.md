# A verified model of the XyOS kernel

XyOS is a small 32-bit x86 kernel. This project models its memory managers, its lists and
queues, its thread scheduler with the context switch, the construction of its page tables, its
disk request queue and its number printing, and proves what they keep over whole runs.

`dafny verify dfyconfig.toml` checks everything.

## How the model is built

| file | what it models |
|---|---|
| `Links.dfy`, `Queues.dfy` | kernel/lib/list.h and queue.h on one memory of `next` fields, where several circular lists live side by side |
| `Dyadic.dfy` | the binary tree of aligned blocks, with membership defined by halving |
| `BuddyLists.dfy` | the buddy allocator as functions on lists of addresses |
| `BuddyInvariant.dfy`, `BuddySafety.dfy`, `BuddyRuns.dfy` | its invariant (sorted, aligned, tiled, coalesced), that every call keeps it, and the theorems on runs |
| `BuddyView.dfy`, `BuddyAllocator.dfy` | its methods on the linked descriptors, proved to compute those functions |
| `BuddyAsWritten.dfy` | where the text of `RelBytes` and `MergeBlock` departs from its comments, and exactly when that shows |
| `Places.dfy`, `Scheduler.dfy`, `Timer.dfy` | kernel/thread/thread.c as a state machine over its lists, the same on linked nodes, and round robin by timer ticks |
| `ContextSwitch.dfy` | kernel/thread/switch_reg.S on registers and a byte memory |
| `Paging.dfy` | `PagingInit` against the hardware page walk |
| `PageAllocator.dfy`, `PageRuns.dfy` | kernel/lib/bitmap.h, the physical page allocator, and its runs |
| `Console.dfy`, `Disk.dfy` | `itoa`, and the request queue of kernel/driver/ide.c with the threads it wakes |

The buddy allocator has three layers. The methods work on linked descriptors; they are proved
equal to functions on lists of addresses; and those are studied as sets of blocks. The central
result is the canonical form: in every reachable state the free lists hold exactly the maximal
vacant blocks, so they are a function of the allocated lists. That releasing undoes requesting,
that freeing everything restores the initial lists, and that a request fails only if no aligned
block of its size is vacant, all follow from it.

## Where the text and its comments disagree

The comments describe one thing and the statements another in these places. Both are modelled:
the version that follows the comments carries the theorems, and the text as written is shown to
agree with it exactly under the stated condition.

- kernel/memory/direct_mapping_allocator.c:165-167 and 256. `RelBytesAsWritten` does what
  `RelBytes` does exactly on the calls of `ReleaseIsClean`: no allocated list of a smaller class
  reaches above the address, and the buddy of the block is not free. On every other call it
  leaves a descriptor that nothing points to, and then no reading of memory as disjoint lists
  that hold all descriptors is possible (`Links.StrandedBreaksForest`). A block that a request
  had to split for can never be released right away (`SplitThenReleaseIsNotClean`).
- kernel/thread/thread.c:146-152 with 102. `ThreadSleepAsWritten` never leaves the scheduler in
  order. With somebody waiting it puts one node on two lists, and a node that is neither running
  nor created is lost; with nobody waiting the sleeping thread runs on. Either way the memory
  cannot be read as disjoint lists that hold all threads but those (`Links.Intact`, refuted by
  `Links.StrandedBreaksIntact` and `Links.HeldAndListed`).
- kernel/thread/thread.c:81-91 and 128-143. `DestructThread` and `KThreadRun` do not take the
  thread off the list it is on. The memory stays `Intact` exactly when the thread is a created
  one, or, for `KThreadRun`, belongs to a user process or is already the last one waiting.
- kernel/thread/thread.c:75 with 142. The process's list of threads is linked through `node`
  instead of `sibling`, so queueing a created thread always loses the rest of that list, or its
  head (`RunBreaksProcessList`).
- kernel/lib/bitmap.h:29, 35, 41 and kernel/memory/paging.c:362, 394. `PageAllocator.Version`
  selects the text or the comments. As documented every run of `ReqPage` and `RelPage`, with any
  pages, keeps the granted pages marked and distinct, and no page is granted twice without being
  given back in between (`PageRuns.GrantedOnce`). As written this holds exactly for the runs in
  which no release of a page that can be given back meets another granted page with the same
  bit (`PageRuns.InOrderIffHarmless`); `ReleaseOfAFreePage` is a run that grants a page twice.
  Which pages start out free and which can be given back is stated exactly for each version. As
  written the last page below 4 GB, which is in no memory, always starts out free and can be
  given back, because the sum on line 394 wraps around (`LastPageIsFree`,
  `LastPageIsReleasable`). Both versions keep one behaviour of the text: when the loop over the
  regions reaches no page at all, the loop after it does not start and no page becomes
  unavailable.

## Model

| member | source | states |
|---|---|---|
| `Links.ListMemory.ListAdd` | kernel/lib/list.h:126-130 | links a node after another one, as the function `Add` on all `next` fields |
| `Links.ListMemory.ListRemove` | kernel/lib/list.h:132-137 | unlinks and returns the node after another one, as the function `Remove` |
| `Links.CycleAdd` | kernel/lib/list.h:126-130 | adding a node that is not on a ring inserts it at that place of the ring |
| `Links.CycleRemove` | kernel/lib/list.h:132-137 | removing takes exactly the next node off the ring |
| `Links.ForestAdd` | kernel/lib/list.h:126-130 | adding to one of several disjoint rings changes no other ring |
| `Links.ForestRemove` | kernel/lib/list.h:132-137 | removing from one of several disjoint rings changes no other ring |
| `Links.RingsHoldAll` | kernel/lib/list.h:5-17 | disjoint rings that account for every node have as many nodes together as the memory |
| `Links.AddTwiceStrands` | kernel/lib/list.h:126-130 | adding a node that is already listed leaves its old successor without any link to it |
| `Links.StrandedBreaksForest` | kernel/lib/list.h:5-17 | a memory with such a node is not a set of disjoint rings holding all nodes, however it is read |
| `Links.StrandedBreaksIntact` | kernel/lib/list.h:5-17 | the same when some nodes are held off the lists: a stranded node that is not held leaves no reading as disjoint rings of all other nodes |
| `Links.HeldAndListed` | kernel/lib/list.h:5-17 | a held node that a listed one points to leaves no such reading either |
| `Queues.Queue.constructor` | kernel/lib/queue.h:57-63 | an empty queue: the tail is the head |
| `Queues.Queue.Enqueue` | kernel/lib/queue.h:65-68 | appends to the contents and keeps the tail the last node before the head |
| `Queues.Queue.Dequeue` | kernel/lib/queue.h:70-80 | returns and removes the first node, or NULL, including passage through empty |
| `Queues.Queue.QueueGetHead` | kernel/lib/queue.h:82-87 | the first node without removing it, or NULL |
| `Queues.Replay` | kernel/lib/queue.h:65-87 | every sequence of `Enqueue`, `Dequeue` and `QueueGetHead` returns and leaves what it does on a plain sequence |
| `Queues.FirstInFirstOut` | kernel/lib/queue.h:65-87 | for every sequence of operations, what came out followed by what is queued is what was queued followed by what went in |
| `BuddyView.GetMemBlockSizeType` | kernel/memory/direct_mapping_allocator.c:313-324 | the size type is the exponent of the next power of two, for every non-zero 32-bit size |
| `BuddyView.MemBlockPoolInit` | kernel/memory/direct_mapping_allocator.c:199-212 | although it first inserts the head after itself, the pool becomes one ring of all descriptors |
| `BuddyView.PoolChainIsRing` | kernel/memory/direct_mapping_allocator.c:199-212 | that chain of descriptors is a circle through every descriptor once |
| `BuddyLists.DivCarves` | kernel/memory/direct_mapping_allocator.c:282-304 | the recursion of `DivBlock` fails exactly when no class from its own on has a block, else it halves the first block of the smallest such class down to its own |
| `BuddyLists.RequestExactly` | kernel/memory/direct_mapping_allocator.c:118-140 | a request fails, changing nothing, exactly when no class from its own on has a block; else it returns the end of the first block of the smallest class and leaves one block in each class between |
| `BuddyInvariant.VacantIsInOneFreeBlock` | kernel/memory/direct_mapping_allocator.c:231-237 | full coalescing: every vacant aligned block lies inside a single block of the free lists |
| `BuddyInvariant.CanonicalForm` | kernel/memory/direct_mapping_allocator.c:42-44 | the free lists hold exactly the maximal vacant blocks |
| `BuddyInvariant.FreeListsDetermined` | kernel/memory/direct_mapping_allocator.c:42-44 | states in order with equal allocated lists have equal free lists |
| `BuddySafety.ParityTest` | kernel/memory/direct_mapping_allocator.c:251-253 | the 32-bit unsigned parity test agrees with parity relative to the end of the reserved block |
| `BuddySafety.ScanFindsBuddies` | kernel/memory/direct_mapping_allocator.c:244-253 | the scan finds a pair exactly when the released block's buddy is free, and the pair is those two |
| `BuddySafety.SplitKeeps` | kernel/memory/direct_mapping_allocator.c:288-296 | halving the block in hand keeps tiling, alignment and coalescing |
| `BuddySafety.RequestKeeps` | kernel/memory/direct_mapping_allocator.c:118-140 | a request keeps the invariant and hands out a block that was vacant |
| `BuddySafety.MergeKeeps` | kernel/memory/direct_mapping_allocator.c:238-271 | merging restores coalescing when only one block may have a free buddy, through all classes |
| `BuddySafety.ReleaseKeeps` | kernel/memory/direct_mapping_allocator.c:150-189 | a release of any address keeps the invariant |
| `BuddyRuns.InitKeeps` | kernel/memory/direct_mapping_allocator.c:87-115 | for every reserved size the greedy loops tile the rest of the 63 MB exactly, with the blocks of the binary representation of its size, and only the reserved block is allocated |
| `BuddyRuns.ReachableInv` | kernel/memory/direct_mapping_allocator.c:72-189 | every state reached by any calls after initialisation is in order |
| `BuddyRuns.HistoryDoesNotMatter` | kernel/memory/direct_mapping_allocator.c:72-189 | two histories that leave the same blocks allocated leave the same lists |
| `BuddyRuns.NothingLiveRestoresInit` | kernel/memory/direct_mapping_allocator.c:72-189 | when only the reserved block is live, the lists are those of initialisation |
| `BuddyRuns.RoundTrip` | kernel/memory/direct_mapping_allocator.c:118-189 | releasing what a request returned gives back every list exactly |
| `BuddyRuns.RequestFailsIff` | kernel/memory/direct_mapping_allocator.c:118-128 | a request fails exactly when no aligned block of its size is vacant |
| `BuddyRuns.ListedBlocksDisjoint` | kernel/memory/direct_mapping_allocator.c:92-115 | listed blocks lie from 0xc0000000 to 0xc3f00000 at multiples of their size from the reserved end, and two listings are disjoint intervals |
| `BuddyRuns.ListedBlocksCover` | kernel/memory/direct_mapping_allocator.c:92-115 | every address of the area is inside a listed block |
| `BuddyRuns.GrantedBlockIsFresh` | kernel/memory/direct_mapping_allocator.c:118-140 | a granted block is disjoint from every live one |
| `BuddyRuns.RequestUses` | kernel/memory/direct_mapping_allocator.c:118-140 | a request adds exactly the granted block to the allocated lists |
| `BuddyRuns.ReleaseTakes` | kernel/memory/direct_mapping_allocator.c:150-189 | a release of any address takes exactly the block at that address off the allocated lists, in whatever class it is |
| `BuddyRuns.ReleaseDetermined` | kernel/memory/direct_mapping_allocator.c:150-189 | the state after a release is the only state in order with those allocated blocks |
| `BuddyRuns.LiveExactly` | kernel/memory/direct_mapping_allocator.c:118-189 | over every run the allocated lists hold exactly the blocks granted and not released since, told by the calls and what they returned |
| `BuddyAllocator.Allocator.constructor` | kernel/memory/direct_mapping_allocator.c:72-116 | initialisation builds linked lists that hold the initial decomposition, in order |
| `BuddyAllocator.Allocator.FindSpot` | kernel/memory/direct_mapping_allocator.c:133-137 | the loop stops where the address belongs in ascending order |
| `BuddyAllocator.Allocator.InsertInOrder` | kernel/memory/direct_mapping_allocator.c:179-186 | the node enters its list at its place in ascending order and no other list changes |
| `BuddyAllocator.Allocator.ReqMemBlock` | kernel/memory/direct_mapping_allocator.c:217-224 | takes one descriptor from the pool, or returns NULL when it is used up |
| `BuddyAllocator.Allocator.RelMemBlock` | kernel/memory/direct_mapping_allocator.c:226-229 | gives one descriptor back to the pool |
| `BuddyAllocator.Allocator.DivBlock` | kernel/memory/direct_mapping_allocator.c:282-304 | computes `Div` on the linked lists, terminates, and uses one descriptor per split |
| `BuddyAllocator.Allocator.ReqBytes` | kernel/memory/direct_mapping_allocator.c:118-140 | computes `Req` on the linked lists, with every descriptor on exactly one list before and after |
| `BuddyAllocator.Allocator.FindAllocated` | kernel/memory/direct_mapping_allocator.c:155-171 | finds the class and the place of an allocated address, or that it is not allocated |
| `BuddyAllocator.Allocator.FindPair` | kernel/memory/direct_mapping_allocator.c:244-270 | finds the first pair to merge on a list |
| `BuddyAllocator.Allocator.MergeBlock` | kernel/memory/direct_mapping_allocator.c:231-271 | computes `Merge` on the linked lists |
| `BuddyAllocator.Allocator.RelBytes` | kernel/memory/direct_mapping_allocator.c:142-189 | computes `Rel` on the linked lists and keeps the invariant; exactly the block at the address leaves the allocated lists |
| `BuddyAllocator.Allocator.Replay` | kernel/memory/direct_mapping_allocator.c:118-189 | any sequence of calls computes `Run` and its returned addresses; what is allocated at the end is what was granted and not released since; when the allocated lists end as they began, so do all lists and the pool size |
| `BuddyAllocator.Allocator.DescriptorsConserved` | kernel/memory/direct_mapping_allocator.c:35-44 | pool, list nodes and the 53 heads always add up to the 131072 descriptors of the pool memory |
| `BuddyAllocator.Allocator.MergeBlockAsWritten` | kernel/memory/direct_mapping_allocator.c:238-271 | as written, it changes nothing when there is no pair and loses a node of an intact memory when there is one |
| `BuddyAllocator.Allocator.RelBytesAsWritten` | kernel/memory/direct_mapping_allocator.c:150-189 | as written, it equals `RelBytes` on the clean calls and loses a node on all others |
| `BuddyAsWritten.UnlinkPairStrands` | kernel/memory/direct_mapping_allocator.c:255-257 | the three statements lose the node after `block2`, whatever the lists |
| `BuddyAsWritten.MergesIffBuddyFree` | kernel/memory/direct_mapping_allocator.c:238-271 | a release merges exactly when the block's buddy is on its free list |
| `BuddyAsWritten.SplitThenReleaseIsNotClean` | kernel/memory/direct_mapping_allocator.c:118-189 | after a request that split, releasing the same block is never a clean call |
| `BuddyAsWritten.FirstByteCannotBeReleased` | kernel/memory/direct_mapping_allocator.c:72-189 | for every kernel of more than one byte: one byte requested right after initialisation cannot be released cleanly |
| `Scheduler.Scheduler.constructor` | kernel/thread/thread.c:27-62 | 128 free threads, the main thread running, nobody waiting or blocked |
| `Scheduler.Scheduler.PlacesPartition` | kernel/thread/thread.c:15-23 | each thread is in exactly one of free, created, waiting, blocked and running, and the place is where its node is |
| `Scheduler.Scheduler.PartitionHolds` | kernel/thread/thread.c:15-23 | counted over the contents of the lists, every thread is somewhere exactly once |
| `Places.StepConserves` | kernel/thread/thread.c:64-171 | a call keeps every thread in exactly one place if and only if it starts or destroys a created thread, sleeps with somebody waiting, or is any other call |
| `Places.CreateMoves` | kernel/thread/thread.c:64-79 | creation moves the first free thread to the created ones and nobody else |
| `Places.StartMoves` | kernel/thread/thread.c:128-144 | starting moves the created thread to the wait queue and nobody else |
| `Places.SwitchMoves` | kernel/thread/thread.c:93-118 | a switch moves the running thread to the wait queue, its first thread to the processor, and nobody else |
| `Places.SleepMoves` | kernel/thread/thread.c:146-152 | sleeping moves the running thread to the block list, the first waiting one to the processor, and nobody else |
| `Places.WakeMoves` | kernel/thread/thread.c:154-165 | a wake moves a blocked thread to the wait queue and nobody else |
| `Places.DestructMoves` | kernel/thread/thread.c:81-91 | destroying moves the created thread to the free list and nobody else |
| `Places.RunKeepsPartition` | kernel/thread/thread.c:64-171 | over every run of such calls each thread stays in exactly one place |
| `Places.WaitingTurn` | kernel/thread/thread.c:93-171 | bounded waiting: whatever proper calls happen in between, the thread at position i of the wait queue runs when the processor has been taken away i + 1 times |
| `Places.SleepsUntilWoken` | kernel/thread/thread.c:146-165 | a thread that sleeps stays blocked and does not run, whatever proper calls follow, until it is woken, and is then the last one waiting |
| `Places.HandedOutOnce` | kernel/thread/thread.c:64-91 | a created thread is not on the free list again before it is destroyed, whatever proper calls follow |
| `Scheduler.Scheduler.CreateThread` | kernel/thread/thread.c:64-79 | takes the first thread off the free list, which becomes a created one, or returns NULL, and changes no other place |
| `Scheduler.Scheduler.KThreadRun` | kernel/thread/thread.c:128-144 | queues a created kernel thread last and leaves user threads alone; the lists survive exactly for these and for the last waiting thread, and a node is lost for any other listed one |
| `Scheduler.Scheduler.ThreadSwitch` | kernel/thread/thread.c:93-118 | the first waiting thread runs and the running one queues last; nothing happens with nobody waiting |
| `Scheduler.Scheduler.ThreadSleep` | kernel/thread/thread.c:146-152 | following the comment: the running thread is first on the block list and the first waiting one runs; the lists stay intact exactly when somebody waits |
| `Scheduler.Scheduler.ThreadSleepAsWritten` | kernel/thread/thread.c:146-152 | as written the lists are never intact: a node that is neither running nor created is lost when somebody waits, and a blocked thread runs when nobody does |
| `Scheduler.Scheduler.ThreadWake` | kernel/thread/thread.c:154-165 | moves a blocked thread to the end of the wait queue; any other thread is left alone |
| `Scheduler.Scheduler.ThreadWakeAll` | kernel/thread/thread.c:167-171 | wakes the given threads one after the other |
| `Places.WakesExactly` | kernel/thread/thread.c:167-171 | exactly the given blocked threads leave the block list and join the wait queue |
| `Scheduler.Scheduler.DestructThread` | kernel/thread/thread.c:81-91 | the lists stay intact exactly for a created thread, which is freed; for a listed one a node is lost that is neither running nor created |
| `Scheduler.Scheduler.DestructDerails` | kernel/thread/thread.c:81-91 | concrete failure of bounded waiting without that: after the destruction of a waiting thread the wait queue leads through it into the free list |
| `Scheduler.RunBreaksProcessList` | kernel/thread/thread.c:74-75 | linking a new thread into its process's list is sound until the thread is queued through the same node: then the rest of that list is lost, whatever the lists |
| `Timer.Timer.TimerHandler` | kernel/driver/timer.c:47-55 | counts down and, when the count runs out, resets it and rotates the threads |
| `Timer.Timer.Ticks` | kernel/driver/timer.c:47-55 | m ticks rotate the running and waiting threads once per expiry of the counter; the running thread is then `Runner`, and the thread at queue position i first runs at expiry i + 1 |
| `Timer.Timer.OrderDistinct` | kernel/thread/thread.c:15-23 | no thread is twice among the running and the waiting ones |
| `Timer.RotateAt` | kernel/thread/thread.c:93-118 | after n switches each place holds the thread that was n places further on |
| `Timer.FirstRun` | kernel/driver/timer.c:26-55 | from any counter value the thread at queue position i runs from expiry i + 1 on, which is 15 i ticks after the first one, until the next, and not before |
| `Timer.NobodyRunsTwice` | kernel/driver/timer.c:26-55 | among as many turns as there are threads nobody has two |
| `ContextSwitch.Machine.SwitchReg` | kernel/thread/switch_reg.S:5-32 | the instructions compute `Switched` on registers and memory |
| `ContextSwitch.Machine.KThreadRun` | kernel/thread/thread.c:128-140 | builds a frame that returns to the start function with zero registers |
| `ContextSwitch.Machine.CreateThread` | kernel/thread/thread.c:64-73 | stores the thread's own address on top of its new stack |
| `ContextSwitch.CreateStores` | kernel/thread/thread.c:68-73 | `stack_addr` at offset 4 is one below the end of the 4 KB, `esp` at offset 12 is a word below that, and there is the thread's address |
| `ContextSwitch.MainThread` | kernel/thread/thread.c:52-61 | after the stores of `ThreadInit` the invariant of all runs holds, with the main thread running alone |
| `ContextSwitch.SwitchIsTransparent` | kernel/thread/thread.c:110-118 | setting the TSS from the new thread's `stack_addr` and switching keeps the invariant, stays in memory, gives the new thread its saved context and saves that of the old one |
| `ContextSwitch.StartKeeps` | kernel/thread/thread.c:128-140 | starting a thread disturbs no saved context, no self pointer and no `stack_addr` |
| `ContextSwitch.CreateKeeps` | kernel/thread/thread.c:64-73 | creating a thread disturbs no saved context, no other self pointer and no other `stack_addr` |
| `ContextSwitch.CurThread` | kernel/thread/thread.h:45-52 | in every reachable state the word that the TSS names, taken from `stack_addr` in memory, holds the running thread |
| `ContextSwitch.RunKeeps` | kernel/thread/thread.c:93-144 | the invariant holds in every state of every run |
| `ContextSwitch.ResumedAsLeft` | kernel/thread/switch_reg.S:5-32 | over every run a resumed thread has the stack pointer, return address and four registers it was switched out with |
| `ContextSwitch.FirstArrival` | kernel/thread/thread.c:128-144 | a new kernel thread first arrives at its start function with the four registers zero |
| `ContextSwitch.CallIsWork` | kernel/thread/thread.c:110-118 | in any state in order a thread with 28 bytes of stack can call for a switch to any saved thread |
| `ContextSwitch.BackAndForth` | kernel/thread/switch_reg.S:5-32 | from any such state there is a run that switches to another thread and back, and it resumes as it was left |
| `ContextSwitch.FirstSwitches` | kernel/thread/thread.c:52-144 | such a run from `ThreadInit`: create, start, switch over and back |
| `Paging.EntryFields` | kernel/memory/paging.c:286-296 | an entry's address and its whole access field read back as written |
| `Paging.PagingInit` | kernel/memory/paging.c:111-154 | writes the directory and 17 tables, each word in numbers, and nothing else; the hardware walk is the intended map for every address |
| `Paging.WalkIsIntended` | kernel/memory/paging.c:116-154 | 4 MB map to themselves, 64 MB from 3 GB map to physical 0, both writable and for the supervisor only, and every other address faults |
| `PageAllocator.SharedBit` | kernel/lib/bitmap.h:26-43 | which indices share a bit, as written and as documented |
| `PageAllocator.PagesZeroAndFourShare` | kernel/lib/bitmap.h:26-31 | concrete failure: as written indices 0 and 4 share a bit |
| `PageAllocator.Bitmap.Fill` | kernel/lib/bitmap.h:17-24 | every bit gets the state |
| `PageAllocator.Bitmap.SetBitmap` | kernel/lib/bitmap.h:26-31 | sets exactly the indices that share the bit |
| `PageAllocator.Bitmap.ClearBitmap` | kernel/lib/bitmap.h:33-37 | clears exactly the indices that share the bit |
| `PageAllocator.PageAllocator.constructor` | kernel/memory/paging.c:326-374 | a page from 0x4000 on is marked exactly when the highest page of its bit is unavailable; lower pages are free; only pages inside a region are free exactly if documented and any page is reached |
| `PageAllocator.RegionLoopEnds` | kernel/memory/paging.c:349-352 | with its sum modulo 2^32, the test of the loop over a region fails somewhere exactly if the region ends below the last page |
| `PageAllocator.TailIsReach` | kernel/memory/paging.c:335-354 | where the loops over the regions stop, from the last region alone |
| `PageAllocator.ReachIs` | kernel/memory/paging.c:335-354 | the pages below that point are those that start before the last region or end inside it |
| `PageAllocator.ReachesAnyPage` | kernel/memory/paging.c:335-364 | they stop at page 0, which skips the last loop, exactly when there is no region but less than a page at address 0 |
| `PageAllocator.DocumentedInit` | kernel/memory/paging.c:321-325 | as documented the pages that start out free are those wholly inside a region, if and only if any page is reached |
| `PageAllocator.AsWrittenInit` | kernel/memory/paging.c:326-374 | as written, exactly which pages start out free |
| `PageAllocator.LastPageIsFree` | kernel/memory/paging.c:361-364 | as written, for every list of regions, the last page is outside and starts out free |
| `PageAllocator.MissingPageIsFree` | kernel/memory/paging.c:361-364 | concrete failure: a page beyond the last region starts out free |
| `PageAllocator.PageAllocator.ReqPage` | kernel/memory/paging.c:380-388 | grants the lowest free page, never one that is held as long as held pages are marked; 0 means that none is free |
| `PageAllocator.PageAllocator.RelPage` | kernel/memory/paging.c:390-403 | for any page, with the wrapping sum: exactly which bits change, and held pages stay marked exactly if the page cannot be given back or shares its bit with no other held page; always so as documented |
| `PageAllocator.ReleaseOfAFreePage` | kernel/memory/paging.c:380-403 | concrete failure: grant, release of a free page, and as written the granted page is granted again |
| `PageAllocator.ReleasableExactly` | kernel/memory/paging.c:393-398 | as documented exactly the pages inside a region can be given back; as written, below the last page, exactly those that are not the first of their region |
| `PageAllocator.LastPageIsReleasable` | kernel/memory/paging.c:394 | for every list of regions, as written the last page can be given back although it is in no memory |
| `PageAllocator.ReleaseKeepsIff` | kernel/memory/paging.c:390-403 | a release keeps the granted pages marked and distinct if and only if it takes the bit of no other one |
| `PageRuns.InOrderIffHarmless` | kernel/memory/paging.c:380-403 | over every run, the granted pages are marked and distinct in all states if and only if no release takes the bit of another one |
| `PageRuns.DocumentedRuns` | kernel/memory/paging.c:73-86 | as documented every run is of that kind |
| `PageRuns.GrantedOnce` | kernel/memory/paging.c:380-403 | over every such run, a page that two calls grant is given back in between |
| `PageRuns.Replay` | kernel/memory/paging.c:380-403 | any sequence of calls on the bitmap grants and leaves what the state machine does |
| `Console.PrintedRoundTrip` | kernel/driver/console.c:36-65 | parsing the output gives the value back, and the output fits in 12 bytes |
| `Console.NumeralDigits` | kernel/driver/console.c:48-52 | digits of the base only, and no leading zero |
| `Console.PrintedDigits` | kernel/driver/console.c:36-65 | the output is a sign if needed and digits of its base, with no leading zero |
| `Console.WriteDigits` | kernel/driver/console.c:48-52 | the digit loop writes the numeral backwards |
| `Console.ReverseRange` | kernel/driver/console.c:55-64 | the in-place reversal, and nothing else changes |
| `Console.Itoa` | kernel/driver/console.c:36-65 | the buffer holds the printed value, without a leading zero, and its terminator; it parses back; the rest is unchanged |
| `Disk.Ide.Submit` | kernel/driver/ide.c:198-222 | the linked queue gains the request last, for the thread that asks, with eight sectors per block modulo 2^32 |
| `Disk.Ide.IdeHandler` | kernel/driver/ide.c:147-168 | on the linked queue: counts the head down and, when the count reaches zero, takes it off and wakes its requester in the scheduler |
| `Disk.RunServesInOrder` | kernel/driver/ide.c:5-12 | every interleaving equals serving all requests in submission order, one unit of work per error-free interrupt |
| `Disk.WokenExactly` | kernel/driver/ide.c:147-168 | a requester is woken exactly when its request and those before it have had their interrupts |
| `Disk.RequestersAreWoken` | kernel/driver/ide.c:147-222 | from an empty queue, over every legal run, the threads woken are those that asked, in that order, each exactly when its request and those before it have had eight interrupts per block |
| `Disk.InterruptsOf` | kernel/driver/ide.h:12-15 | a request of n blocks takes 8 n interrupts |

## Left out

- `BuddyAllocator.Allocator.ReqBytes`: requires sizes from 1 to 2^25 and enough pool descriptors for its splits, because the text indexes 26 lists without a bounds test and does not test the pool's result (lines 119-121 and 292-293).
- `BuddyAllocator.Allocator.DivBlock`: requires enough pool descriptors for its splits, because the text stores through the pool's result without testing it (lines 292-293).
- `BuddyAllocator.Allocator.constructor`: requires a kernel end of at most 32 MB, for the same reason.
- `BuddyAllocator.Allocator.RelBytesAsWritten`: says nothing about later calls once a node is lost, since they may not terminate.
- `ContextSwitch.Machine.CreateThread`: the stack address is a parameter, and the text does not test whether the allocation failed; the `pcb` and list fields are not stored.
- `Scheduler.Scheduler.CreateThread`: the class does not hold the processes' own thread lists, which line 75 links `node` into; what that does to them is `RunBreaksProcessList`.
- `Scheduler.Scheduler.DestructThread`: models the free list only; the stack release and the search in the process's list use a field that line 82 has cleared.
- `Scheduler.Scheduler.ThreadSwitch`: the page directory switch and the process states are not modelled.
- `PageAllocator.PageAllocator.RelPage`: does not model the clearing of the page's bytes.
- `PageAllocator.PageAllocator.constructor`: requires sorted, disjoint regions that start at most two pages below 4 GB and end below the last page; on others an address or a sum of the loops wraps around and they may not end (`RegionLoopEnds`).
- `Disk.Ide.Submit`: requires a node that is not queued, as the allocation gives one; the queue's nodes are in a memory of their own beside the scheduler's.
- `Disk.Ide.IdeHandler`: requires a queued request for an error-free interrupt, because the text follows the null pointer; the release of the block (lines 165-166) is not modelled.
- `Console.Itoa`: excludes the most negative value in decimal mode, whose negation overflows.
- `Paging.PagingInit`: control registers other than CR3 are not modelled; the walk takes CR4.PSE to be 0.
- Port input and output, the interrupt controller, keyboard, GDT, IDT and TSS setup: hardware sequences and constant tables.
- Handler registration, kernel/lib/map.h, syscalls and the file system: thin or unused.
- The page-fault handler, cloning of page directories and process teardown: the code mixes physical and virtual addresses, so what they should do is not settled by it.
- Doubly linked lists and `printf`: easy members only.
