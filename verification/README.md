# A Dafny model of the CyanOS kernel

CyanOS is a small x86 kernel in C++. This project models the parts of it in which the hard promises lie and proves
them for all inputs, all runs and all reachable states. Each part takes the form of the source: code that changes
things step by step is a class with methods and loops, proved against functions on values; the promises are lemmas
about those functions.

| part | files |
|---|---|
| threads, wait queues, semaphores, scheduler | `Tasking*.dfy` |
| frame bitmap, page tables, allocation of pages, address spaces | `PageRuns.dfy`, `PhysicalMemory.dfy`, `Paging.dfy`, `VirtualMemory.dfy`, `Memory*.dfy` |
| slab heap | `Heap*.dfy` |
| TCP receive path, Internet checksum | `Tcp.dfy`, `TcpDelivery.dfy`, `Checksum.dfy` |
| linked lists | `IntrusiveLists.dfy`, `LinkedLists.dfy` |
| bitmaps and identifiers | `Bitmap.dfy` |
| processes, handles, reference counts | `Processes.dfy`, `Process*.dfy` |
| paths, DNS names | `Text.dfy`, `Paths.dfy`, `SubPaths.dfy`, `Dns.dfy` |

`dafny verify dfyconfig.toml` checks everything.

How the code is read:

- A failed `ASSERT`, a `PANIC` and a page fault are the outcome `Panic`. Theorems say that it cannot happen, or
  exactly when it does.
- The kernel runs on one processor and every spinlock section disables interrupts, so each critical section is one
  step, and runs are sequences of such steps in any order.
- What comes from outside (the memory the OS hands to the heap, arriving segments, the moment of a timer tick) is a
  parameter of the step.
- A waiter's queue entry is identified by its owner thread, as the timeout and termination handlers do, and not by
  the vector index it keeps across a yield.
- A wait_on_event waiter that blocks again keeps an entry that is not Blocked, so "blocked thread, Blocked entry" is
  claimed for `wait` only; `WakeAllReaches` says exactly which waiters a wake-up reaches and `LostWakeUp` shows one
  that is missed.
- Frame numbers are passed as 16-bit values. `FrameFits` gives the exact condition, and allocation theorems ask for
  free frames below 65536.
- Path texts are shorter than 2^31 bytes, so that positions in them are the ints the code keeps them in. A text view
  that leaves its text is an outcome of its own, `Stray`; what is read through it is not modelled.
- Frames that were never a directory or table read as zero, as the code takes for granted; the same holds for the
  memory of a new slab.

Where the code does less than one would expect, the code is kept, and its exact condition is proved:

| the code | exact condition |
|---|---|
| the bitmap search that skips full bytes, from an unaligned start | `SkipAgrees`, example `SkipMisses` |
| `wake_up_all` and `wait_on_event` | `WakeAllReaches`, example `LostWakeUp` |
| `wake_up`, whose assertion looks at entries and not at threads | `AssertionsHold`, example `WakeUpFailsOnBlocked` |
| the receive buffer that is never wrapped or compacted | `ShortStreamNeverFails`, `LongStreamCanFail` |
| the buffer test that counts the header | `InOrderStored`, example `FullWindowPassedOver` |
| the out-of-order loop, in which a segment that overlaps the stored bytes waits too | `ArrivalExact`, `RecheckExact` |
| the slab search, which does not come round to free blocks before its last place | `KmallocSmall` |
| `map_pages`, which looks at the first page's table only | `MapPagesFaults` |
| 16-bit frame numbers | `FrameFits` |
| freeing a region by consecutive frame numbers | `FreshRoundTrip`, `FreeIsolated` |
| a user page allocated where user code cannot go | `UserPages` |
| `full_path` of a relative path in the root directory | `FullPathElements` |
| `sub_path` with an empty last element, and with a later start in the relative part, which it looks for in the absolute text | `SubPathExact`, examples `WrongSlice`, `StraySlice` |
| DNS names without a dot, with empty or with long labels | `NotationInvertible`, example `DotlessNameFails` |
| a 32-bit checksum sum of more than 65537 words | `NoOverflow`, `OneMoreOverflows` |
| a checksum over an odd number of bytes, which takes in the byte behind them | `OddIsStandardIff`, `SegmentAccepted` |
| a big heap block whose size sum wraps, or for which there is no memory | `BigFits`, `KmallocRight` |
| a sleep whose deadline passes the end of the 32-bit tick counter | `SleepDuration`, `WrappedSleepEnds` |

## Model

| member | source | states |
|---|---|---|
| TaskingEffects.StepExact | src/kernel/tasking/thread.cpp:37-231 | every step of every run does what the relation `Effect` says of lists, thread fields, queue entries, counts, current thread and clock, and nothing else: fifteen kinds of step, each described without the functions that compute it |
| TaskingEffects.RecheckExact | src/kernel/tasking/wait_queue.h:62-77 | in every reachable state a wait_on_event waiter that looks again leaves exactly when its condition is met or its entry timed out; leaving takes its one entry out and touches nothing else; otherwise it is blocked on the queue again with its entry as it was |
| TaskingTimeouts.TimedWaitDuration | src/kernel/tasking/wait_queue.h:31-77 | a wait for at most n ticks that nobody wakes ends with the tick that comes after n ticks, neither earlier nor later, and its entry then says Timeout, while its deadline stays below 2^32 |
| TaskingTimeouts.TimedStep | src/kernel/tasking/thread.cpp:49-58 | nothing but a timer tick whose time has come, a wake-up of its queue and its own termination touches a timed waiter |
| TaskingFairness.BoundedWaiting | src/kernel/tasking/scheduler.cpp:44-54 | a thread that stays on the ready list is picked within n * n scheduling decisions, n being the number of threads, whatever mix of preemption, blocking, sleeping, wake-ups and terminations happens |
| TaskingFairness.RankStep | src/kernel/tasking/thread.cpp:119-178 | the measure behind it (threads ahead, then distance of the cursor) never grows, and falls with every decision that passes the thread over |
| TaskingTheorems.ThreadPlacement | src/kernel/tasking/thread.cpp:119-178 | in every reachable state each thread is on exactly one of the four lists, its state and owner name that list, and its blocker is set exactly on the two blocked lists |
| TaskingTheorems.QueueOwnership | src/kernel/tasking/wait_queue.h:31-50 | a thread blocked on a queue owns exactly one entry there, and a Blocked entry belongs to a thread blocked on that queue |
| TaskingTheorems.AssertionsHold | src/kernel/tasking/wait_queue.cpp:58-80 | over every run an assertion of lists, queues or scheduler fails exactly when the scheduler has nothing to run or wake_up is called on a queue none of whose entries is Blocked |
| TaskingRuns.StepKeeps | src/kernel/tasking/thread.cpp:192-231 | every step keeps the whole invariant and panics exactly under the listed condition |
| TaskingRuns.WakeExpiredKeeps | src/kernel/tasking/thread.cpp:37-59 | a timer tick wakes exactly the sleepers and timed waiters whose time has come, sleepers first, each list in order |
| TaskingWaits.WaitEndsOnce | src/kernel/tasking/wait_queue.h:31-50 | between entering and leaving `wait` the entry is Blocked up to one step and settled after it: one wake-up or one timeout ends the wait, and `wait` returns which |
| TaskingWaits.WakeAllReaches | src/kernel/tasking/wait_queue.cpp:39-50 | wake_up_all readies exactly the blocked threads whose entry is Blocked; every thread inside `wait` is one |
| TaskingWaits.LostWakeUp | src/kernel/tasking/wait_queue.h:62-72 | a run from start-up in which a wait_on_event waiter is woken, blocks again, and is passed by the next wake_up_all |
| TaskingWaits.WakeUpFailsOnBlocked | src/kernel/tasking/wait_queue.cpp:30-37 | after that run wake_up fails its assertion although a thread is blocked on the queue |
| TaskingSleep.SleepDuration | src/kernel/tasking/thread.cpp:165-178 | a thread that sleeps for n ticks wakes with the tick that comes after n ticks, neither earlier nor later, while its deadline stays below 2^32 |
| TaskingSleep.WrappedSleepEnds | src/kernel/tasking/thread.cpp:39-47 | a deadline that wraps round wakes the sleeper with the very next tick |
| TaskingSleep.SleeperStep | src/kernel/tasking/thread.cpp:37-59 | nothing but a timer tick and its own termination touches a sleeper, and a tick wakes it exactly when its time has come |
| TaskingTheorems.SemaphoreSafety | src/kernel/tasking/semaphore.cpp:27-45 | over every run the count is initial + releases - acquires, the blocked threads are as many as the count is below zero, and arrivals are served first-in first-out |
| TaskingTheorems.LogsTellHistory | src/kernel/tasking/semaphore.cpp:27-45 | the bookkeeping used for that statement (initial value, acquires, releases, arrivals, served, holders, releases by others) is what the events of the run tell |
| TaskingRuns.ReleaseKeeps | src/kernel/tasking/semaphore.cpp:37-45 | a release that looks for a waiter finds one, the one that has waited longest, and readies it |
| TaskingTheorems.MutualExclusion | src/kernel/tasking/mutex.cpp:3-19 | a semaphore created with n and released only by holders never has more than n holders; a mutex never has two; holders are told by the events of the run |
| TaskingKernel.Kernel.constructor | src/kernel/tasking/thread.cpp:27-35 | the start-up state: one running thread, alone on the ready list |
| TaskingKernel.Kernel.Remove | src/libraries/stdlib/intrusive_list.h:199-217 | a thread leaves the list that owns it, and no other is refused |
| TaskingKernel.Kernel.PushBack | src/libraries/stdlib/intrusive_list.h:219-236 | a thread without owner goes to the end of a list and is owned by it |
| TaskingKernel.Kernel.WakeUp | src/kernel/tasking/thread.cpp:119-145 | the thread moves from its list to the end of the ready list, blocker cleared, or panics, as the specification says |
| TaskingKernel.Kernel.Block | src/kernel/tasking/thread.cpp:147-163 | the running thread moves to the blocked or timed list with its blocker and deadline |
| TaskingKernel.Kernel.Sleep | src/kernel/tasking/thread.cpp:165-178 | the running thread moves to the sleeping list with its deadline |
| TaskingKernel.Kernel.WakeUpSleepers | src/kernel/tasking/thread.cpp:39-47 | one pass over the sleeping list wakes exactly the expired ones, while the list changes under it |
| TaskingKernel.Kernel.ExpireTimedWaiters | src/kernel/tasking/thread.cpp:49-58 | one pass over the timed list times out and wakes exactly the expired ones |
| TaskingKernel.Kernel.HandleThreadTimeout | src/kernel/tasking/wait_queue.cpp:58-66 | the first entry of the thread becomes Timeout; without one it panics |
| TaskingKernel.Kernel.QueueWakeUp | src/kernel/tasking/wait_queue.cpp:30-37 | the first Blocked entry is settled and its thread woken; without one it panics |
| TaskingKernel.Kernel.QueueWakeUpAll | src/kernel/tasking/wait_queue.cpp:39-50 | every Blocked entry is settled and its thread woken, in order |
| TaskingKernel.Kernel.WaitEnter | src/kernel/tasking/wait_queue.h:33-41 | the running thread blocks and appends its Blocked entry |
| TaskingKernel.Kernel.WaitLeave | src/kernel/tasking/wait_queue.h:43-50 | the entry's state is returned and the entry removed |
| TaskingKernel.Kernel.EventRecheck | src/kernel/tasking/wait_queue.h:62-77 | the waiter blocks again or leaves, depending on the condition and the entry's state, as `RecheckExact` says |
| TaskingKernel.Kernel.Acquire | src/kernel/tasking/semaphore.cpp:27-35 | the count goes down and the thread waits exactly when it is below zero then |
| TaskingKernel.Kernel.Release | src/kernel/tasking/semaphore.cpp:37-45 | a waiter is woken exactly when the count was below zero, and the count goes up |
| TaskingKernel.Kernel.SelectNextThread | src/kernel/tasking/scheduler.cpp:44-54 | for the current thread at place i of the ready list, the thread at place (i + 1) modulo its length; the first one if the current thread is on no ready list; panics exactly on an empty list |
| TaskingKernel.Kernel.TimerInterrupt | src/kernel/devices/timer/pit.cpp:18-22 | expired threads are woken, the next thread is picked, and time goes on by one tick |
| TaskingKernel.Kernel.Yield | src/kernel/tasking/scheduler.cpp:21-42 | the next thread is picked and becomes current |
| TaskingKernel.RemoveIf | src/libraries/stdlib/vector.h:333-346 | one pass that stays on its index after a removal leaves exactly the entries of other threads, in order, and says whether any left |
| TaskingKernel.Kernel.HandleThreadTerminated | src/kernel/tasking/wait_queue.cpp:68-74 | all entries of the thread leave the queue; having none panics and changes nothing |
| TaskingKernel.Kernel.Terminate | src/kernel/tasking/thread.cpp:192-231 | the thread leaves its list and its queue and is gone |
| PhysicalMemories.PhysicalMemory.constructor | src/kernel/virtual_memory/physical.cpp:6-12 | no frame is in use and the counter is zero |
| PhysicalMemories.PhysicalMemory.CheckFreePages | src/kernel/virtual_memory/physical.cpp:14-24 | true exactly when none of the frames is in use |
| PhysicalMemories.PhysicalMemory.SetUsedPages | src/kernel/virtual_memory/physical.cpp:55-63 | exactly the frames of the range become used, and the 32-bit counter grows by their bytes |
| PhysicalMemories.PhysicalMemory.SetFreePages | src/kernel/virtual_memory/physical.cpp:45-53 | exactly the frames of the range become free, and the 32-bit counter falls by their bytes |
| PhysicalMemories.PhysicalMemory.FindPages | src/kernel/virtual_memory/physical.cpp:65-89 | the lowest run of n free frames from the start rounded down to a multiple of 8, and the panic exactly when there is none or n is 0 |
| PhysicalMemories.PhysicalMemory.AllocPages | src/kernel/virtual_memory/physical.cpp:26-38 | the frames were free, are that lowest run, and become used |
| PageRuns.FirstFit | src/kernel/virtual_memory/virtual.cpp:3-25 | a result is the lowest fit of the range, and no result means no fit exists |
| MemoryManagers.MemoryManager.FindPages | src/kernel/virtual_memory/virtual.cpp:3-25 | the lowest run of n pages that are not present in the range, and the panic exactly when there is none or n is 0 |
| MemoryManagers.MemoryManager.PagesFree | src/kernel/virtual_memory/virtual.cpp:27-36 | true exactly when no page of the range has a translation |
| MemoryManagers.MemoryManager.MapOnePage | src/kernel/arch/x86/paging.cpp:62-67 | one table entry is written through the recursive entry, and a missing table is a page fault |
| MemoryManagers.MemoryManager.UnmapOnePage | src/kernel/arch/x86/paging.cpp:78-83 | the entry's present bit goes, its frame stays |
| MemoryManagers.MemoryManager.UnmapRange | src/kernel/arch/x86/paging.cpp:86-91 | all pages of the range are unmapped, or the first missing table is a page fault |
| MemoryManagers.MemoryManager.PagePresent | src/kernel/arch/x86/paging.cpp:101-118 | present exactly when directory and table entry are, read through the recursive entry |
| MemoryManagers.MemoryManager.PhysicalPage | src/kernel/arch/x86/paging.cpp:120-124 | the frame in the entry, present or not |
| MemoryManagers.MemoryManager.EnterTable | src/kernel/arch/x86/paging.cpp:93-99 | the frame last mapped at the page becomes the table of the address |
| MemoryManagers.MemoryManager.SeeToTable | src/kernel/virtual_memory/virtual.cpp:38-43 | a missing table is allocated as a kernel page, unmapped and entered |
| MemoryManagers.MemoryManager.MapRegion | src/kernel/virtual_memory/virtual.cpp:44-52 | the pages get consecutive frames, in the state the specification gives |
| MemoryManagers.MemoryManager.AllocNoLock | src/kernel/virtual_memory/memory.cpp:168-199 | the state and address of the specification, with the recursion into page-table creation |
| MemoryManagers.MemoryManager.FillFresh | src/kernel/virtual_memory/memory.cpp:192-195 | each page gets a frame of its own, one after the other |
| MemoryManagers.MemoryManager.FillContiguous | src/kernel/virtual_memory/memory.cpp:188-190 | all pages get one run of frames |
| MemoryManagers.MemoryManager.FreeNoLock | src/kernel/virtual_memory/memory.cpp:159-166 | frames from the one in the first page's entry on are given back, present or not, and the pages unmapped; a missing table is a page fault |
| MemoryManagers.MemoryManager.FillDirectory | src/kernel/arch/x86/paging.cpp:142-152 | the new directory has the kernel's entries, itself, and nothing else |
| MemoryManagers.MemoryManager.CreateNewVirtualSpace | src/kernel/virtual_memory/memory.cpp:78-87 | the state and directory of the specification |
| VirtualMemories.WindowMeaning | src/kernel/arch/x86/paging.cpp:101-111 | through the recursive entry the kernel sees the current directory and exactly the tables it has |
| VirtualMemories.PresentMeaning | src/kernel/arch/x86/paging.cpp:113-118 | check_page_present says whether the processor would translate the page |
| VirtualMemories.WriteWalk | src/kernel/arch/x86/paging.cpp:180-192 | writing one table entry changes the meaning (frame and rights) of one page: in the current space, or in all spaces for a page of the kernel |
| VirtualMemories.MadeTable | src/kernel/virtual_memory/virtual.cpp:38-48 | making a missing table takes one free frame and changes no translation in any space |
| VirtualMemories.KernelSame | src/kernel/arch/x86/paging.cpp:142-152 | a page of the kernel is translated alike in all spaces |
| MemoryTheorems.PlaceExact | src/kernel/virtual_memory/memory.cpp:175-186 | an address is refused exactly when a page of it is present; without one the pages go to the lowest room from page 1 to 0xC0100, or from 0xC0100 to the last page below the recursive entry's, and no room is a panic |
| MemoryTheorems.AllocRefused | src/kernel/virtual_memory/memory.cpp:175-179 | a refused allocation gives null and changes nothing; no pages without an address panic |
| MemoryTheorems.AllocExact | src/kernel/virtual_memory/memory.cpp:168-199 | a non-contiguous allocation makes exactly the requested pages newly present, each with a different frame that was free and with the rights asked for as far as its directory entry allows them, and leaves the meaning of every other page of every space alone, tables made on the way included, which take other frames that were free; the other directories are untouched, and counter and frame numbers add up |
| MemoryTheorems.EnsureDepth | src/kernel/virtual_memory/virtual.cpp:38-43 | seeing to a table recurses at most one level deep, with or without memory left |
| MemoryRegions.AllocDepth | src/kernel/virtual_memory/memory.cpp:168-199 | so does allocation, contiguous or not, successful or faulting |
| MemoryRegions.MapPagesFaults | src/kernel/virtual_memory/virtual.cpp:44-52 | mapping a region in one call faults exactly when a page after the first needs a table of its own |
| MemoryRegions.AllocContiguousExact | src/kernel/virtual_memory/memory.cpp:188-190 | a contiguous allocation gives the pages the lowest free run of frames, in order, and changes nothing else |
| MemoryRegions.FrameFits | src/kernel/arch/x86/paging.cpp:180-192 | a page gets its frame, with its rights, exactly when the frame number fits 16 bits |
| MemoryRegions.FreeExact | src/kernel/virtual_memory/memory.cpp:159-166 | freeing unmaps exactly the region and gives back exactly the frame numbers from the first page's on |
| MemoryRoundTrips.ContiguousRoundTrip | src/kernel/virtual_memory/memory.cpp:159-199 | allocating and freeing a contiguous region restores bitmap, counter and all translations |
| MemoryRoundTrips.KernelContiguousRoundTrip | src/kernel/virtual_memory/memory.cpp:159-199 | in the kernel part this needs no tables to be there first: the pages appear alike in all spaces, and freeing restores everything |
| MemoryRoundTrips.FreshRoundTrip | src/kernel/virtual_memory/memory.cpp:159-199 | freeing what was allocated one frame at a time restores all translations, and the bitmap exactly when the lowest free frame had n - 1 free ones behind it, as it always does for one page |
| MemorySpaces.NewSpaceExact | src/kernel/virtual_memory/memory.cpp:78-87 | a new space costs one free frame, changes no translation, and shares the kernel's pages and no others |
| MemoryRuns.BootInv | src/kernel/arch/x86/paging.cpp:23-43 | the start-up tables satisfy the invariant, for every image that fits |
| MemoryRuns.BootTranslate | src/kernel/arch/x86/paging.cpp:45-59 | after start-up page i of the image is found at page 0x100 + i and at page 0xC0100 + i, both times frame 0x100 + i, writable and closed to user code, and no other page is mapped |
| MemoryRuns.StepKeeps | src/kernel/virtual_memory/memory.cpp:78-199 | every allocation, free, new space and switch keeps the invariant and the counter and does not panic |
| MemoryRuns.SpacesAgree | src/kernel/arch/x86/paging.cpp:142-152 | in every reachable state the kernel entries of all directories are present and identical, kernel pages mean the same everywhere and are closed to user code, as are the pages that show the page tables, and the counter is 4096 times the frames in use modulo 2^32 |
| MemoryIsolation.RunIsolated | src/kernel/virtual_memory/memory.cpp:78-199 | over every run whose frees are safe each translated frame is in use, outside the kernel image none is a directory or table, and none is reached from two pages of any spaces, the kernel's shared pages apart |
| MemoryIsolation.FreeIsolated | src/kernel/virtual_memory/memory.cpp:159-166 | a free keeps the spaces isolated exactly when no page but the freed ones has a frame among the numbers given back |
| MemoryIsolation.ConsecutiveSafe | src/kernel/virtual_memory/memory.cpp:159-166 | freeing pages with consecutive frames outside the image is allowed and safe |
| MemoryIsolation.AllocFreeable | src/kernel/virtual_memory/memory.cpp:168-199 | what a contiguous or one-page allocation makes can be freed safely |
| MemoryIsolation.UserPages | src/kernel/virtual_memory/memory.cpp:175-199 | in every reachable state a page allocated for user code is open to it exactly when it lies below the kernel part and not under the start-up directory's two first tables |
| Heaps.Layout | src/kernel/virtual_memory/slab_allocator.h:26-30 | block counts and offsets are what the template computes, and each slab fits its page |
| HeapTheorems.HeapSafety | src/kernel/virtual_memory/slab_allocator.h:76-149 | over every kmalloc and kfree run live blocks have the size asked for, lie inside the heap's memory, overlap neither each other nor each other's headers, and every free count is the number of clear bits |
| HeapTheorems.KmallocRight | src/kernel/virtual_memory/heap.cpp:21-39 | kmalloc gives an address that was not live a block of at least the size and drops no slab; it gives null and changes nothing exactly for no bytes or when the chain has none left and the OS no memory, and faults exactly when the OS has no memory for a big block |
| HeapEffects.KmallocSmall | src/kernel/virtual_memory/slab_allocator.h:76-134 | for sizes up to 0x100 the class is the smallest that fits; the block is the free one that the search of the first slab of the chain that comes upon any comes upon, its bit, its slab's count and next place, its header and nothing else change; with no such slab a new one is chained and gives its first block; null exactly when there is no such slab and no memory |
| HeapEffects.KmallocBig | src/kernel/virtual_memory/slab_allocator.h:159-167 | larger sizes get memory of their own, the data twelve bytes into it, header and size n + 16 |
| HeapTheorems.ChoiceIsOffer | src/kernel/virtual_memory/slab_allocator.h:84-87 | a slab gives a block exactly when its search comes upon a clear bit |
| HeapTheorems.KfreeRight | src/kernel/virtual_memory/heap.cpp:41-79 | kfree of a live block never fails, ends that block and no other, and unmaps no slab |
| HeapEffects.KfreeExact | src/kernel/virtual_memory/slab_allocator.h:95-149 | kfree of a live block clears exactly its bit, counts it and makes it its slab's next place, or gives exactly its big block's memory back; nothing else changes |
| HeapEffects.KfreeTwice | src/kernel/virtual_memory/slab_allocator.h:95-105 | freeing a block of a slab fails its assertion exactly when the block is not live |
| HeapTheorems.KfreeSlab | src/kernel/virtual_memory/slab_allocator.h:95-112 | header lookup and index division recover the slab and block that were given out |
| HeapTheorems.LiveIffSet | src/kernel/virtual_memory/slab_allocator.h:125-134 | a block is live exactly when its bit is set |
| HeapTheorems.NeverUnmapped | src/kernel/virtual_memory/slab_allocator.h:136-149 | the branch that gives a slab back to the OS is never taken |
| HeapTheorems.SlabsStay | src/kernel/virtual_memory/slab_allocator.h:136-149 | over every run no slab disappears |
| HeapTheorems.MallocFree | src/kernel/virtual_memory/heap.cpp:21-79 | freeing what was just allocated restores the set of live blocks |
| HeapTheorems.BigFits | src/kernel/virtual_memory/slab_allocator.h:159-167 | a big block holds what was asked for exactly when the size sum does not wrap |
| HeapTheorems.StartStarted | src/kernel/virtual_memory/heap.cpp:12-19 | five static slabs that do not overlap are a heap to start from |
| HeapObjects.FindFirstClear | src/libraries/stdlib/static_bitmap.h:87-108 | the byte-skipping search of the slab bitmap |
| HeapObjects.KernelHeap.constructor | src/kernel/virtual_memory/heap.cpp:12-19 | one empty slab of each class; bases that do not overlap make a heap to start a run from |
| HeapObjects.KernelHeap.AllocInSlab | src/kernel/virtual_memory/slab_allocator.h:125-134 | exactly bit i of exactly this slab's map changes, the free count falls by one and stays the number of clear bits, the next place is i + 1 round the end, and the address returned leads back to i |
| HeapObjects.KernelHeap.AllocInChain | src/kernel/virtual_memory/slab_allocator.h:76-93 | the first slab of the chain whose search finds a clear bit gives the block, else a new slab |
| HeapObjects.KernelHeap.AllocInNewSlab | src/kernel/virtual_memory/slab_allocator.h:114-123 | a fresh slab is chained and gives its first block; without memory null is passed on |
| HeapObjects.KernelHeap.Malloc | src/kernel/virtual_memory/heap.cpp:21-39 | dispatch by size as specified |
| HeapObjects.KernelHeap.FreeInSlab | src/kernel/virtual_memory/slab_allocator.h:136-149 | exactly bit i of exactly this slab's map changes, the free count rises by one and stays the number of clear bits, the next place is i, and neither chains nor slabs go |
| HeapObjects.KernelHeap.Free | src/kernel/virtual_memory/heap.cpp:41-79 | dispatch by the header's size field as specified, failing where the assertions do |
| TcpDelivery.WholeStreamStored | src/kernel/network/transport_layer/tcp.cpp:163-298 | once every piece of a stream has arrived, in any order and any number of times, and the waiting ones have looked again, the whole stream is stored |
| TcpDelivery.AnyOrderDelivers | src/kernel/network/transport_layer/tcp.cpp:285-298 | as many looks as there are waiting segments are enough to get there |
| TcpDelivery.PiecesHeld | src/kernel/network/transport_layer/tcp.cpp:285-298 | at every point of such a run each piece that has arrived is stored or waits |
| TcpDelivery.ArrivalExact | src/kernel/network/transport_layer/tcp.cpp:285-298 | in every reachable state a segment of the stream waits, with nothing else changed, exactly when it is in the window and not in order; is dropped exactly when it is outside the window; and is let through, stored or not as its size says, exactly when it starts where the stored bytes end |
| TcpDelivery.RecheckExact | src/kernel/network/transport_layer/tcp.cpp:291-297 | a waiting segment that looks again goes on waiting, is dropped, or is let through and leaves the waiting ones, under the same three conditions |
| TcpDelivery.ReceiveExact | src/kernel/network/transport_layer/tcp.cpp:132-161 | a receive call returns the bytes of the stream that were stored between its start and its end and widens the window by as many; with too small a buffer it returns none and widens nothing |
| Tcp.StoredIsPrefix | src/kernel/network/transport_layer/tcp.cpp:272-298 | while ESTABLISHED, under any loss, duplication and reordering, the stored bytes are a prefix of the sender's stream, the expected sequence number is its end modulo 2^32, and the window is 8000 - stored + consumed without underflow |
| Tcp.ReceivedIsSlice | src/kernel/network/transport_layer/tcp.cpp:132-161 | a receive call returns the stretch of the stream stored while it waited |
| Tcp.WindowMeaning | src/kernel/network/transport_layer/tcp.cpp:423-430 | 32-bit sequence arithmetic means: starts where the stored bytes end; ends no earlier and at most a window later |
| Tcp.StepKeeps | src/kernel/network/transport_layer/tcp.cpp:163-211 | every step keeps this, and the buffer's assertion fails exactly when an accepted segment has no room behind the stored bytes |
| Tcp.ShortStreamNeverFails | src/kernel/network/transport_layer/tcp.cpp:272-283 | a stream of at most 8000 bytes never meets that assertion |
| Tcp.LongStreamCanFail | src/kernel/network/transport_layer/tcp.cpp:272-283 | every longer stream has a run that does |
| Tcp.InOrderStored | src/kernel/network/transport_layer/tcp.cpp:272-283 | in every reachable state an in-order segment inside the advertised window is stored exactly when the window has room for its header too and the buffer for its payload; without the former it is passed over |
| Tcp.FullWindowPassedOver | src/kernel/network/transport_layer/tcp.cpp:272-283 | for every stream of 8000 bytes or more, a first segment that fills the window changes nothing |
| Tcp.TcpSession.constructor | src/kernel/network/transport_layer/tcp.h:124-132 | an empty buffer and a full window |
| Tcp.TcpSession.StoreData | src/kernel/network/transport_layer/tcp.cpp:272-283 | the payload goes behind the stored bytes if the window has room, as specified |
| Tcp.TcpSession.Look | src/kernel/network/transport_layer/tcp.cpp:285-298 | wait, accept or drop, which `ArrivalExact` ties to the place in the stream |
| Tcp.TcpSession.Handle | src/kernel/network/transport_layer/tcp.cpp:163-211 | an arriving segment waits, is dropped, or is stored |
| Tcp.TcpSession.Resume | src/kernel/network/transport_layer/tcp.cpp:291-297 | a waiting segment is looked at again |
| Tcp.TcpSession.BeginReceive | src/kernel/network/transport_layer/tcp.cpp:132-145 | the reader's start is the end of the stored bytes |
| Tcp.TcpSession.EndReceive | src/kernel/network/transport_layer/tcp.cpp:147-161 | what was stored since is returned and added to the window, or refused as too long |
| Checksums.Checksum | src/libraries/stdlib/network_algorithms.cpp:5-20 | the folded one's complement of the sum of the words taken in 32 bits, which is the true sum up to 65537 words; an odd last byte is read with the one behind it |
| Checksums.TcpChecksum | src/kernel/network/transport_layer/tcp.cpp:437-465 | the same over segment and pseudo header |
| Checksums.OddIsStandardIff | src/libraries/stdlib/algorithms.h:47-54 | for an odd length the checksum is the one of RFC 1071, which adds a zero byte, exactly when the byte in memory behind the buffer is zero |
| Checksums.TcpSumExact | src/kernel/network/transport_layer/tcp.cpp:439-458 | what is summed is the words of the segment and of both addresses, 6, and the segment's length as a 16-bit number |
| Checksums.SwapTwice | src/libraries/stdlib/endianess.h:11-14 | swapping bytes twice changes nothing |
| Checksums.NoOverflow | src/libraries/stdlib/network_algorithms.cpp:10-13 | up to 65537 words the sum stays below 2^32 |
| Checksums.OneMoreOverflows | src/libraries/stdlib/network_algorithms.cpp:10-13 | with one word more it need not |
| Checksums.FillThenCheck | src/libraries/stdlib/network_algorithms.cpp:5-20 | filling a zeroed field with the checksum makes the check give 0 |
| Checksums.OneWordChanged | src/libraries/stdlib/network_algorithms.cpp:15-19 | changing one word makes the check non-zero exactly unless 0x0000 and 0xFFFF are exchanged |
| Checksums.SegmentAccepted | src/kernel/network/transport_layer/tcp.cpp:437-465 | what the sender fills in passes the receiver's check, with source and destination swapped, exactly when the length is even or both find the same byte behind the segment |
| IntrusiveLists.IntrusiveList.constructor | src/libraries/stdlib/intrusive_list.h:91-98 | the empty sequence |
| IntrusiveLists.IntrusiveList.PushBack | src/libraries/stdlib/intrusive_list.h:219-236 | one more node at the end of the sequence, links, owner, head, tail and count included; refused exactly for an owned node |
| IntrusiveLists.IntrusiveList.Remove | src/libraries/stdlib/intrusive_list.h:199-217 | the node leaves the sequence, wherever it is; refused exactly for a node that is not in it |
| IntrusiveLists.IntrusiveList.PopFront | src/libraries/stdlib/intrusive_list.h:131-138 | the first node leaves, and null exactly for the empty list |
| IntrusiveLists.IntrusiveList.Find | src/libraries/stdlib/intrusive_list.h:168-175 | the node if it is a member, the end otherwise |
| IntrusiveLists.IntrusiveList.Traverse | src/libraries/stdlib/intrusive_list.h:293-300 | following the links meets the sequence |
| IntrusiveLists.NoSharing | src/libraries/stdlib/intrusive_list.h:17-31 | no node is in two lists or twice in one |
| IntrusiveLists.Append | src/libraries/stdlib/intrusive_list.h:125-129 | among several lists, one grows and the others stay; refused exactly when some list has the node |
| IntrusiveLists.Delete | src/libraries/stdlib/intrusive_list.h:140-146 | among several lists, one shrinks and the others stay |
| LinkedLists.List.LinkNode | src/libraries/stdlib/list.h:377-402 | the node is inserted before the position, back link of the end included |
| LinkedLists.List.UnlinkNode | src/libraries/stdlib/list.h:359-375 | the position is left out |
| LinkedLists.List.Insert | src/libraries/stdlib/list.h:186-191 | a fresh node with the data before the position |
| LinkedLists.List.PushBack | src/libraries/stdlib/list.h:203-206 | a fresh node at the end |
| LinkedLists.List.PushFront | src/libraries/stdlib/list.h:208-211 | a fresh node at the front |
| LinkedLists.List.PopFront | src/libraries/stdlib/list.h:225-228 | the first node leaves |
| LinkedLists.List.PopBack | src/libraries/stdlib/list.h:220-223 | the last node leaves, found through the end's back link |
| LinkedLists.List.RemoveIf | src/libraries/stdlib/list.h:230-242 | exactly the picked nodes leave, the rest keep their order, and the result says whether any left |
| LinkedLists.FilterValues | src/libraries/stdlib/list.h:230-242 | the values left are the values filtered |
| LinkedLists.List.Splice | src/libraries/stdlib/list.h:244-248 | the node moves to the end of the other list, or of this one, and both stay well formed and apart |
| Bitmaps.SkipIsExact | src/libraries/stdlib/bitmap.cpp:48-68 | from a multiple of 8 the byte-skipping search agrees with a plain scan |
| Bitmaps.SkipAgrees | src/libraries/stdlib/bitmap.cpp:48-68 | from any start, the exact condition under which it agrees |
| Bitmaps.FindsIff | src/libraries/stdlib/bitmap.cpp:48-68 | from any start the search gives exactly the first clear bit from start's own offset on in the first byte, from start's on, that is not full |
| Bitmaps.FindsFirst | src/libraries/stdlib/bitmap.cpp:48-68 | where skipping is safe that is the first clear bit at or after the start |
| Bitmaps.SkipMisses | src/libraries/stdlib/bitmap.cpp:53-56 | a bitmap and start where it misses a clear bit |
| Bitmaps.SkipScan | src/libraries/stdlib/bitmap.cpp:48-68 | any result is in range, not before the start, and clear |
| Bitmaps.WithBitAt | src/libraries/stdlib/bitmap.cpp:17-46 | writing one bit changes that bit and no other |
| Bitmaps.Bitmap.constructor | src/libraries/stdlib/bitmap.cpp:4-8 | all bits are clear |
| Bitmaps.Bitmap.Set | src/libraries/stdlib/bitmap.cpp:12-28 | the bit is set, positions beyond the size are ignored |
| Bitmaps.Bitmap.Clear | src/libraries/stdlib/bitmap.cpp:30-46 | the bit is cleared, positions beyond the size are ignored |
| Bitmaps.Bitmap.FindFirstClear | src/libraries/stdlib/bitmap.cpp:91-94 | the search loop for one bit |
| Bitmaps.IdPool.Reserve | src/kernel/tasking/thread.cpp:185-190 | while fewer than 65535 ids are live the new one is the lowest that is not, else every caller gets the same invalid one |
| Bitmaps.IdPool.Release | src/kernel/tasking/thread.cpp:103-107 | exactly this id is given back, and the assertion holds exactly when it was live |
| ProcessEffects.OpenExact | src/kernel/filesystem/process_description.cpp:4-18 | at every step of every run that opens a process by id, the opener gets one new handle of process type whose description refers to the process with that id, that process's count rises by one, and nothing else changes; without such a process nothing changes |
| ProcessEffects.CreateExact | src/kernel/tasking/process.cpp:261-266 | a new process goes to the end of the list with the lowest id nobody has, no handles and no references; all others stay |
| ProcessEffects.CloseExact | src/kernel/filesystem/handles_manager.cpp:25-47 | closing an invalid handle changes nothing; otherwise the handle becomes invalid, a process handle's one description leaves the table, the closer stays, and every process that is not freed keeps id, handles and descriptions |
| ProcessEffects.TerminateExact | src/kernel/tasking/process.cpp:156-174 | ending a process marks it and frees it exactly when nobody refers to it, and every process that is not freed keeps id, handles and descriptions |
| ProcessEffects.OpenFileExact | src/kernel/filesystem/handles_manager.cpp:7-14 | opening a file gives the opener one new handle of file type and changes nothing else |
| ProcessTheorems.Lifetime | src/kernel/tasking/process.cpp:156-212 | over every run reference counts are the live descriptions, a process is listed from creation until it has ended and nobody refers to it, is freed at most once, and ids are distinct |
| ProcessTheorems.TerminateFreesLeast | src/kernel/tasking/process.cpp:156-174 | ending a process frees exactly the least set that is closed under losing all references |
| ProcessTheorems.CloseFreesLeast | src/kernel/filesystem/handles_manager.cpp:25-47 | so does closing a handle |
| ProcessTheorems.ClosedForGood | src/kernel/filesystem/handles_manager.cpp:7-47 | a closed handle number is never valid again, and a freed process never comes back |
| ProcessLifetime.StepKeeps | src/kernel/tasking/process.cpp:92-98 | every call keeps the invariant, and the only assertion that can fail is the one against ending a process twice |
| ProcessLifetime.CleanupKeeps | src/kernel/tasking/process.cpp:268-272 | the cascade of destructors ends, never dereferences a description of a freed process and never meets a zero count, and leaves counts right |
| ProcessLifetime.DereferenceKeeps | src/kernel/tasking/process.cpp:204-212 | destroying one description does so too |
| ProcessLifetime.OpenKeeps | src/kernel/filesystem/process_description.cpp:4-18 | opening keeps counts and tables right, also when opener and target are one |
| ProcessTables.ProcessTable.constructor | src/kernel/tasking/process.cpp:9-10 | no processes |
| ProcessTables.ProcessTable.DescriptorDereferenced | src/kernel/tasking/process.cpp:204-212 | the count falls, and a zombie without references is cleaned up |
| ProcessTables.ProcessTable.CleanUp | src/kernel/tasking/process.cpp:92-98 | list, id and descriptions go, in that order |
| ProcessTables.ProcessTable.DestroyDescriptions | src/kernel/filesystem/process_description.cpp:20-23 | each description is destroyed in table order |
| ProcessTables.ProcessTable.CreateProcess | src/kernel/tasking/process.cpp:261-266 | a process with the lowest free id at the end of the list |
| ProcessTables.ProcessTable.Find | src/kernel/tasking/process.cpp:27-35 | the first process of the list with the id |
| ProcessTables.ProcessTable.OpenProcess | src/kernel/filesystem/handles_manager.cpp:16-23 | a new handle number, or the error for an unknown id; `OpenExact` says whom the handle refers to |
| ProcessTables.ProcessTable.CloseHandle | src/kernel/filesystem/handles_manager.cpp:25-47 | an invalid handle is refused, a valid one is destroyed and marked |
| ProcessTables.ProcessTable.TerminateProcess | src/kernel/tasking/process.cpp:163-174 | the process ends, and is cleaned up if nobody refers to it |
| Paths.TypeExact | src/libraries/stdlib/path_view.cpp:128-150 | which texts are paths, which of them are absolute, and which relative ones are recursive |
| Paths.RebuildAbsolute | src/libraries/stdlib/path_view.cpp:152-174 | joining the elements of an absolute path other than the root rebuilds it |
| Paths.FullPathElements | src/libraries/stdlib/path_view.cpp:118-126 | the full path of a pair re-parses to the elements of both, exactly unless the directory is the root |
| Paths.FullPathOne | src/libraries/stdlib/path_view.cpp:118-126 | the full path of a single path: itself if absolute, with a separator in front if not |
| Paths.CountElements | src/libraries/stdlib/path_view.cpp:231-248 | the number of elements |
| Paths.GetElement | src/libraries/stdlib/path_view.cpp:152-174 | the element at the index |
| Paths.Index | src/libraries/stdlib/path_view.cpp:77-90 | negative indices count from the end, and the assertion fails exactly out of range |
| SubPaths.SubAbsolutePath | src/libraries/stdlib/path_view.cpp:176-198 | for every start and end the outcome of the search; on a well-formed view the text of exactly the elements asked for |
| SubPaths.SubRelativePath | src/libraries/stdlib/path_view.cpp:200-229 | for every start and end the outcome of the search; for a start up to the first relative element the text of exactly the elements asked for |
| SubPaths.HopStart | src/libraries/stdlib/path_view.cpp:213-217 | the position a later start is given: the start of a piece of the absolute text, counted round and round |
| SubPaths.SubPathExact | src/libraries/stdlib/path_view.cpp:92-116 | for every pair of indices: out of range fails an assertion; in range the result has exactly the elements from start to end if and only if `Right` holds, which for a start up to the first relative element means a last element that is not empty (else an assertion fails), for an end on the last element a position at the start of the element, which is not empty, or at the separator before it, and for an earlier end that the pieces from the position on are the elements asked for |
| SubPaths.SubPath | src/libraries/stdlib/path_view.cpp:92-116 | the result for any two indices is the one just described: the slice exactly when `Right` holds, a failed assertion out of range |
| SubPaths.WrongSlice | src/libraries/stdlib/path_view.cpp:213-228 | /x with ab/c/d, elements 2 to 3: the result has the elements b, c and d |
| SubPaths.StraySlice | src/libraries/stdlib/string_view.cpp:93-102 | /longer/name with a/b/c/d, elements 4 to 5: the view that comes back is outside the text |
| Dns.ConvertToDnsNotation | src/kernel/network/application_layer/dns.cpp:92-114 | the patched buffer is the encoding |
| Dns.NotationInvertible | src/kernel/network/application_layer/dns.cpp:92-114 | walking the output by its length octets gives back the labels and stops on the last octet exactly for names with a dot and labels of 1 to 63 bytes |
| Dns.DotlessNameFails | src/kernel/network/application_layer/dns.cpp:97-98 | every name without a dot gets the length octet 0xFF in front and cannot be read back |

## Left out

- Boot code, GDT, IDT, interrupt controllers, context switching, inline assembly and TLB invalidation: effects of the hardware; page tables are kept as contents.
- PCI, RTL8139, keyboard, console, RTC, logger: port input and output.
- ELF and PE loaders, multiboot, TarFS, shell, system call stubs and the user-space copy of the heap.
- DHCP, ARP, ICMP, UDP, TCP handshake, closing and sending.
- CircularBuffer, Stack, Vector apart from remove_if, memmove, itoa, seek, list copies and moves, and stepping back from the end of an IntrusiveList: they would only add easy members.
- Terminating the current thread, a semaphore waiter, or a thread that was woken and has not resumed: the code gives no count back and leaves an orphan entry, so these steps are not part of runs.
- Semaphore counts, reference counts and queue lengths are unbounded integers; 32-bit overflow of them is not modelled.
- File descriptions: a file handle is an entry of the handle table without a table of its own.
- Process threads: Process::terminate's loop over its threads is not part of the process model.
- Multi-bit bitmap searches: only searches for one bit are modelled.
- Process names are never reused in the model, while the code may reuse the memory of a freed process.
- Reader of a TCP session: one receive call at a time, and a stream shorter than 2^32 bytes.
- Memory::map of a physical address, and regions that reach into the recursive entry's pages.
- `TcpDelivery.WholeStreamStored`: for segments without RST and FIN, since closing is not modelled, and for streams that fit the buffer together with a header; `ArrivalExact` and `InOrderStored` say what happens to the others.
- `SubPaths.SubPathExact`: compares elements only; a right slice of the relative part that starts at a separator is a view of absolute type.
- `MemoryManagers.MemoryManager.AllocNoLock`: asks for room (a fit, free frames below 65536, and tables for contiguous regions), because beyond 65536 frame numbers are cut off and the tables no longer make sense; the panics for a full memory are those of the two searches.
- `MemoryManagers.MemoryManager.SeeToTable`: asks for the same room.
- `MemoryManagers.MemoryManager.MapRegion`: asks for the same room, and for tables behind the first; `MapPagesFaults` says what happens without them.
- `MemoryManagers.MemoryManager.FillFresh`: asks for the same room.
- `MemoryManagers.MemoryManager.FillContiguous`: asks for the same room.
- `MemoryManagers.MemoryManager.CreateNewVirtualSpace`: asks for one free frame below 65536 and one free kernel page.
- `MemoryRegions.AllocDepth`: asks for the same room where memory is handed out.
- `ProcessTables.ProcessTable.CreateProcess`: while an id is free; `IdPool.Reserve` says what a full pool gives.
- `ProcessLifetime.CleanupKeeps`: does not model that Process::terminate and Process::descriptor_dereferenced release a ScopedLock on m_lock of the process that cleanup() has deleted (src/kernel/tasking/process.cpp:163-174 and 204-212).
- `ProcessLifetime.DereferenceKeeps`: the same lock is not modelled.
