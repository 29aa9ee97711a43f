# A Dafny model of the kernel's paging, threads and processes

This project models three connected machines of a small teaching kernel and proves what they promise.

**Demand paging.** Supplemental page tables, page directories with accessed and dirty bits, a frame table
scanned as a clock, a swap bitmap over disk sectors, and files. `PagingSpec` says what every operation does
to a state; `PagingProofs` and `PagingRuns` show that every step, and hence every run, behaves like flat
memory; `EvictionScan` is about the scan loop, `EvictionPolicy` and `PageBits` about who goes, what becomes
of it and which bits decide; `SwapAccounting` is about slots. `Swap` and `Vm` perform the same operations in
place, method by method, against that specification. `GrowthCollision` is about stack growth at a page that
has an entry already. `MmapSpec`, `Mmap`, `MappedBytes` and `MmapRuns` add memory-mapped files.

**Threads.** `Scheduler` is a transition system whose steps are the regions the kernel runs with interrupts
off. One thread-state core carries both ready lists: first in, first out (Project 3) and by priority
(Project 1). `SchedulerProofs`, `SchedulerLaws` and `SchedulerRuns` hold its invariants, what each step does
to each thread, and what happens over whole runs, `Monitor`, `MonitorProofs`, `ConditionProofs`,
`MonitorRuns` and `MonitorOperations` build locks and condition variables on it, in which a thread may lose
the processor between any two steps of an operation. `Alarm` is the timer of Project 1. `Kernel` and `Synch`
perform the operations in place. `Handshake`, `HandshakeHistory` and `Process` are the exec/wait protocol of
a parent and its children.

**Program loading.** `Elf` is the 32-bit placement of segments (the Program Header section in Part 2 of the
TIS ELF specification), `Loader` the lazy and the eager loading loop, `LazyLoading` the refinement between
them, `FaultingIn` which lazily entered pages a fault can bring in, `ArgStack` and `ArgBuilders` the two
argument stacks and how a program reads them.

What comes from outside is a parameter: which free frame the page allocator hands out, whether the page
directory has memory for a mapping and `mmap` for a page's entries, whether a file can be opened again, when
interrupts and preemptions happen and what user programs do.

Where the code and its comments differ, the model follows the code. `stack_growth` does not clear the frame
it maps, so a new stack page starts with what the frame held. `swap_in` copies through the user address of
the page, so a page that comes back from swap is marked accessed and dirty. Tearing an entry down does not
give its swap slot back; `SwapAccounting.DiscardLeaks` says exactly which teardowns lose a slot. `mmap` of
an empty file opens the file again and never closes it, and so does an `mmap` that finds no memory for its
first page (`Mmap.Mappings.Map`). `munmap (-1)` removes every mapping.

Two properties that one would expect of loading do not hold of the code, and are stated with their exact
conditions. First, lazy loading accepts segments whose pages can never be faulted in: `validate_segment`
looks neither at where the file part ends nor at USER_VADDR_BOTTOM, at or below which `page_fault` serves no
address. Every page of an accepted header can be faulted in exactly when its file part is in the file and
`p_vaddr` is at least USER_VADDR_BOTTOM (`FaultingIn.EveryPageOfElfLoadsIff`; `FaultingIn.LowSegmentRefused`
is a header for which it fails). Second, stack growth does not always keep a page mapped exactly when its
entry says it is loaded. `setup_stack` calls it without looking for an entry; if a segment covers the stack
page, the frame is allocated and mapped before `hash_insert` finds the segment's entry, and nothing is
undone. The invariant is kept exactly when growth does not collide in this way
(`GrowthCollision.GrowthKeepsValidIff`), which for an accepted header means that its region ends at or below
the stack page (`SetupStackCollidesIff`; `StackPageSegmentCollides` is a header for which it fails). When
the process ends after a collision, one frame is both free and in the frame table (`ExitConservesIff`).

## Model

| member | source | states |
|---|---|---|
| `EvictionScan.ScanStopsIff` | Project 3/vm/frame.c:103-162 | the `while (true)` clock ends exactly when some entry is unpinned, and if it ends it does so within two passes |
| `EvictionScan.ScanStops` | Project 3/vm/frame.c:109-160 | the small-step clock stops on the first unpinned unaccessed entry, or else on the first unpinned one with every unpinned accessed bit cleared |
| `EvictionScan.ScanNeverStops` | Project 3/vm/frame.c:109-160 | with every entry pinned no number of trips ends the scan |
| `EvictionScan.TripTaken` | Project 3/vm/frame.c:109-160 | each trip from a reachable position either moves the hand on with trips to spare or has found the specified victim |
| `EvictionPolicy.SecondChance` | Project 3/vm/frame.c:103-125 | the victim is the first unpinned page that was not accessed or, if there is none, the first unpinned one |
| `EvictionPolicy.ScanClears` | Project 3/vm/frame.c:109-125 | the scan clears the accessed bits of exactly the unpinned pages it passed over on its first round |
| `EvictionPolicy.CleanVictim` | Project 3/vm/frame.c:127-151 | a victim that is clean and never was in swap takes no slot and writes nothing: only its entry's loaded bit changes |
| `EvictionPolicy.MappedVictim` | Project 3/vm/frame.c:127-138 | a dirty mapped victim goes to its place in its file, and to no slot even when swap is full |
| `EvictionPolicy.SwappedVictim` | Project 3/vm/frame.c:139-144 | a dirty page of an executable, and any page that was in swap, goes to the first free slot and is a swap page from then on |
| `EvictionPolicy.RoomByBits` | Project 3/vm/frame.c:36-70 | nothing is evicted while a frame is free; making room hangs exactly if every entry is pinned and panics exactly if the victim needs a slot and all are in use |
| `PageBits.StepPins` | Project 3/userprog/syscall.c:394-544 | each page's pin changes only by a check, an unpin or a fault that is about it, and no step moves a pinned page to another frame |
| `PageBits.NewPins` | Project 3/vm/page.c:236-345 | a new entry of a file is neither loaded nor pinned, a new stack page is both |
| `PageBits.PinnedStaysPut` | Project 3/vm/frame.c:103-111 | over any run a pinned page in memory stays in its frame until it is unpinned or given back |
| `PageBits.LoadedBits` | Project 3/vm/page.c:167-229 | a page loaded from its file is mapped clean and unaccessed, one from swap accessed and dirty |
| `PageBits.JustUsedIsSpared` | Project 3/vm/frame.c:111-125 | a page just read or written is not the next victim while some unpinned page is idle |
| `Vm.Pager.Scan` | Project 3/vm/frame.c:103-125 | the loop, in place, leaves the accessed bits and picks the entry the specification of second chance names |
| `Vm.Pager.EvictFrame` | Project 3/vm/frame.c:103-162 | eviction writes the victim back and releases it as specified, and panics exactly when the victim is a swap page or a dirty page of an executable and no slot is free (`file_lock` is not modelled) |
| `Vm.Pager.WriteBack` | Project 3/vm/frame.c:127-144 | a clean page that was never in swap is not written anywhere; dirty MMAP bytes go to the file and never panic; dirty FILE and all SWAP bytes go to the first free slot, turning the entry into SWAP, or panic exactly if there is none |
| `Vm.Pager.FrameAlloc` | Project 3/vm/frame.c:36-70 | a frame is granted that belonged to nobody, after an eviction if none was free; it panics or hangs exactly when eviction does |
| `Vm.Pager.FreeFrame` | Project 3/vm/frame.c:73-99 | the first table entry for the frame leaves the table and the frame becomes free; nothing changes for an unknown frame |
| `PagingProofs.Conservation` | Project 3/vm/frame.c:21-99 | free frames plus frame-table entries are all the user frames, each counted once |
| `PagingProofs.EvictedInv` | Project 3/vm/frame.c:103-162 | eviction keeps the invariant and every byte of every page, and frees the victim's frame |
| `PagingProofs.LoadPageInv` | Project 3/vm/page.c:137-229 | `load_page` keeps the invariant and every byte; it succeeds exactly for an unloaded page whose file range exists and whose mapping fits |
| `PagingProofs.LoadPagePanics` | Project 3/vm/page.c:167-183 | loading never meets a free swap slot: it panics only because making room needed a slot and there was none |
| `PagingProofs.GrowStackInv` | Project 3/vm/page.c:308-345 | unless it collides with an entry, stack growth changes no existing page; it succeeds exactly within 8 MB of PHYS_BASE, for a page without an entry, when the mapping fits, leaving the new page loaded, pinned and with the bytes its frame held |
| `PagingProofs.UnmappedInv` | Project 3/userprog/process.c:660-675 | unmapping a page leaves in its file exactly the bytes it last held, and every other byte, length and page as it was |
| `PagingProofs.DiscardedInv` | Project 3/vm/page.c:70-80 | tearing one entry down keeps the invariant and every other page |
| `PagingRuns.StepKeeps` | Project 3/vm/page.c:137-345 | every step of faults, accesses, mapping, teardown and growth that does not collide keeps the invariant, frames, slots and file lengths, and changes only the page it names |
| `PagingRuns.StepRefinesFlat` | Project 3/vm/frame.c:103-162 | one step of demand paging is one step of flat memory |
| `PagingRuns.Transparent` | Project 3/vm/page.c:137-229 | over any run, each kept byte of a page is the last one stored there, or else the page's first one |
| `PagingRuns.LoadReturnsLastStore` | Project 3/vm/page.c:137-229 | a user load returns the last byte stored at its address, or else the initial byte |
| `PagingRuns.RunConserves` | Project 3/vm/frame.c:21-99 | no run in which stack growth does not collide makes or loses a frame or a slot, or changes a file's length |
| `PagingRuns.MunmapWritesEverything` | Project 3/userprog/process.c:654-691 | after any run, unmapping a page leaves in the file the last byte stored at each of its places |
| `GrowthCollision.GrowthKeepsValidIff` | Project 3/vm/page.c:308-345 | stack growth keeps pages mapped exactly when loaded, and the whole invariant, if and only if it does not map a frame at a page that has an entry |
| `GrowthCollision.ExitConservesIff` | Project 3/userprog/process.c:168-184 | after stack growth and the end of its process each frame is free or in the frame table, once, if and only if growth did not collide; otherwise one is both |
| `GrowthCollision.SetupStackCollidesIff` | Project 3/userprog/process.c:492-501 | once an accepted segment is entered, `setup_stack` collides if and only if the segment's region reaches into the stack page and the mapping fits |
| `GrowthCollision.StackPageSegmentCollides` | Project 3/userprog/process.c:401-442 | the accepted header with p_vaddr PHYS_BASE - PGSIZE, on a machine with one frame: the stack page fails, the invariant is broken and in the end the frame is free and in the table |
| `SwapAccounting.StepExact` | Project 3/vm/swap.c:23-53 | every step but a teardown keeps the in-use slots exactly those of swapped-out pages |
| `SwapAccounting.RunExact` | Project 3/vm/swap.c:23-53 | over a run with no teardown exactly the slots of swapped-out pages are in use |
| `SwapAccounting.DiscardLeaks` | Project 3/vm/page.c:70-80 | a teardown keeps the accounting exact if and only if the page was not swapped out |
| `Swap.SwapArea.SwapIn` | Project 3/vm/swap.c:23-36 | the page stored in the slot comes back sector by sector and the slot becomes free; a free slot panics |
| `Swap.SwapArea.SwapOut` | Project 3/vm/swap.c:39-53 | the page goes to the first free slot and to no other; a full bitmap panics |
| `Swap.PageStored` | Project 3/vm/swap.c:46-50 | rewriting the sectors of one slot changes that page and no other |
| `Vm.Pager.LoadPage` | Project 3/vm/page.c:137-164 | loading in place does what the specification says, for every kind of page |
| `Vm.Pager.StackGrowth` | Project 3/vm/page.c:308-345 | stack growth in place does what the specification says, for a page with an entry too: the frame then stays mapped and in the table and the call fails |
| `Vm.Pager.PageFault` | Project 3/userprog/exception.c:132-185 | the handler takes the branch the error bits, the address and the stack pointer call for, ends as specified, and leaves a page that has an entry unpinned |
| `Vm.PageFaultServes` | Project 3/userprog/exception.c:132-185 | a fault is served exactly for an absent, loadable or stack-near user address; then the page is mapped and no byte of any page has changed; a page with an entry is left unpinned whether it was loaded or not, a new stack page pinned |
| `PageBits.FaultIsStep` | Project 3/userprog/exception.c:166-176 | a fault at an absent page with an entry is one step of the paging machine; it leaves that page unpinned and every other pin as it was |
| `PageBits.ChecksLikeFault` | Project 3/userprog/syscall.c:394-416 | above USER_VADDR_BOTTOM a system call accepts exactly the addresses that are in memory or at which a fault would be served; below it neither does |
| `Vm.Pager.CheckValidPtr` | Project 3/userprog/syscall.c:394-416 | it accepts exactly the addresses that can be brought in, leaves the page loaded and pinned, and lets go of no pinned page |
| `Vm.Pager.CheckValidBuffer` | Project 3/userprog/syscall.c:487-505 | when it returns, every page of the buffer is loaded, pinned and, if it must be, writable, whatever its own later loads evicted; it ends the process only at a byte whose address is refused, or whose page is read-only, with all pages before it held |
| `Vm.Pager.UnpinBuffer` | Project 3/userprog/syscall.c:536-544 | exactly the pages the buffer spans become evictable again |
| `Vm.Pager.UnmapPage` | Project 3/userprog/process.c:660-675 | one round of unmapping in place does what the specification says |
| `MmapSpec.RemovalWritesBack` | Project 3/userprog/process.c:647-700 | removing a mapping leaves in the file, for every byte of every page of it, the byte the page last held |
| `MmapSpec.RemovalKeepsOthers` | Project 3/userprog/process.c:647-700 | exactly the listed pages with the given mapid, or with -1 all listed pages, lose their entries; every other page reads the same |
| `MmapSpec.RemovalLeavesRest` | Project 3/userprog/process.c:647-700 | bytes of files outside the mapping, and the files' lengths, stay |
| `MmapSpec.ClosedExactlyOnce` | Project 3/userprog/process.c:647-700 | because mapids never decrease along the list, removal closes each matching mapping's file exactly once and no other |
| `MmapSpec.AlternatingClosesTwice` | Project 3/userprog/process.c:678-688 | on a list out of order a file would be closed twice |
| `MmapSpec.RemainingByMapid` | Project 3/userprog/process.c:657-688 | the list keeps, in order, exactly the pages of other mapids; -1 empties it |
| `MmapSpec.ClosedByMapid` | Project 3/userprog/process.c:678-700 | the files closed are exactly those of the given mapid, or of all, each once |
| `MmapSpec.TilesFile` | Project 3/userprog/syscall.c:282-295 | every byte of the file is in exactly one page of the mapping, at its own place |
| `MmapSpec.MappingReadsFile` | Project 3/vm/page.c:270-300 | mapping a file that backs nothing else keeps the invariant, and every page reads as its part of the file |
| `MappedBytes.MappedByte` | Project 3/userprog/syscall.c:280-296 | byte b of a file mapped at addr is read at address addr + b, from a writable, unpinned page that is written back to the file |
| `MappedBytes.OnlyMappedPages` | Project 3/userprog/syscall.c:280-296 | a mapping enters no page on which no byte of the file comes to lie |
| `MmapSpec.Rollback` | Project 3/userprog/syscall.c:286-291 | after a clash, or for want of memory at any page, removal restores the table, an older entry included, and the list; it closes the file once if a page of the mapping is on the list, and not at all if it is not |
| `Mmap.Mappings.RemoveMmap` | Project 3/userprog/process.c:647-700 | the pass over the list with its `close` and `f` variables leaves the specified state, list and closed files |
| `Mmap.Mappings.Map` | Project 3/userprog/syscall.c:266-297 | `mmap` succeeds exactly when no page of the range is taken and there is memory for the entries of each; otherwise table and list are as if it had not been called, the mapid is spent, and the file is closed unless memory failed at the first page |
| `Mmap.Mappings.Munmap` | Project 3/userprog/syscall.c:299-302 | exactly the pages of the given mapid, or with -1 all, lose their entries and leave the list, the others staying in order; exactly their files are closed, each once |
| `MmapRuns.MunmapAfterRun` | Project 3/userprog/process.c:654-691 | after any interleaving of stores, evictions and reloads, removing a mapping in one go leaves in the file what its pages last held, at the same length |
| `MmapRuns.UnmapLasts` | Project 3/userprog/process.c:654-691 | with any other steps between the rounds of a removal, each page's bytes are in the file as it last held them from its own round on, until somebody writes or maps them again |
| `OrderedList.InsertIsFifo` | Project 1/thread.c:577-593 | ordered insertion puts an element last among its equals and leaves every other class as it was |
| `SchedulerProofs.StepKeeps` | Project 3/threads/thread.c:243-345 | every step keeps exactly one running thread, the ready list equal to the ready threads without repeats and sorted by priority, each blocked waiter in exactly its semaphore's list, and no lost wake-up |
| `SchedulerProofs.ScheduleKeeps` | Project 3/threads/thread.c:523-598 | `schedule` turns a state in which nothing runs into one in which exactly the next thread runs |
| `SchedulerProofs.TakeKeeps` | Project 3/threads/synch.c:61-76 | a thread that takes a unit, woken or barging, keeps the no-lost-wake-up invariant |
| `SchedulerProofs.UpKeeps` | Project 3/threads/synch.c:108-121 | an up wakes one waiter, adds one unit and keeps all invariants |
| `SchedulerProofs.SetPriorityKeeps` | Project 1/thread.c:347-350 | a running thread's new priority does not unsort the ready list |
| `SchedulerLaws.ProcessorGoes` | Project 3/threads/thread.c:243-345 | only yielding, blocking, exiting and a down on an empty semaphore give the processor away, to the front of the ready list, a yielding thread having gone to its end |
| `SchedulerLaws.StatusAfter` | Project 3/threads/thread.c:243-345 | each thread's status after each step: the running one, the one that gave way (ready, blocked or dying), the one that was woken, and all others as they were |
| `SchedulerLaws.PriorityAfter` | Project 1/thread.c:347-350 | only `thread_set_priority` changes a priority, the caller's own, to its argument; a new thread is blocked with the priority asked for |
| `SchedulerLaws.RunsHighest` | Project 1/thread.c:496-503 | after the processor changed hands no ready thread has a greater priority than the one that runs |
| `SchedulerLaws.ExitIsFinal` | Project 3/threads/thread.c:309-326 | over any run a thread that has exited never runs again |
| `SchedulerRuns.UpFindsBlocked` | Project 3/threads/synch.c:116-118 | after any run `sema_up` finds a blocked thread that is in no other list, so the assertion in `thread_unblock` holds |
| `SchedulerRuns.NobodySleepsBesideAUnit` | Project 3/threads/synch.c:61-121 | after any run a semaphore with waiters has no more units than woken threads that have not tested again |
| `SchedulerRuns.UnitsConserved` | Project 3/threads/synch.c:61-121 | a semaphore's value is what it was plus the ups minus the successful downs |
| `SchedulerRuns.WaitersWakeInOrder` | Project 3/threads/synch.c:71-118 | the waiter at index k sleeps through k ups and is made ready by the next |
| `SchedulerRuns.BoundedDispatch` | Project 3/threads/thread.c:260-272 | first in, first out: the thread at index k of the ready list is ready through k calls of `schedule` and runs at the next |
| `SchedulerRuns.PicksHighest` | Project 1/thread.c:496-503 | no ready thread outranks the one that `schedule` picks |
| `SchedulerRuns.ClassLaw` | Project 1/thread.c:240-253 | among equal priorities the ready list is first in, first out under every step |
| `SchedulerRuns.BoundedDispatchByPriority` | Project 1/thread.c:312-326 | a ready thread waits for exactly those of its own priority that were ready before it |
| `Kernel.Threads.InsertByPriority` | Project 1/thread.c:249 | the insertion loop puts the thread before the first one of strictly lower priority |
| `Kernel.Threads.Switch` | Project 3/threads/thread.c:584-598 | `schedule` in place, with its assertion on the thread it leaves |
| `Kernel.Threads.ThreadYield` | Project 3/threads/thread.c:332-345 | yielding queues the running thread, unless it is the idle thread, and switches as specified |
| `Kernel.Threads.Down` | Project 3/threads/synch.c:61-76 | one trip through `sema_down` takes a unit or queues and blocks, as specified, keeping all invariants |
| `Kernel.Threads.Up` | Project 3/threads/synch.c:108-121 | `sema_up` in place; the call to `thread_unblock` always meets that function's assertion |
| `ConditionProofs.StepKeeps` | Project 3/threads/synch.c:193-341 | every step keeps each lock's unit in its semaphore or with one thread, and every signal in exactly one place on its way to its waiter |
| `MonitorRuns.MutualExclusion` | Project 3/threads/synch.c:193-239 | after any run at most one thread is between its down and its up on a lock, and the lock's semaphore is then empty |
| `MonitorRuns.LockUnit` | Project 3/threads/synch.c:193-239 | a lock's semaphore value plus the threads between its down and its up is always 1 |
| `MonitorRuns.SignalsAreKept` | Project 3/threads/synch.c:290-305 | a waiter's next test of its semaphore succeeds exactly when it was signalled, also before it slept, and a signalled waiter is never left blocked |
| `MonitorRuns.SignalledAtMostOnce` | Project 3/threads/synch.c:315-325 | no run signals a waiter twice |
| `MonitorRuns.SignalledInOrder` | Project 3/threads/synch.c:315-325 | waiters of a condition are signalled in the order they came |
| `MonitorRuns.WaitReturnsHolding` | Project 3/threads/synch.c:300-304 | `cond_wait` returns only after its signal, holding the lock, alone |
| `MonitorOperations.AcquireReleaseRoundTrip` | Project 3/threads/synch.c:193-239 | acquiring a free lock makes the caller its holder and takes its unit; releasing it then leaves every lock as it was before |
| `MonitorOperations.AcquireTaken` | Project 3/threads/synch.c:193-202 | acquiring a lock that is taken puts the caller to sleep in its semaphore and does not make it the holder |
| `MonitorOperations.TryAcquireTakesIfFree` | Project 3/threads/synch.c:211-223 | trying for a free lock makes the caller its holder, for a taken one changes nothing |
| `MonitorOperations.WaitGivesLockUp` | Project 3/threads/synch.c:290-303 | when `cond_wait` comes to its sleep, its semaphore is last on the condition's list and the lock is free with its unit there |
| `MonitorRuns.HeldListOnlyShrinks` | Project 3/threads/synch.c:334-341 | while a thread holds the lock, however often it is preempted, at most as many signals are sent as the condition had waiters, and the list is what those took off its front |
| `MonitorRuns.BroadcastSignalsAll` | Project 3/threads/synch.c:334-341 | while the lock is held the list is empty exactly when as many signals were sent as there were waiters, and then every waiter has its signal or is in the hands of its signaller |
| `Synch.Monitors.TryLock` | Project 3/threads/synch.c:211-223 | `lock_try_acquire` takes the lock exactly if its semaphore has its unit |
| `Synch.Monitors.Signal` | Project 3/threads/synch.c:315-325 | `cond_signal` in place is the two specified steps, or nothing on an empty list |
| `Synch.Monitors.Broadcast` | Project 3/threads/synch.c:334-341 | run without losing the processor, the loop ends with the list empty and every waiter's semaphore holding its signal (with preemption: `MonitorRuns.BroadcastSignalsAll`) |
| `Alarm.StepKeeps` | Project 1/timer.c:95-111 | every step keeps the list sorted by wake tick, with each sleeper on it once, blocked and in no semaphore |
| `Alarm.ReadiedThread` | Project 1/timer.c:200-208 | the interrupt's loop readies exactly the threads with `wake_tick <= ticks` and touches no other |
| `Alarm.LeftExactly` | Project 1/timer.c:200-208 | what stays on the list is exactly what is not yet due |
| `Alarm.NeverEarly` | Project 1/timer.c:186-209 | a sleeper stays asleep while there was no interrupt or its tick has not come |
| `Alarm.WakesExactly` | Project 1/timer.c:186-209 | a sleeper is readied by interrupt number max(1, wake - ticks) after its insertion and by no other |
| `Alarm.AsksFor` | Project 1/timer.c:95-107 | a thread that asks for n ticks is listed for the tick it read plus n, whatever interrupts come in between |
| `Alarm.Timer.Insert` | Project 1/timer.c:105-107 | the insertion loop puts the sleeper behind every sleeper with the same or an earlier tick |
| `Alarm.Timer.Tick` | Project 1/timer.c:186-209 | the interrupt handler in place advances the clock and readies and removes as specified |
| `Handshake.StepKeeps` | Project 3/Original Files/process.c:54-232 | every step keeps the semaphore equal to the signals sent and not yet taken, and the record true to the child's story |
| `Handshake.ExecReportsLoad` | Project 3/Original Files/process.c:76-90 | under every interleaving `process_execute` gives back the child exactly when the load recorded for it succeeded and -1 exactly when it failed |
| `Handshake.WaitReturnsStatus` | Project 3/Original Files/process.c:141-160 | `process_wait` gives back the status recorded for the child, or -1, and only once the child is gone |
| `HandshakeHistory.ExecReturnsHowItLoaded` | Project 3/Original Files/process.c:76-118 | told by the events of a run: `process_execute` returns only after its child's load has ended, and returns the child if that load succeeded and -1 if it failed |
| `HandshakeHistory.WaitReturnsWhatWasPassed` | Project 3/Original Files/process.c:141-160 | told by the events of a run: `process_wait (c)` returns what c passed to `exit`, or -1 if it never called it |
| `Handshake.StatusReadAtMostOnce` | Project 3/Original Files/process.c:155-158 | no run reads a child's status twice |
| `Handshake.LaterWaitsFail` | Project 3/Original Files/process.c:148-152 | waiting again, or for another process's child, returns -1 at once |
| `Handshake.OnlyTouched` | Project 3/Original Files/process.c:76-160 | no event changes, frees or makes a record other than the one it is said to touch or to create |
| `Handshake.NoUseAfterFree` | Project 3/Original Files/process.c:110-119 | neither child nor parent ever touches a record that has been freed |
| `Handshake.SignalsMeanWhatTheyShould` | Project 3/Original Files/process.c:76-160 | the one semaphore lets `process_execute` through exactly after the load, or the child's death, and `process_wait` exactly after the child's death |
| `Process.Processes.GetChild` | Project 3/Original Files/process.c:35-47 | the search from the tail finds a child exactly if it is on the list |
| `Process.Processes.FinishExecute` | Project 3/Original Files/process.c:83-90 | the end of `process_execute` in place returns and frees as specified |
| `Process.Processes.FinishWait` | Project 3/Original Files/process.c:156-159 | the end of `process_wait` in place returns the status, unlinks and frees as specified |
| `Process.Processes.EndStart` | Project 3/Original Files/process.c:112-118 | the end of `start_process` in place: success adds one unit to the record's semaphore, failure marks it failed, each leaving the rest of the record alone; the record still exists |
| `Elf.ValidatesMeans` | Project 3/userprog/process.c:401-442 | the wrapping 32-bit tests accept exactly the headers whose true, unwrapped regions are as required |
| `Elf.PlacementFits` | Project 3/userprog/process.c:352-373 | no byte count of an accepted header wraps, counts fill whole pages that cover the region, and pages stay at or below PHYS_BASE |
| `LazyLoading.ElfBytes` | Project 3/userprog/process.c:458-488 | every accepted header puts file bytes p_offset to p_offset+p_filesz at p_vaddr and zeros up to p_memsz, writable exactly if the segment is |
| `LazyLoading.ElfSegmentLoads` | Project 3/userprog/process.c:458-488 | an accepted header meets the loader's assertions and its pages do not clash with each other |
| `Loader.LazyLoader.LoadSegment` | Project 3/userprog/process.c:458-488 | the lazy loop enters every page of the segment exactly when none clashes, else the pages before the first clash |
| `Loader.EagerLoader.LoadSegment` | Project 3/Original Files/process.c:529-572 | the eager loop succeeds exactly when no page clashes, the pool suffices, the file is long enough and each page can be installed, and builds the segment's image; otherwise the image is the segment's up to the first page that could not be built |
| `LazyLoading.LazyRefinesEager` | Project 3/vm/page.c:194-229 | whenever the eager loop would succeed, after any run a page of the lazily entered segment that the process has not stored to holds byte for byte, and with the same permission, what the eager loop leaves in its image |
| `LazyLoading.EveryPageFitsIff` | Project 3/vm/page.c:194-229 | the file range of every page exists if and only if the file is as long as the header says |
| `FaultingIn.FaultServedIff` | Project 3/userprog/exception.c:160-180 | after any run, a fault at an absent page of the segment is served if and only if its address is a user address above USER_VADDR_BOTTOM, the page's file range exists and the mapping fits |
| `FaultingIn.EveryPageLoadsIff` | Project 3/userprog/exception.c:160-180 | after any run that leaves them absent, every page of a segment can be faulted in if and only if the file is as long as the header says and all pages are user pages not below USER_VADDR_BOTTOM |
| `FaultingIn.EveryPageOfElfLoadsIff` | Project 3/userprog/process.c:401-442 | after any run that leaves them absent, every page of an accepted header can be faulted in if and only if its file part is in the file and p_vaddr is at least USER_VADDR_BOTTOM |
| `FaultingIn.LowSegmentRefused` | Project 3/userprog/exception.c:160-180 | the accepted header with p_vaddr 0x1000 and a file with all its bytes: the eager loop would load it, but once it is entered lazily every fault at its page kills the process and every system call's check of it fails |
| `ArgStack.BothDecode` | Project 3/userprog/process.c:503-555 | both string layouts are read back as exactly the token list from the same 4-aligned stack pointer |
| `ArgStack.BlockDecodes` | Project 3/Original Files/process.c:620-635 | any stack of strings, padding, vector, argv, argc and return address whose pointers lead to the strings is read back as the tokens |
| `ArgStack.LittleEndian` | Project 3/Original Files/process.c:649-657 | a pushed word lies in memory with its least significant byte lowest |
| `ArgStack.BlockWords` | Project 3/Original Files/process.c:626-635 | return address 0, argc, argv, the vector's pointers and its null lie at the stack pointer's offsets 0, 4, 8, 12 and on |
| `ArgBuilders.StackPage.PushArgs` | Project 3/Original Files/process.c:599-635 | the right-to-left builder succeeds exactly when everything fits in the page, and then what `main` reads is the token list |
| `ArgBuilders.StackPage.PushWord` | Project 3/Original Files/process.c:649-657 | a word's bytes are pushed, or refused exactly when the page has no room |
| `ArgBuilders.StackPage.SetupStack` | Project 3/userprog/process.c:503-555 | the left-to-right builder, its doubling vector included, leaves a stack from which `main` reads the token list |

## Left out

- ArgBuilders.StackPage.SetupStack: requires the arguments to fit in the stack page, because the code tests no bound and would write below the page.
- PagingRuns.Transparent: speaks of the first `read_bytes` bytes of a mapped page; the rest of its last page is not kept by the code.
- PagingRuns.StepKeeps: stack growth that collides with an entry is not a step of a run, because the invariant ends there; `GrowthCollision` says exactly when that is and what the end of the process makes of it.
- GrowthCollision.ExitConservesIff: the new entry that `hash_insert` refused, which stays pinned and on no table, is not modelled, nor are evictions between the collision and the end of the process.
- PagingProofs.GrowStackInv: the bytes of a new stack page are whatever its frame held, because the code does not clear it.
- Vm.Pager.EvictFrame: does not model `file_lock`; `load` holds it while `setup_stack` may evict (process.c:300-393), and a dirty mapped victim then trips the assertion of `lock_acquire` (frame.c:132).
- MmapRuns.MunmapAfterRun: removes the whole list at one moment; `MmapRuns.UnmapLasts` has other steps between the rounds.
- Synch.Monitors.Broadcast: the method is not preempted between its signals; `MonitorRuns` proves the same of preemptible runs.
- Loader.LazyLoader.LoadSegment: no `malloc` fails; one that does ends the loop where a clash would.
- LazyLoading.LazyRefinesEager: assumes no mapping is backed by the executable, because executables are write-denied while they run.
- MmapSpec.MappingReadsFile: requires a file that backs no other entry; a file mapped twice or mapped while it is an executable is outside the flat-memory theorems.
- Handshake.StepKeeps: a process exits with no child on its list; the sweep over orphans starts at the list's tail sentinel, so nothing is claimed across a parent's exit.
- Handshake.SignalsMeanWhatTheyShould: models the record's semaphore by its value; `Scheduler` has the waiters and shows that a down goes through just when the value is positive.
- Eviction and loading are atomic, as under the frame lock; preemption between swap-out and clearing the mapping is not modelled.
- Supplemental entries are found by process and page in one map; aliasing of entry pointers is not modelled.
- Semaphores, locks and threads are named by numbers in maps; their memory and its reuse are not modelled.
- Semaphore values, thread ids, mapids and ticks are unbounded integers.
- A machine without a swap device, on which `swap_in` does nothing and `swap_out` panics.
- Failures of `malloc` elsewhere than in `mmap`: those of `stack_growth` and of thread creation come before anything was changed, and `add_frame_to_tbl` does not test for one.
- `lock_list` and `release_locks`: the list is never initialised and mixes two list elements.
- The `child_process` variant of wait and exit in userprog/process.c and syscall.c, whose fields are partly missing.
- The argument tokenizer, file descriptors, console and keyboard, `printf`.
- Page directories, page allocator, block device, file system, hash table and list internals.
- Thread switching, interrupt frames, start-up of the idle thread and the busy-wait delays of the timer.
- `check_valid_string` and `unpin_string`, whose loops are those of the buffer checks with another end.
