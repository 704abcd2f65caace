# snow-os kernel: a model and its proofs

This project models the memory and process core of the snow-os kernel and proves what that core
keeps over every run. It is plain Dafny 4.11 in the files next to this one;
`dafny verify dfyconfig.toml` checks all of it.

**Physical memory and page tables.** `Ram.dfy` is physical memory as pages of 512 words,
`Frames.dfy` the frame allocator with its intrusive free list, and `Paging.dfy` the class that
builds, walks, unmaps and copies four-level page tables in that memory, loop by loop as
`sys/paging.c` does. A ghost label on every frame (free, table of a given level and place, user
page, kernel heap) makes "tables form a forest and are pairwise distinct" a local condition
(`PageTables.dfy`); `Mapping.dfy` turns it into a finite map from virtual page to word,
`CowFork.dfy` carries the four nested loops of `cow_page_tables`, and `KernelHalf.dfy`,
`KernelHeap.dfy` and `Boot.dfy` are about the direct map, `kmalloc` and `init_paging`.
`BitLayout.dfy` connects the words with their 64 bits, and `OpenPaths.dfy` is about the flags of the entries
above the leaves, which the hardware asks as well.

**Copy-on-write.** `Cow.dfy` is the machine one level up: which user pages are backed by which
frames, what the frames hold, how often they are counted. It is compared with a machine that copies
every page at fork. `UserMemory.dfy` proves that whatever the kernel does to user pages (mapping, forking,
faults, stores, new spaces and exits) is a step of this machine, and that its own allocations are none;
`Session.dfy` keeps the trace of what was done to the tables, from power-on, so the results about runs hold
of the tables in memory. Unmapping is outside: only `kfree` does it, and never to a user page.

**Processes.** `ProcessTable.dfy` has the steps on values, `ProcessInvariants.dfy`, `Parentage.dfy` and
`Waiting.dfy` what they keep over all runs, and `Scheduler.dfy` the linked ring of structures with
methods proved to perform exactly those steps. `Lifecycle.dfy` says what becomes of a process from fork to
reaping. `Context.dfy` and `Interleaving.dfy` are the register
frames of `switch_to`. `OperatingSystem.dfy` puts the ring and the memory together, every process with an
address space of its own, and `Computer.dfy` adds the registers.

**Around them.** `UserHeap.dfy` has `user_malloc`, stack growth and the page-fault handler as a whole,
`StackGrowth.dfy` the stack over whole sequences of faults,
`UserBytes.dfy` user memory byte by byte, `ElfImage.dfy` and `ElfLoader.dfy` the program loader on the page
tables, `Tar.dfy` and `Numbers.dfy` the archive walk and its number parsing,
`Reads.dfy` reading through a descriptor.

## Where the code falls short

Each of these is proved, with the exact condition under which the code is right where there is one.

- Reference counts stop at two. A fork is safe exactly when no page of the parent is shared already
  (`Cow.ForkSafeIff`, and `Cow.ForkAfterRunIff` for any point of a run). A second fork is unsafe for as long
  as one page has been faulted on neither by the parent nor by the first child and that child lives
  (`Cow.SecondForkUnsafe`); if the parent forked nobody else meanwhile, it is safe once the child has exited
  (`Cow.ForkExitForkSafe`).
- The kernel stores through the copy-on-write mark, for instance when `read` fills a buffer. Such a store is
  right exactly when no other page has the frame (`Cow.KernelStoreSafeIff`, `Cow.KernelStoreLeaks`).
- `kfree` keeps the allocator's books in order exactly when it releases nothing
  (`Paging.AddressSpaces.Kfree`). It never releases a user page, but it does release a free frame reached
  through the direct map (`KernelHalf.FreeFramePassesGuard`), which makes the free list endless.
- The direct map ends before memory does, because the loop that builds it shrinks its own bound; which pages
  are mapped is stated exactly (`Paging.AddressSpaces.InitPaging`).
- A process that kills itself goes on running as a zombie. A fork keeps parentage in order exactly when
  the caller is not such a zombie (`Parentage.ForkParentedIff`, `Parentage.SelfKillThenFork`).
- `getPID` answers -1 when 999 processes exist, and fork goes on (`ProcessInvariants.ForkAgreesIff`).
- `create_process` drops everybody but the caller from the ring; it is right exactly when nobody else is
  there (`ProcessInvariants.CreateAgreesIff`).
- `init_physical_memory` sets up a list exactly when the free memory starts on a page boundary
  (`Frames.FrameAllocator.constructor`).
- The loader maps one page too many per segment. It loads everything right exactly when every byte agrees
  with what maps its page last (`ElfImage.AllLoadedIff`), which ascending order guarantees
  (`ElfImage.WellFormedIsConsistent`) and descending order does not (`ElfImage.DescendingOrderLoses`).
- The archive walk overshoots exactly after non-empty files whose size is a multiple of 512
  (`Tar.StepExactIff`, `Tar.MoveOn`), and takes symbolic links for regular files (`Tar.LooksRegularIff`).
- `atoi` undoes `itoa` exactly up to 2^31 - 49 (`Numbers.RoundTripIff`).
- Reads stop at the first 0 or 0xFF and know nothing of the file's size. Which files are delivered whole is
  `Reads.ArchiveWholeIff`; an empty file, or one that fills its last block, is read on into the next header
  (`Reads.ReadsRunOn`).
- A fault anywhere below the stack maps fresh pages all the way down. Every mapping stays exactly when no page
  in between was mapped (`UserHeap.FreshRangeKeepsIff`), and all that was seen stays exactly when what was
  mapped there was zero (`UserHeap.FreshRangeSeenIff`).
- The stack's limit is looked at before it grows, so a fault that extends it leaves it within the limit exactly
  when the fault's page is (`StackGrowth.WithinAfterIff`); the first fault alone can go past it
  (`StackGrowth.OneFaultPastLimit`).

## Model

| member | source | states |
|---|---|---|
| Frames.FrameAllocator.constructor | sys/physical_memory.c:33-50 | The books are in order after init, over the frames from physfree to the end of memory, if and only if physfree is page aligned; then the list is those frames in ascending order. Otherwise the list stays empty. |
| Frames.FrameAllocator.GetFreePage | sys/physical_memory.c:56-66 | Hands out the head of the list counted once, or 0 with nothing changed when fewer than ten frames remain. |
| Frames.FrameAllocator.AddBackFreePage | sys/physical_memory.c:78-88 | For any frame: the new list head, descriptor and counter; the books stay in order if and only if the frame was owned. |
| Frames.FrameAllocator.SetRefCount | sys/physical_memory.c:23-31 | Changes one frame's count and nothing else. |
| Frames.FrameAllocator.FreePagesCount | sys/physical_memory.c:52-54 | The difference of the counters is the length of the list. |
| Frames.RunConserves | sys/physical_memory.c:33-88 | Over every sequence of takes and owned give-backs the list is duplicate-free, as long as the counters say, and free and owned frames partition the managed range. |
| Frames.ConservedMeans | sys/physical_memory.c:56-88 | Conservation frame by frame: no frame twice on the list, and none both free and owned. |
| Frames.PopThreaded | sys/physical_memory.c:56-66 | Taking the head of a threaded, NULL-terminated list leaves its tail threaded from the next link. |
| Frames.PushThreaded | sys/physical_memory.c:78-88 | Linking an unlisted frame in front keeps the list threaded, acyclic and terminated. |
| Frames.GiveBackIff | sys/physical_memory.c:78-88 | Some pool over the managed frames is represented after giving p back, if and only if p was owned. |
| Frames.ListNeverEnds | sys/physical_memory.c:78-88 | Giving back a frame that is on the list closes the list to a ring: no finite list is threaded from the head any more. |
| Frames.ReleaseBreaksBooks | sys/paging.c:268-269 | After the two counter updates of kfree's release branch no pool at all is represented, whichever frame was released. |
| Frames.FrameAllocator.Release | sys/paging.c:268-269 | The release branch on the allocator: books out of order; a listed frame leaves an endless list, any other is the new head. |
| PageTables.WalkRoles | sys/paging.c:162-193 | Every table met on a walk below a root is the one labelled with that root and those indices, so distinct places have distinct tables. |
| PageTables.LeafWrite | sys/paging.c:91-92 | Writing one leaf entry changes the translation of that page in that table only. |
| PageTables.LinkKeepsForest | sys/paging.c:16-49 | Hanging a zeroed free frame below an absent entry keeps the tables a forest. |
| PageTables.LinkKeepsLeaf | sys/paging.c:16-49 | Building or re-flagging an intermediate table changes no translation anywhere. |
| Paging.AddressSpaces.EnsureTable | sys/paging.c:16-49 | One level of the descent: the entry leads to its table afterwards, existing children stay, one frame is spent when there was none. |
| Paging.AddressSpaces.Descend | sys/paging.c:59-88 | The three levels exist afterwards and the three entries on the way carry the given flags; no other entry of any page and no translation of any space has changed, and exactly the missing tables were paid for. |
| Paging.AddressSpaces.MapPage | sys/paging.c:59-93 | update_page_tables is a finite-map update: the page translates to the address and flags, every other page of every space is unchanged. Entry by entry, exactly four are written: three that lead down and the leaf, all with the flags given. |
| OpenPaths.PathOpen | sys/paging.c:74-91 | In every state with the invariant, the entries at the three upper levels on the way to a user page are exactly present, writable and user, and the leaf, if present, is user. |
| OpenPaths.MapKeepsOpen | sys/paging.c:74-92 | Mapping a user page read-write, or any kernel page, keeps that invariant for every space. |
| OpenPaths.SameWay | sys/paging.c:282-296 | After fork the child's entries on the way to a page carry the same flags as its parent's. |
| OpenPaths.LeafDecides | sys/paging.c:74-92 | Ring 3 passes all four levels to write a user page if and only if the leaf is present and writable. |
| Paging.AddressSpaces.WalkPageTable | sys/paging.c:162-193 | Returns the frame the map holds for the page, 0 where a table is missing. |
| Paging.AddressSpaces.GetFlags | sys/paging.c:195-226 | Returns the flags the map holds for the page. |
| Paging.AddressSpaces.RemovePageTableMapping | sys/paging.c:228-259 | The matching delete: that page is unmapped, every other translation is kept. |
| Mapping.RemoveUndoesMap | sys/paging.c:59-93 | Removing what was just mapped over nothing gives back the translations from before, for every space and page. |
| UserMemory.UserMapped | sys/paging.c:59-93 | Mapping a user page changes the one space only: no other root reaches that table. |
| BitLayout.Constants | include/sys/paging.h:6-7 | The flag constants 3 and 7 decode to present, writable and user as the model names them. |
| BitLayout.EntryBuilt | sys/paging.c:88-92 | address OR flags decodes to that frame and those flags, and the two masks take it apart again. |
| BitLayout.CowBits | sys/paging.c:298-305 | Clearing the write bit and setting bit 9 decodes to the same frame, read-only and marked copy-on-write, other flags kept. |
| BitLayout.Tests | sys/interrupt.c:28-30 | The bit tests for present and copy-on-write agree with the decoded word. |
| Paging.AddressSpaces.constructor | sys/physical_memory.c:33-50 | With the free pages zero, the state before init_paging satisfies the invariant. |
| Paging.AddressSpaces.InitPaging | sys/paging.c:112-124 | After boot a page of the direct map, from the kernel image up, is mapped if and only if it lies below the point where the loop stopped, and then to itself; that point is past every frame taken so far and before the end of memory; at most six frames and one per 512 pages were spent; the video page is mapped, no user page exists. |
| Session.PowerOn | sys/paging.c:112-124 | From init_physical_memory through init_paging to a working machine: empty trace, no user page, and all but fifteen and two per 512 pages of the free frames can be taken. |
| Paging.AddressSpaces.MapDirectly | sys/paging.c:118-122 | The loop with the shrinking bound ends before the end of memory, having mapped lo up to p to themselves, and p lies past every frame the tables took. |
| Paging.AddressSpaces.SetupUserPageTables | sys/paging.c:51-57 | The new root has no user page and shares slot 511 with the running space. |
| KernelHalf.MappingKeepsHalf | sys/paging.c:59-93 | Mapping user pages, or kernel pages to themselves, keeps the direct map in every space. |
| KernelHalf.ForkKeepsHalf | sys/paging.c:274-278 | Fork keeps the direct map in every space and gives it to the child. |
| KernelHalf.SameHalf | sys/paging.c:51-57 | Roots that agree in slot 511 translate every kernel address alike. |
| Addresses.PageOfInjective | sys/paging.c:60-66 | The four 9-bit indices identify a page. |
| Addresses.KernelPageInjective | sys/paging.c:114-122 | The direct map sends different frames to different pages. |
| Paging.AddressSpaces.Kmalloc | sys/paging.c:140-160 | The block is consecutive fresh frames seen at their place in the direct map, large enough for the request; no process can see the difference. |
| Paging.AddressSpaces.KmallocPage | sys/paging.c:149-158 | Each turn appends the next frame, which is the next in address order, and remaps it to itself. |
| KernelHeap.RemapIsInvisible | sys/paging.c:157-157 | Mapping a page of the direct map to itself once more changes nothing in any space. |
| KernelHeap.BlockMapped | sys/paging.c:140-160 | Each page of a block translates, in every space, to the frame its address names, which was free before. |
| KernelHeap.PagesFor | sys/paging.c:143-147 | The number of pages is the least that holds the request. |
| Paging.AddressSpaces.Kfree | sys/paging.c:262-272 | kfree releases exactly frames that are named by the walk and counted zero times, which are free or reserved and never a user page; the books stay in order if and only if it does not release; otherwise the page is cleared, unmapped, and the list is endless (a free frame) or starts in the kernel image (a reserved one). |
| KernelHalf.FreeFramePassesGuard | sys/paging.c:262-266 | The direct-map page of a free frame passes the guard in every space, so kfree of that address reaches the release branch. |
| Paging.AddressSpaces.CowPageTables | sys/paging.c:274-318 | The child translates every user page to the parent's frame; present leaves of both are read-only and marked; counts of the frames met go from 1 to 2; everything else in every space is kept, and every way to a user page stays open. |
| Paging.AddressSpaces.CopySlots | sys/paging.c:279-316 | Outer loop: after slot i the user pages of slots below i are shared and no others, at exactly the cost of the tables found. |
| Paging.AddressSpaces.CopyDirectories | sys/paging.c:285-314 | Second loop: the same, one level down. |
| Paging.AddressSpaces.CopyDirectory | sys/paging.c:291-312 | Third loop: the same for the page tables of one directory. |
| Paging.AddressSpaces.CopyPageTable | sys/paging.c:297-310 | Inner loop: both page tables and the counts after 512 words, as functions of the parent's table. |
| Paging.AddressSpaces.ShareWord | sys/paging.c:298-309 | One word: both entries and the count it touches. |
| CowFork.ChildTablesFresh | sys/paging.c:274-318 | Every table of the child was free before, and no other space has it on any path. |
| CowFork.CopyEnds | sys/paging.c:279-316 | When the loops are through, every user page has been met and shared. |
| CowFork.TableCopyAdvances | sys/paging.c:297-310 | Copying one page table moves the boundary between shared and untouched pages on by that table, with the counts of repeated frames right. |
| Paging.AddressSpaces.ForkSpace | sys/paging.c:274-318 | On the tables in memory, cow_page_tables is the machine's Fork step. |
| Paging.AddressSpaces.NewUserSpace | sys/paging.c:51-57 | On the tables in memory, setup_user_page_tables is the machine's NewSpace step. |
| Paging.AddressSpaces.MapFreshPage | sys/process.c:188-189 | Mapping a page from get_free_page is the machine's MapFresh step: a zero page counted once. |
| Paging.AddressSpaces.CowFault | sys/interrupt.c:28-44 | A fault on a marked page is the machine's WriteFault step and keeps the sharing invariant; a free frame is needed only where the page is copied; any other fault is passed on untouched. |
| Paging.AddressSpaces.CopyFaultingPage | sys/interrupt.c:33-38 | Count two: the page moves to a fresh copy, the old frame is counted once, the direct map stays. |
| Paging.AddressSpaces.ReclaimFaultingPage | sys/interrupt.c:39-41 | Count one: the frame stays and becomes writable. |
| Paging.AddressSpaces.SetCr3 | sys/paging.c:101-103 | Switching to another live root changes which space runs and nothing any process sees. |
| Paging.AddressSpaces.StoreWord | sys/interrupt.c:28-44 | A store goes through if and only if all four levels permit it, which is if and only if the leaf does; then it is the machine's Store step, otherwise nothing changes. |
| Paging.AddressSpaces.KernelStoreWord | sys/tarfs.c:114-120 | A store by the kernel into a user page goes through wherever the page is present, and is the machine's KernelStore step. |
| Paging.AddressSpaces.ForgetSpace | sys/process.c:576-596 | Dropping a space's root is the machine's Exit step: nothing is reclaimed. |
| UserMemory.ForkRefines | sys/paging.c:274-318 | The relation cow_page_tables establishes between two states of memory is the Fork step on what processes see. |
| UserMemory.FaultCopyRefines | sys/interrupt.c:33-38 | kmalloc, memcpy, remap and recount together are one WriteFault step. |
| UserMemory.AllottedInvisible | sys/paging.c:140-160 | Kernel allocation is invisible to every process. |
| Cow.RunRefines | sys/paging.c:274-318 | Main theorem: along every run in which each fork finds the parent's pages and each kernel store its page unshared, all processes see what they would see had fork copied every page. |
| Cow.StepRefines | sys/interrupt.c:28-44 | Every single step looks as in the eager machine, kernel stores where the page is unshared; in particular a write fault changes nobody's view and a store only the writer's. |
| Cow.KernelStoreSafeIff | sys/syscalls.c:75-79 | A store by the kernel looks as it should for every word and index if and only if no other page has the frame. |
| Cow.KernelStoreLeaks | sys/syscalls.c:75-79 | After a fork, what the kernel stores into an untouched page of the child appears in the parent. |
| Cow.StepKeepsSharing | sys/paging.c:298-305 | Sharing invariant: counts are 1 or 2, no frame has more mappers than its count, a writable page is its frame's only mapper; every step keeps it. |
| Cow.ForkKeepsSharingIff | sys/paging.c:298-305 | Fork keeps the sharing invariant exactly when no page of the parent is shared. |
| Cow.ForkSafeIff | sys/paging.c:298-305 | Copy-on-write stays invisible in everything that can follow a fork exactly when no page of the parent was shared before it. |
| Cow.ForkAfterRunIff | sys/paging.c:298-305 | At the end of any legal run, fork is safe if and only if no page of the parent is shared there. |
| Cow.SecondForkUnsafe | sys/paging.c:303-305 | After a fork and any legal run that faults on some page of the parent neither in the parent nor in the child and does not end either, a second fork of the parent is unsafe. |
| Cow.ForkExitForkSafe | sys/paging.c:303-305 | Fork, then any legal run without another fork or exit by the parent, then the child's exit: forking again is safe, whichever pages were touched. |
| Cow.RunKeepsOnlyWith | sys/paging.c:298-305 | Along such a run whoever shares a page of the parent is a page of that child. |
| Session.Machine.Seen | sys/paging.c:274-318 | On the tables in memory, after any sequence of the operations below, every process sees what the eager machine shows for the recorded trace. |
| Session.Machine.Store | sys/interrupt.c:28-44 | A store instruction on the tables: it goes through at once or after one resolved fault, or the page is not mapped; the trace grows by exactly those events. |
| Session.Machine.Fork | sys/paging.c:274-318 | fork on the tables, where no page of the caller is shared, extends the trace by the Fork event. |
| Cow.ThirdSharerLeaks | sys/interrupt.c:33-41 | Three sharers counted twice: two faults and a store let one process see another's store. |
| Cow.StoreGoesThrough | sys/interrupt.c:28-44 | A store to a mapped page succeeds at once or after one fault that nobody can see. |
| UserHeap.Regions.UserMalloc | sys/process.c:172-193 | The result is the old end of the heap; the new region covers the request and less than a page more; every page of it has a fresh zero frame of its own, no other page changes; if every heap page had a frame of its own before, so it has after. Needs the frames of the pages and of the tables that are missing, no more. |
| UserHeap.BackedGrows | sys/process.c:187-190 | A fresh range above backed pages keeps them backed, each by its own frame; a range right behind them joins them. |
| UserHeap.TilesDisjoint | sys/process.c:173-186 | Regions of a tiled heap do not overlap. |
| UserHeap.TilesCover | sys/process.c:173-186 | Every address from HEAP_START to the end of the heap lies in a region. |
| UserHeap.Regions.constructor | sys/elf64.c:65-95 | The heap starts as one tile at HEAP_START, the stack as one page. |
| UserHeap.MapRange | sys/process.c:187-190 | The mapping loop maps fresh, distinct, zero frames over the range, within a budget that counts each missing table once. |
| UserHeap.NextMissing | sys/process.c:187-190 | After one page is mapped the next lacks only the tables its index carries demand. |
| UserHeap.PageCost | sys/process.c:187-190 | What a page still lacks once the pages before it are mapped. |
| UserHeap.Regions.GrowStack | sys/interrupt.c:51-55 | The stack ends at the faulting page, every page down to it has a fresh frame, and no other page changes. |
| UserHeap.FreshRangeKeepsIff | sys/interrupt.c:51-55 | Growing over a range leaves every mapping in place if and only if no page of the range was mapped. |
| UserHeap.FreshRangeSeenIff | sys/interrupt.c:51-55 | It leaves all that was seen in place if and only if what was mapped in the range was zero. |
| UserHeap.Regions.PageFault | sys/interrupt.c:21-60 | The handler's three outcomes, and what each does to memory and stack: a marked page is a copy-on-write fault; otherwise a fault in the stack's last page or below extends a stack of at most 4096000 bytes, and any other is a segmentation fault that changes nothing. Sharing is kept, and so is the backing of the heap unless the stack grows into it. Frames are needed only by the outcome that takes them. |
| StackGrowth.GrowsWithin | sys/interrupt.c:49-55 | After any sequence of faults from the loader's bounds, a fault at the stack's last page or below extends it if and only if the stack has at most 1000 pages, and is a segmentation fault otherwise. |
| StackGrowth.PageByPage | sys/interrupt.c:49-59 | Faults each in the page right below the stack: the first thousand extend it by one page each, every one after that is a segmentation fault. |
| StackGrowth.PastLimit | sys/interrupt.c:50-59 | Once the stack has more pages, every fault on an unmarked page is a segmentation fault and its bounds stay. |
| StackGrowth.WithinAfterIff | sys/interrupt.c:50-55 | After a fault that extends it, the stack is within the limit if and only if the fault's page is. |
| StackGrowth.OneFaultPastLimit | sys/interrupt.c:50-55 | A program's first fault, at address 0, extends the stack from its start to address 0. |
| ProcessTable.LeastFree | sys/process.c:30-38 | The least free number from i on, or -1 only when all are taken. |
| Scheduler.Kernel.constructor | sys/process.c:96-120 | The idle process alone, running, linked to itself. |
| Scheduler.Kernel.GetPid | sys/process.c:30-38 | The loop finds and marks the least free number. |
| Scheduler.Kernel.CreateProcess | sys/process.c:122-170 | The new process and the running one are linked to each other and nobody else is in the ring any more. |
| Scheduler.BootSteps | sys/process.c:96-170 | create_process on the idle process alone leads to the table the runs start from. |
| Scheduler.Kernel.ForkProcess | sys/process.c:323-331 | On the linked ring, the child goes in right behind its parent and the ring stays one cycle. |
| Scheduler.Kernel.ExecProcess | sys/process.c:409-456 | On the linked ring, the new structure takes the old one's place, number and parent, and runs. |
| Scheduler.Kernel.HandOver | sys/process.c:80-89 | The process left is queued, or stays a zombie, with the number and parent it had; the candidate runs. |
| Scheduler.Kernel.ReapProcess | sys/process.c:576-596 | On the linked ring, exactly that process is unlinked and its number freed. |
| Scheduler.Kernel.WaitAll | sys/process.c:481-493 | The loop ends, having reaped every other zombie. |
| Scheduler.Kernel.SwitchProcess | sys/process.c:66-94 | The search and hand-over on the linked ring are the step Switch, with its four outcomes; with nobody queued a shell is created. |
| Scheduler.Kernel.Schedule | sys/process.c:61-64 | From a state that satisfies the invariant, it switches, or is alone and running; the invariant holds again. |
| Scheduler.Kernel.KillProcess | sys/process.c:598-618 | Children of the running process go to the idle process, it becomes a zombie; alone, nothing happens. |
| Scheduler.Kernel.KillKernel | sys/process.c:620-657 | Only the running process can be killed, never number 1 and never when alone; -1 otherwise. |
| Scheduler.Kernel.ExitCurrentProcess | sys/process.c:659-662 | Kill followed by the scheduler, invariant kept. |
| Scheduler.Kernel.WaitScan | sys/process.c:495-521 | One pass of wait: the first zombie child is reaped, or none exists and the answer says whether a child does. |
| ProcessInvariants.RunKeepsInv | sys/process.c:30-38 | In every reachable state ring PIDs are distinct, the number table holds exactly them, only the head of the ring can be running, and the idle process is alive. |
| ProcessInvariants.StepKeepsInv | sys/process.c:61-94 | Each step keeps that invariant. |
| ProcessInvariants.BootInv | sys/process.c:96-170 | The boot table satisfies it. |
| ProcessInvariants.ForkAgreesIff | sys/process.c:323-331 | Fork keeps ring and number table in agreement exactly while fewer than 999 processes exist. |
| ProcessInvariants.CreateAgreesIff | sys/process.c:166-167 | create_process keeps ring and number table in agreement if and only if the ring had one process. |
| ProcessInvariants.FreePidIff | sys/process.c:30-38 | A free number exists exactly while fewer than 999 processes do. |
| ProcessInvariants.WaitAllRing | sys/process.c:481-493 | wait_all removes exactly the other zombies and keeps everyone else in order. |
| ProcessInvariants.ScheduleTurns | sys/process.c:61-94 | The scheduler picks the immediate successor; the "no process found" branch and the bad-state branch are unreachable from it. |
| Parentage.RunParented | sys/process.c:598-618 | In every state reached without a zombie forking, everyone's parent is nobody, the idle process, or a live ring member. |
| Parentage.ForkParentedIff | sys/process.c:245-251 | Fork keeps that exactly when the caller is not a zombie. |
| Parentage.ZombieHasNoChildren | sys/process.c:576-592 | Nobody in the ring has a zombie's number as parent. |
| Parentage.NewNumberHasNoChildren | sys/process.c:245-251 | The number fork gives out, used before or not, is nobody's parent number: a reused number inherits no children. |
| Parentage.SelfKillThenFork | sys/process.c:620-657 | The run yield, kill(2), fork from boot ends with a zombie that has a child. |
| Lifecycle.ForkPlaces | sys/process.c:250-332 | The child is right behind its caller, queued, with the caller's number as parent and a number nobody has; everyone else is as before. |
| Lifecycle.ExecPlaces | sys/process.c:409-454 | Exec leaves everyone's number and parent and all the other processes alone; its caller runs. |
| Lifecycle.ExecKeepsFamily | sys/process.c:411-411 | Who is whose child, who among the others is a zombie and whom the caller can reap are the same before and after exec. |
| Lifecycle.KillHandsOver | sys/process.c:598-615 | The killed process is a zombie with the number and parent it had, its children's parent is 1, and nothing else changes. |
| Lifecycle.KillByNumber | sys/process.c:620-657 | kill(pid) kills the running process if it is pid and not number 1, and changes nothing otherwise. |
| Lifecycle.CallerGoesLast | sys/process.c:61-94 | The scheduler puts its caller at the end of the ring with number and parent kept, queued if it ran, a zombie if it was one; it runs on only when alone. |
| Lifecycle.ExitLeavesZombie | sys/process.c:659-662 | After exit the process is in the ring as a zombie with its number and parent, and another one runs. |
| Lifecycle.ZombieRun | sys/process.c:61-94 | Over every legal run a zombie stays one until it is reaped or executes. |
| Lifecycle.ExitFrees | sys/process.c:481-493 | After exit, whatever happens until the scheduler is called again, that call leaves the number free, unless wait reaped the process before. |
| Waiting.StepPlace | sys/process.c:61-94 | A scheduler call takes at least one off the distance to a queued process, fork adds exactly one, exec nothing, and no other step adds anything. |
| Waiting.WaitingIsBounded | sys/process.c:61-94 | While a process keeps waiting, scheduler calls number fewer than its place plus the forks. |
| Context.PopsUndoPushes | sys/kthread.s:43-83 | The pops read back exactly the registers the pushes stored. |
| Context.Task.ForProgram | sys/process.c:122-126 | The frame of a new process has the shape the pops expect and returns into go_to_ring3. |
| Context.Cpu.SwitchTo | sys/kthread.s:43-83 | The old task's stack with the pushed frame and nothing else changed; registers, stack pointer and address as popped from the next task's stack, which is what it was suspended with. |
| Context.Cpu.FindReturn | sys/process.c:338-348 | fork's search finds the first copy of its return address on the child's stack. |
| Context.Cpu.SetUpForkedStack | sys/kthread.s:23-41 | The child is suspended with the parent's registers, rax = 0, at that return address. |
| Context.Cpu.ForkStack | sys/process.c:334-347 | The stack part of fork as a whole: the child is suspended at fork's return address with the caller's registers, rax = 0, on a copy of the caller's stack from there up. |
| Interleaving.SwitchAwayAndBack | sys/kthread.s:43-83 | However other tasks run and switch in between, a task resumes with exactly the registers, return address, stack pointer and stack contents it left with. |
| Interleaving.RunKeeps | sys/kthread.s:43-83 | Over any interleaving every suspended task's frame stays what it was when that task was left. |
| Interleaving.SwitchTask | sys/kthread.s:43-83 | switch_to on the machine's own stacks and structures is the Switch step of the interleaving. |
| OperatingSystem.System.Fork | sys/process.c:323-331 | The ring and the memory together: the child has the next free number and a copied space of its own. |
| OperatingSystem.System.Exec | sys/process.c:429-456 | The caller keeps its number and place, gets an empty space, and CR3 is that space's; the old one is given up. |
| OperatingSystem.System.Create | sys/process.c:122-170 | From the idle process alone, the new process gets a number and an empty space of its own. |
| OperatingSystem.System.Yield | sys/process.c:61-94 | The scheduler: after it every number in use has the live root it had, a root of its own, and CR3 is the running process's; exactly the reaped processes' spaces were given up, and none of them was in CR3. |
| OperatingSystem.System.Exit | sys/process.c:659-662 | The same for exit, with the ring after it. |
| OperatingSystem.System.Wait | sys/process.c:495-521 | The same for one pass of wait: the first zombie among the caller's children is reaped, its number returned and its space given up; with none, nothing changes and the answer says whether there is a child. |
| OperatingSystem.ExitThenSchedule | sys/process.c:659-662 | Exit and the next scheduler call: the number is free, and the address space that was in CR3 is given up. |
| OperatingSystem.ScheduleSpares | sys/process.c:61-94 | The scheduler reaps neither its caller nor the process that runs next, so no root that is given up is in CR3. |
| Computer.Yield | sys/process.c:61-94 | Ring, memory and registers together: if the scheduler switches, the next process continues with exactly the registers, return address, stack pointer and stack it was left with, in its own space, and what the caller has is noted. |
| Computer.Fork | sys/process.c:323-348 | The child is noted to continue at fork's return address on a copy of the stack with 0 in rax, in a copied space; the ring is that after fork. |
| Computer.Exit | sys/process.c:659-662 | exit hands over in the same way; the ring is that after exit. |
| Computer.Wait | sys/process.c:495-521 | One pass of wait: the first zombie child is reaped, or nothing changes; what everyone else is to continue with stays. |
| Computer.StartUp | sys/process.c:96-170 | From power-on to the first program: all invariants hold, the table is the boot table, and the program waits at its entry. |
| ElfLoader.Loader.LoadFile | sys/elf64.c:10-97 | On the page tables, for segments in any order: every page holds what the segment that mapped it last put there, heap and stack page are zero, all else is as before; all segments are intact if and only if the file is consistent; the regions are one for each loadable segment, in order, with its bounds, flags and type, and the heap, whose page is backed; for consistent files every address of a region is mapped and holds its byte; -1 with nothing changed when there is no such file. |
| ElfLoader.Loader.LoadSegment | sys/elf64.c:26-59 | All pages mapped for a segment hold its bytes and zeros, no other page of the space changes, and the frames taken are bounded; its region goes from its address on for its size in memory, text for flags 5, data for 6. |
| ElfImage.LoadsInOrder | sys/elf64.c:25-26 | The loadable segments are the headers of type 1, all of them, in ascending order. |
| ElfImage.LoadedRegionsHold | sys/elf64.c:28-51 | If the segments are intact, every address of every region holds the file's byte, or zero past the file's part. |
| ElfLoader.Loader.MapSegment | sys/elf64.c:31-38 | The pages from the first to one past the page behind the end are fresh, zero and writable; no other page changes. |
| ElfLoader.Loader.CopySegment | sys/elf64.c:44-44 | Stored byte by byte through the tables, the file part is at its address and the rest of the pages stays zero. |
| ElfLoader.ByteStored | sys/elf64.c:44-44 | One byte stored by the kernel into a page that can be written changes that byte of that page and nothing else the space sees. |
| ElfImage.AllLoadedIff | sys/elf64.c:25-63 | All loadable segments end up intact if and only if each of their bytes agrees with the segment, heap or stack page that mapped its page last. |
| ElfImage.WellFormedIsConsistent | sys/elf64.c:25-63 | Segments in ascending order on pages of their own below the heap are consistent, the spare pages notwithstanding. |
| ElfImage.DescendingOrderLoses | sys/elf64.c:31-38 | A file with two segments on pages of their own in descending order: whatever memory held, the loader leaves a zero where the first segment has a seven. |
| UserBytes.PageByteReplaced | sys/elf64.c:44-44 | Replacing one byte of one 64-bit word replaces exactly that byte of the page. |
| Tar.Lookup | sys/tarfs.c:57-104 | On every well-formed archive whose entries before the answer have exact steps, the walk ends and finds the content of the first entry with that name and type, or nothing when there is none. |
| Tar.MoveOn | sys/tarfs.c:63-75 | The computed position is the next header if and only if the entry is empty or does not end on a block boundary; else it is one block further. |
| Tar.StepExactIff | sys/tarfs.c:71-75 | The step is exact if and only if the file is empty or its size is not a multiple of 512; else it is one block too far. |
| Tar.LooksRegularIff | sys/tarfs.c:66-66 | When type flag and link name, read as one number, pass for type 0. |
| Tar.DirectoryIff | sys/tarfs.c:91-91 | Without a link name, 5 is a directory and nothing else is. |
| Tar.SameString | sys/string.c:19-25 | The comparison loop answers 0 exactly for equal strings. |
| Numbers.Atoi | sys/string.c:27-47 | The loop reads sign and digits: the number, 0 for text that is not one, and no meaning when an intermediate result leaves int. |
| Numbers.SignsAndJunk | sys/string.c:27-47 | A plus sign changes nothing, a minus sign negates, and anything but a digit before the terminator gives 0. |
| Numbers.Itoa | sys/string.c:49-78 | Writes exactly sign, decimal digits and terminator, and touches no other byte. |
| Numbers.Decimal | sys/string.c:49-78 | The decimal text has only digits, at least one, and starts with 0 only for 0. |
| Numbers.RoundTripIff | sys/string.c:27-78 | atoi undoes itoa if and only if the magnitude is at most 2^31 - 49; beyond it overflows. |
| Numbers.Pow | sys/string.c:80-86 | The power modulo 2^64. |
| Numbers.OctalToDecimal | sys/string.c:88-97 | The digits of any int read in base eight, with nothing lost in the casts. |
| Numbers.OctalReading | sys/string.c:27-97 | o_to_d of atoi is the base-8 value of every octal digit string. |
| Reads.FileObject.Fill | sys/tarfs.c:110-122 | Copies up to len bytes, stopping at the first 0 or 0xFF; the rest of the buffer is untouched. |
| Reads.FileObject.Read | sys/syscalls.c:75-79 | The position moves on by exactly what was delivered. |
| Reads.FileObject.ReadAll | sys/syscalls.c:75-79 | Any sequence of lengths delivers the prefix of length min(sum, readable length), and that is where the position ends up. |
| Reads.ChunkingDoesNotMatter | sys/tarfs.c:110-122 | The concatenation of the pieces depends only on the sum of the lengths. |
| Reads.WholeFileIff | sys/tarfs.c:114-117 | What is readable of a content and what lies behind it is the content if and only if it has no 0 and no 0xFF and one of these comes next. |
| Reads.ArchiveWholeIff | sys/tarfs.c:110-122 | An entry of the archive is delivered whole if and only if it has no 0 and no 0xFF and either does not end on a block boundary, or is the last before the end mark, or is followed by a name starting with 0xFF. |
| Reads.ReadsRunOn | sys/tarfs.c:110-122 | An empty file, or one that fills its last block, is read on into the next header: the next entry's name follows the content. |

## Left out

- Paging.AddressSpaces.constructor: takes "free pages are zero" as given; the boot `memset` clears only an eighth of the free bytes.
- Paging.AddressSpaces.MapPage: a user page is mapped only to a frame handed out for user data, as every caller does; mapping a table or a free frame into user memory is not modelled.
- Paging.AddressSpaces.Kmalloc: asks that the frames it takes lie inside the direct map; past its end `kmalloc` would extend the map, which is not modelled.
- Paging.AddressSpaces.Kfree: asks that the frame named by the page exists in memory, since the code indexes its descriptor without a check.
- Paging.AddressSpaces.ForgetSpace: models exit as forgetting the root; `clean_page_tables`, `user_free` and `shallow_cleanup` walk the tables but release nothing, because of kfree's guard.
- Paging.AddressSpaces.StoreWord: user-mode stores; those of the kernel are `Paging.AddressSpaces.KernelStoreWord`.
- UserHeap.Regions.UserMalloc: `user_malloc` in a forked child before exec, whose `vma_map_iter` points before the heap, is not modelled.
- UserHeap.Regions.GrowStack: the size limit is looked at only before growth, as in the code; growth into the heap is not excluded, its effect is stated page by page.
- ElfLoader.Loader.LoadFile: starts from parsed headers, with addresses below the end of user memory and file parts inside file and segment.
- Tar.Lookup: an entry that is stepped over must have an exact step; where the walk goes after an overshoot depends on file contents read as headers.
- Scheduler.Kernel.ReapProcess: numbers from 0 to 999 only, as in every reachable state; a process numbered -1 would be marked outside the table. The same goes for `Scheduler.Kernel.WaitAll`.
- OperatingSystem.System.Exec: the loading of the program in between is `ElfLoader.Loader.LoadFile`; the frames of the process structures themselves are not counted.
- Scheduler.Kernel.WaitScan: one pass of `wait`; the blocking loop, whose iterator is not reset, and `wait_pid` are not modelled.
- Session.Machine.Fork: asks for the frames that the copied tables take, which depend on the tables, so a script of operations is a sequence of calls and not one call with a list.
- Reads.FileObject.Read: descriptor checks and the table of open files are not modelled.
- Physical frames are named by page number, and the kernel's accesses through the direct map are accesses to the frame itself.
- The copying of regions, open files and the kernel stack in `copy_process` is not modelled beyond the parts named above.
- TLB flushing, ring-3 entry, interrupt frames, timer, keyboard, terminal, GDT, IDT and port I/O are not modelled.
- `get_free_pages(n)` and `add_back_free_pages` with n > 1 are unused and not modelled.
- Directory listing (`get_folder`, `open_dir`, `read_dir`), libc and the programs under `bin/` are not modelled.
