# The yoctix kernel: a verified model

Yoctix is a small Unix-like kernel for the i386. This project models its hardest parts in Dafny and proves what they
are for. Modules follow the kernel's source files.

**Virtual memory.** A process' address space is a list of regions; a region points at a chain of objects (shadows over
one anonymous or file object), and the pages of an object are threaded through the MCB array of the allocator. `fork`
shares pages and puts a shadow on each side, a write fault copies a page into a shadow, and `exit` merges a shadow
that has one user left into that user. The proof has three layers:

1. `VmRuns.SimpleStep`: a machine with private pages per process, where `fork` copies everything at once.
2. `VmModel`, `VmInvariants`, `VmFork`, `VmDetach`, `VmInPlace`, `VmCut`, `VmRefinement`, `VmRuns`, `VmTheorems`: the
   object chains, reference counts and page tables as values. `CopyOnWriteIsInvisible` says that over every run the
   outcomes are those of the simple machine, whatever addresses `malloc` returns. `VmSplit` and `VmSplitRuns` say what
   becomes of runs with the one kind of `munmap` for which that fails.
3. `VmThreads`, `VmLists`, `VmSteps`, `VmUnmap`, `VmKernel`: class `Kernel`, with the loops of the source, over a heap
   that is the `Allocator` of `Malloc.dfy` itself. The ghost field `a` is the memory that processes see; every method
   says what it does to `a`. `Pmap` proves that the two-level page tables do what the map of page-table entries used
   there does, for every address that a system call lets through, and when the kernel's own entries suffer; the field
   `kernelWhole` says whether they have.

**Everything else** has specifications of its own: the page and block allocator (`Mcb`, `Malloc`), the timer chain
(`TimerModel`, `Timer`, `TimerEnds`), the run and sleep queues (`RunQueues`), unmapping, free ranges and access checks
(`AddressSpace`), the two-level page tables (`Pmap`), the buffer cache and the FAT file system (`BufferCache`,
`Fat12`), the stack of a new program (`ExecStack`) and the process ids (`Pids`).

Objects that the source changes in place are classes (`Kernel`, `Allocator`, `Chain` and `Entry`, `Scheduler` and
`Proc`, `Space`, `PageDirectory`, `Cache`, `Stack`, `Bitmap`) with its loops; memory blocks, pages and page tables are
arrays or maps from their addresses. Integers that can wrap around in 32 bits are taken modulo 2^32 where they do.

Two-level paging is that of section 5.2 (Page Translation) of the Intel 80386 Programmer's Reference Manual; 12-bit
FAT entries are those of section "FAT Type Determination" of the Microsoft FAT File System Specification 1.03.

`dafny verify dfyconfig.toml` checks the whole project.

## Where the code is not what one would expect

Each of these is proved; where a promise fails, the condition under which it holds is proved to be exact, or the failing
case is shown beside the theorem that excludes it.

- A write fault copies a page even if it is in the region's own shadow already, for example when the other side of
  a fork has exited. The shadow then has two pages with one number; all lookups take the first, the newer one
  (`PushFind`, `MergeFind`).
- `malloc` can return NULL although a block is free, because its search, once around from the last position, misses what
  ends where it gives up (`ReachOfRun`, `SearchCanMiss`, `Allocator.Malloc`), and a request in the last page of the address space is rounded to zero
  (`BlockSizeFits`).
- A process that goes to sleep lets the one after the next run: `sleep` moves the head of the run queue on when it takes
  the process out, and `pswitch` moves it on again (`Scheduler.Sleep`).
- A negative sleep time puts other timers off (`NegativeSleepDelays`, `InsertNonNegative`). Kernel functions that arm
  timers with zero ticks keep `timer()` from ending exactly if one that is due leads, by such timers, to one that arms
  itself again (`LoopEndsExactly`).
- A `munmap` from the middle of a region that has been forked gives its shadow a second region, and the next fork
  gives it four objects above, of which it can record two only. When those two have gone, `vm_object_free` moves the
  shadow's pages to one of them, which is free, and frees the shadow, which is in use: no panic, since what is freed
  keeps its fields (`FreesInUse`; `SplitShadowFreesInUse` is a run). Every cut in two of a region whose object is a shadow
  leads there, whatever fork comes next (`CutInTwoBreaks`), and no other cut ever does: `CutIsSafe` is the exact
  condition.
- `munmap(0, 0)` unmaps the whole address space (`MunmapRange`). The process' next page fault is then the panic
  "current process has no vmregions", which is an outcome of runs (`CopyOnWriteIsInvisible`).
- `pmap_markpages` clips the end of a range to userland but not its start, and nothing before it does: `munmap` of a
  page beyond userland unmaps the kernel's pages for all processes (`UnmapPages`, `MunmapOfKernel`, `Kernel.Munmap`),
  and a fork with a writable region there, which a process can have (`RegionBeyond`), takes the kernel's right to write
  (`MarkPagesCow`, `ForkOfKernel`, `Kernel.VmFork`). The kernel's entries stay whole exactly if the range starts in userland.
- `vm_region_findfree` rounds a length in the last page of the address space to zero, and finds an address that is in use
  (`FoundInUse`).
- The `vm_prot` functions compute with 32 bits, so that the region after one that ends with the address space is the
  one at address 0. `vm_prot_accessible` therefore refuses a range whose last byte is in such a region
  (`AccessIsExact`, `LastPageRefused`), and never returns if all of the address space may be accessed
  (`EndlessOtherwise`); `vm_prot_maxmemrange` counts on from address 0 (`ReachIsRight`).
- `vm_prot_accessible` only looks at the first byte of a range that is empty or runs past the end of the address
  space, if the region of that byte does not reach that far itself (`AccessOfFirstByte`).
- `buffercache_read` is meant not to add a block twice, but looks for the first block of the range instead of the
  current one; nothing is ever twice in the cache exactly if the devices' tips are as `Lean` says (`NeverTwice`,
  `TwiceOtherwise`), as the floppy driver's are (`FloppiesAreLean`).
- `msdosfs_next_cluster` compares a cluster number, which starts at 2, with the number of clusters, so that a chain
  ends at the last cluster of the disk whatever the table says (`FollowsTable`). It takes entries from 0xff0 on as
  the end of a chain.
- `msdosfs_read` does not stop at the end of the file but at the end of its last cluster, or in the one after it, of
  which it leaves as many bytes uncounted as lie between the file's size and the end of its clusters (`ReadIsRight`,
  `ReadGives`).
- A program's argument or environment string that crosses a page boundary is not found again on its stack: the next
  page begins with the beginning of the string again (`ReadBack`).

## Model

| member | source | states |
|---|---|---|
| VmTheorems.CopyOnWriteIsInvisible | src/sys/vm/vm_fork.c:66-157 | over every run of maps, faults at any page, loads, stores, forks, whole and partial unmaps and exits, every outcome is the one of a machine in which fork copies all of the parent's pages. A fault outside all regions kills the process, or is the panic "current process has no vmregions" exactly if it has none; the panics "chain is corrupt" and "unknown page fault" never occur, and no freed object is used |
| VmTheorems.StepRefines | src/sys/vm/vm_fault.c:182-378 | the same for one event from any state that keeps the invariant, which is kept |
| VmTheorems.EntriesAreExact | src/sys/vm/vm_fault.c:298-374 | in every reachable state a page-table entry names the frame that first-match lookup gives, and the frame of a writable entry is shown at no other page of any process |
| VmTheorems.CountsAreExact | src/sys/vm/vm_object.c:181-291 | reference counts equal the regions plus objects that refer; a shadow under another object has exactly the two referers recorded in it |
| VmTheorems.NothingLeaks | src/sys/vm/vm_object.c:181-291 | when no process has memory left, all objects that are left are those of files |
| VmTheorems.FaultDecides | src/sys/vm/vm_fault.c:253-378 | a fault kills exactly if the region forbids the access, fails to page in exactly if the file is too short, else succeeds; "unknown page fault" is unreachable |
| VmTheorems.LoadAfterOneFault | src/sys/vm/vm_fault.c:253-309 | a permitted load of an existing page goes through after at most one fault |
| VmTheorems.StoreAfterTwoFaults | src/sys/vm/vm_fault.c:253-374 | a permitted store of an existing page goes through after at most two faults |
| VmTheorems.GoodIsStepable | src/sys/vm/vm_fault.c:182-231 | no run is cut short: in every reachable state whatever is enabled can happen |
| VmInvariants.FaultKeeps | src/sys/vm/vm_fault.c:253-374 | a fault keeps the invariant and what every region of every process shows |
| VmObjects.PushFind | src/sys/vm/vm_fault.c:338-353 | a page pushed in front of a chain is what lookup gives for its number from then on, also over an old entry; other lookups stay |
| VmObjects.MergeFind | src/sys/vm/vm_object.c:334-371 | after the page loop of combine, lookup in the merged chain is lookup in the upper chain, then in the lower one, duplicates included |
| VmObjects.MergeFrames | src/sys/vm/vm_object.c:334-371 | every page is kept or freed, exactly once |
| VmObjects.MergeKeepsFirst | src/sys/vm/vm_object.c:334-371 | a page of the lower object is kept exactly if lookup gave it: what is freed is what was hidden |
| VmObjects.CombineFind | src/sys/vm/vm_object.c:295-387 | combining two shadows leaves lookup unchanged from every object that is left |
| VmInPlace.ForkInPlace | src/sys/vm/vm_fork.c:83-153 | while one process forks, memory that others write in place stays theirs alone |
| VmRefinement.PrivateFrame | src/sys/vm/vm_fault.c:326-361 | a frame of an object that a region may write is shown by that region only, as one page only |
| VmDetach.DetachKeeps | src/sys/vm/vm_object.c:181-291 | detaching a region never panics, keeps the invariant, and leaves what all other regions show |
| VmFork.AttachKeeps | src/sys/vm/vm_region.c:74-117 | attaching a region at a free place keeps the invariant |
| VmKernel.Kernel.FindPage | src/sys/vm/vm_fault.c:191-235 | the walk over the chain of objects finds what first-match lookup gives |
| VmKernel.Kernel.Pagein | src/sys/vm/vm_object.c:75-94 | a fresh page of 4096 zeroes for an anonymous object; for a file's, the page of that number of the file, and a failure if the file does not have it. Out of memory exactly if `malloc` finds no page |
| VmKernel.Kernel.FaultPageIn | src/sys/vm/vm_fault.c:253-309 | case A does what the model's page-in does, to the MCB array and the page table; the new entry may be written exactly if the region is writable and not copied on write |
| VmKernel.Kernel.FaultCopy | src/sys/vm/vm_fault.c:326-361 | case B does what the model's copy does, making the shadow if the region has none; the new entry may be written if the region may |
| VmKernel.Kernel.VmFault | src/sys/vm/vm_fault.c:62-385 | how a fault ends depends on what the process is allowed and sees only, and what processes see does not change; a resolved fault leaves an entry and changes no other one; out of memory only if `malloc` finds nothing for a page or an object |
| VmKernel.Kernel.ObjectCreate | src/sys/vm/vm_object.c:98-126 | a new object at an address no other object has, in a block of its own, exactly if `malloc` finds one |
| VmKernel.Kernel.FreePages | src/sys/vm/vm_object.c:130-177 | exactly the pages of the range leave the chain and are free; all other chains stay whole |
| VmKernel.Kernel.ObjectCombine | src/sys/vm/vm_object.c:295-387 | the combined state of the model, in place; "chain is corrupt" exactly if the object above is not a shadow right on top |
| VmKernel.Kernel.FreeBelow | src/sys/vm/vm_object.c:226-244 | the object below one that goes loses a referer, is freed too, or is merged with its other referer |
| VmKernel.Kernel.ObjectFree | src/sys/vm/vm_object.c:181-291 | one reference less, and all that follows from it, as in the model |
| VmKernel.Kernel.RegionAttach | src/sys/vm/vm_region.c:74-117 | the region is put first in the list and its object counts it |
| VmKernel.Kernel.RegionDetach | src/sys/vm/vm_region.c:121-172 | exactly the first region that starts there goes, and with it the pages that touch its addresses; all other pages show what they did |
| VmCut.CutKeeps | src/sys/kern/sys_mmap.c:312-365 | cutting a part out of a region keeps the invariant and takes away exactly the pages in the range; a region may be cut in two unless its object is a shadow |
| VmCut.CutInPlace | src/sys/kern/sys_mmap.c:349-361 | when anonymous memory is cut in two, each of its pages is still shown by one region only |
| VmSplit.FreeAgrees | src/sys/vm/vm_object.c:181-291 | `vm_object_free` on memory in which freed objects keep their fields does what the model's release does, wherever that is defined |
| VmSplit.FreesInUse | src/sys/vm/vm_object.c:226-244 | if the other user recorded of a shadow is free, with its fields, the shadow is freed under a live user, its pages go to what is free, and nothing panics |
| VmSplit.SplitIs | src/sys/kern/sys_mmap.c:349-361 | a region whose object is a shadow, cut in two: the shadow then has two regions |
| VmSplit.TwiceIs | src/sys/vm/vm_fork.c:72-157 | when the process forks again, in the order of its list, that shadow gets four objects above it and records the two of the lower region |
| VmSplit.SplitShadowFreesInUse | src/sys/vm/vm_object.c:295-387 | one run from the start: map, fork, a page fault, that munmap, fork, exit, munmap; then a live object continues in a freed one, whose page is on a freed one's chain |
| VmSplitRuns.CutInTwoBreaks | src/sys/kern/sys_mmap.c:349-361 | after every cut in two of a region whose object is a shadow, and every fork, in any order of the list and with any new objects: unmapping the child's two parts and one of the parent's frees the shadow, which the parent's other part uses, and moves its pages to a freed object |
| VmSplitRuns.SomeFork | src/sys/vm/vm_fork.c:66-157 | such a fork can always come next: there is an unused process id, and addresses for its objects |
| VmSplitRuns.CutIsSafe | src/sys/kern/sys_mmap.c:312-365 | a cut is safe, in every run from then on, exactly if it does not cut a region in two whose object is a shadow |
| VmKernel.Kernel.UnmapRegion | src/sys/kern/sys_mmap.c:315-364 | one round of munmap's loop: the region is detached, cut at an end, or cut in two, and no cell outside the range changes |
| VmKernel.Kernel.Munmap | src/sys/kern/sys_mmap.c:244-368 | EINVAL exactly for an address within a page, and, but at address 0, for an empty range or one that ends beyond the address space. Else the process sees no page that touches the range, and everybody sees all other pages as before; object counts, lists and page tables stay sound, and the kernel's own pages exactly if the range starts in userland |
| VmKernel.Kernel.UnmapPages | src/sys/kern/sys_mmap.c:305 | the map of page-table entries loses what `Pmap.FlatUnmap` says, which is all of the process if the range starts beyond userland |
| VmUnmap.MunmapOfKernel | src/sys/kern/sys_mmap.c:284-305 | munmap(0xff000000, 4096) with 16 MB of kernel is accepted and leaves no page present, the kernel's included |
| VmUnmap.RegionBeyond | src/sys/kern/sys_mmap.c:115-145 | mmap(0xfefff000, 8192) and munmap(0xfefff000, 4096), with 16 MB of kernel, spare the kernel and leave a region beyond userland |
| VmUnmap.ForkOfKernel | src/sys/arch/i386/pmap.c:113-137 | when a process with that region forks, no page of the linear address space can be written any more |
| VmKernel.Kernel.MapZeroes | src/sys/kern/sys_mmap.c:168-224 | private anonymous memory: every byte of the region reads as zero, with the region's rights; all else is as before. It succeeds exactly if `malloc` finds a block for the object |
| VmKernel.Kernel.MapFilePages | src/sys/kern/sys_mmap.c:174-224 | a mapped file: every address of the region shows the page of the file that its offset, from the start of the region and the source offset on, is in, with the region's rights; all else is as before; there is one object per vnode, and it fails only without memory for a new one |
| VmKernel.Kernel.VmFork | src/sys/vm/vm_fork.c:66-157 | afterwards the child has each of the parent's pages, with the same contents and rights, and no other, and everybody else sees what they saw; it fails only without memory for an object. The kernel's own pages stay whole exactly if no writable region of the parent starts beyond userland |
| VmKernel.Kernel.ForkWritable | src/sys/vm/vm_fork.c:83-153 | one round for a writable region: two new shadows, counted and recorded, and nobody may write without a fault |
| VmKernel.Kernel.ProcExit | src/sys/kern/proc.c:791-797 | exit takes away exactly the pages of the process |
| VmKernel.Kernel.Load | src/sys/vm/vm_fault.c:363-374 | through a page-table entry a process reads the byte it should see |
| VmKernel.Kernel.Store | src/sys/vm/vm_fault.c:363-374 | through a writable entry it changes that byte of its own memory and of nobody else's |
| VmKernel.Kernel.OnlyFilesRemain | src/sys/vm/vm_object.c:264-288 | when no process has regions, a live heap block is a cached file's or another subsystem's |
| VmThreads.LinkedPage | src/sys/vm/vm_fault.c:286-296 | a page linked in front of a chain: this chain grows by it, all others stay as they are, disjoint and acyclic |
| VmThreads.MovedPage | src/sys/vm/vm_object.c:356-362 | a page moved between two chains: no other chain and no other block changes |
| VmThreads.LoosePageFreed | src/sys/vm/vm_object.c:363-370 | freeing a page that is on no chain leaves all chains whole |
| VmThreads.ObjectFreed | src/sys/vm/vm_object.c:374-382 | freeing an object without pages leaves all other objects and chains whole |
| VmThreads.KeptFind | src/sys/vm/vm_object.c:143-174 | pages outside a freed range are found as before, those inside not |
| VmLists.CoverIsListed | src/sys/vm/vm_fault.c:126-142 | the first region in the list that contains an address is the one that covers its page |
| VmSteps.MappedPage | src/sys/vfs/vfs_vnode.c:555-603 | page by page, what a mapping adds: the page of the file, counted from the source offset on, if the file has it, or zeroes |
| Mcbs.BlocksDisjoint | src/sys/kern/malloc.c:412-511 | two live blocks never overlap |
| Mcbs.BlockPages | src/sys/kern/malloc.c:412-511 | the pages of a live block are neither free nor reserved nor outside memory |
| Mcbs.AllocatedKeeps | src/sys/kern/malloc.c:412-511 | allocating adds one block, moves no other, takes its size from the free bytes, and freeing it again restores every MCB |
| Mcbs.FreedBlocks | src/sys/kern/malloc.c:564-601 | freeing removes exactly that block |
| Mcbs.FreedFree | src/sys/kern/malloc.c:564-601 | freeing gives back exactly the block's size |
| Mcbs.VmPageKeeps | src/sys/vm/vm_fault.c:286-296 | turning a page-sized block into a page of an object moves no block and no free byte |
| Mcbs.EverySequence | src/sys/kern/malloc.c:248-604 | over every sequence of malloc, free and conversions the live blocks are exactly those allocated and not freed |
| Malloc.BlockSizeFits | src/sys/kern/malloc.c:293-322 | a block is as long as asked: the smallest power of two from 128 to 2048 that is, or the smallest number of pages, exactly if the request is not in the last page of the address space |
| Malloc.RoundUp | src/sys/kern/malloc.c:293-322 | the loops compute that size |
| Malloc.FindIndex | src/sys/kern/malloc.c:325-339 | each block size has its own search position |
| Malloc.EveryHeap | src/sys/kern/malloc.c:103-205 | from the initial heap on: live blocks are aligned, disjoint, inside memory and clear of the MCB array, which takes 16 bytes a page, in whole pages; free memory is conserved |
| Malloc.SearchCanMiss | src/sys/kern/malloc.c:371-406 | the heap of a machine with 1 MB as malloc_init makes it: its 255 free pages are not found |
| Malloc.ReachOfRun | src/sys/kern/malloc.c:371-406 | a run of free pages is out of reach exactly if it ends with the last MCB, or right before where the search starts, or the search starts in it |
| Malloc.Allocator.constructor | src/sys/kern/malloc.c:103-205 | the MCB array reserves itself, all other pages are free and counted |
| Malloc.Allocator.FindRun | src/sys/kern/malloc.c:371-406 | finds a run of free pages exactly if one is in reach of the search, and the first one on its way around |
| Malloc.Allocator.FindSlot | src/sys/kern/malloc.c:444-481 | finds a free page or slot exactly if one is in reach, in the first page on its way around, and there the lowest slot |
| Malloc.Allocator.Malloc | src/sys/kern/malloc.c:248-516 | NULL exactly if nothing is in reach; else the first block on the way around from the last position, which was free, and nothing else changes |
| Malloc.Allocator.Free | src/sys/kern/malloc.c:520-604 | frees exactly the block in whose first page, or slot, the pointer lies, and panics exactly if there is none |
| TimerModel.ArmedGoesOff | src/sys/kern/timer.c:285-326 | a timer armed with T ticks goes off in the (T+1)-th call and in no other, whatever else is armed, reset or goes off |
| TimerModel.GoesOffWhenDue | src/sys/kern/timer.c:162-195 | the same for any timer in the chain in any state |
| TimerModel.NeverAgain | src/sys/kern/timer.c:178-184 | a timer that has gone off or was reset never goes off again |
| TimerModel.FirstInFirstOut | src/sys/kern/timer.c:285-326 | timers due in the same call go off in the order in which they were armed |
| TimerModel.RunsEvery | src/sys/kern/timer.c:171-184 | a kernel function that re-arms itself with T >= 1 ticks runs again exactly T calls later |
| TimerModel.TickOk | src/sys/kern/timer.c:162-195 | one call: exactly those due go off, the others stay, what is armed meanwhile goes off later |
| TimerModel.ZeroTicksNeverEnd | src/sys/kern/timer.c:167-195 | why the functions must not re-arm themselves with zero ticks: as many timers stay due as there were |
| TimerEnds.LoopEndsExactly | src/sys/kern/timer.c:167-195 | with functions that arm timers with zero or more ticks, the loop of timer() ends exactly if none that is due leads, by timers with zero ticks, to one that arms itself again |
| Timer.InsertView | src/sys/kern/timer.c:285-326 | inserting a difference adds one deadline and moves no other |
| Timer.InsertNonNegative | src/sys/kern/timer.c:285-326 | differences stay non-negative exactly if the new time is not negative |
| Timer.RemoveView | src/sys/kern/timer.c:364-394 | removing an entry adds its difference to the next: no other deadline moves |
| Timer.DropHead | src/sys/kern/timer.c:178-184 | dropping the head as timer() does moves the other deadlines unless its count is exactly zero |
| Timer.NegativeSleepDelays | src/sys/kern/timer.c:285-326 | a negative sleep that puts another timer off |
| Timer.TicksAccuracy | src/sys/kern/timer.c:276-278 | the most ticks of 1/1024 s that fit into the time, cut to microseconds: its exact number of ticks less at most two, and not negative if the time is not |
| Timer.Chain.Insert | src/sys/kern/timer.c:285-326 | the linked list after insertion holds the deadlines it held and the new one, in order |
| Timer.Chain.Sleep | src/sys/kern/timer.c:255-333 | arms one timer; the chain stays sound exactly if the time is not negative |
| Timer.Chain.KSleep | src/sys/kern/timer.c:344-400 | with the reset flag all entries of that function go first, and nothing else does |
| Timer.Chain.Remove | src/sys/kern/timer.c:364-394 | removes every entry for a function and moves no other deadline |
| Timer.Chain.Tick | src/sys/kern/timer.c:162-195 | wakes and runs exactly what is due, in order, while functions arm new timers; the chain is then the model's |
| RunQueues.NobodyLost | src/sys/kern/proc.c:330-713 | over every sequence of switches, forks, sleeps and wakeups the two queues hold everyone there was and everyone forked, once each |
| RunQueues.WakeMembers | src/sys/kern/proc.c:626-704 | after a wakeup exactly those asleep on the address are on the run queue, and the rest still sleep |
| RunQueues.WokenRun | src/sys/kern/proc.c:668-696 | the run queue after a wakeup: its old head, the woken in the reverse order of the sleep queue, then the others; if it was empty, the first one woken is the head |
| RunQueues.WokenSleep | src/sys/kern/proc.c:649-667 | the sleep queue after a wakeup: who slept behind the last one woken, then who slept before that one, in the same order |
| RunQueues.TurnComes | src/sys/kern/proc.c:396-427 | with switches only, the process at place k runs after k of them |
| RunQueues.Scheduler.PSwitch | src/sys/kern/proc.c:330-428 | the ring turns by one and its new head is the running process, unless nobody can run; only a switch clears the wish for one |
| RunQueues.Scheduler.Resume | src/sys/kern/proc.c:396-427 | when pswitch stops waiting somebody can run: "no runqueue" cannot occur |
| RunQueues.Scheduler.Fork | src/sys/arch/i386/proc.c:381-394 | the child is the second of the ring, right behind the running process and before all others, and a switch is asked for |
| RunQueues.Scheduler.Start | src/sys/kern/sys_execve.c:448-465 | the first process is a ring by itself, and runs; interrupts are off from before its linking until machdep_pswitch has set it running |
| RunQueues.Scheduler.Sleep | src/sys/kern/proc.c:432-514 | the running process becomes the head of the sleep ring and the one after the next one runs; nobody else is touched; "inconsistensy in the run queue" cannot occur |
| RunQueues.Scheduler.MarkSleepers | src/sys/kern/proc.c:634-647 | the first round marks exactly those asleep on the address and counts the ring |
| RunQueues.Scheduler.MoveSleepers | src/sys/kern/proc.c:649-704 | the second round moves exactly the marked ones, to the places that `WokenRun` and `WokenSleep` say; both rings stay whole and disjoint |
| RunQueues.Scheduler.Wakeup | src/sys/kern/proc.c:586-713 | exactly the sleepers on the address are made runnable, each at its place in the ring (`WokenRun`); the rest sleep on in the order of `WokenSleep`; the idle loop ends exactly if there is one |
| AddressSpace.CutShows | src/sys/kern/sys_mmap.c:317-361 | a region cut by a range shows what it did outside the range and nothing inside |
| AddressSpace.CutListKeeps | src/sys/kern/sys_mmap.c:312-365 | cutting one region of a list, also in two, keeps regions aligned and disjoint |
| AddressSpace.ShowsOne | src/sys/vm/vm_region.c:91-117 | in disjoint regions an address shows one byte of one object at most, so that what `Munmap` says fixes the whole address space |
| AddressSpace.MunmapRange | src/sys/kern/sys_mmap.c:287-297 | the range that is cut is the pages asked for, unless it is an empty range at address 0 |
| AddressSpace.RefusedIs | src/sys/kern/sys_mmap.c:284-297 | which calls are refused, in terms of the address and the length given |
| AddressSpace.Space.Munmap | src/sys/kern/sys_mmap.c:244-368 | EINVAL exactly for an address within a page, and, but at address 0, for an empty range or one that ends beyond the address space. Else the addresses in the range show nothing afterwards, and all others exactly what they did |
| AddressSpace.Space.Detach | src/sys/vm/vm_region.c:121-172 | exactly the first region with that start goes |
| AddressSpace.Space.FindFree | src/sys/vm/vm_region.c:199-239 | the result is the best place in the sense of `BestIsHighest` |
| AddressSpace.FoundInUse | src/sys/vm/vm_region.c:199-239 | for a length in the last page of the address space, which rounds up to zero, it is where the highest region starts |
| AddressSpace.BestIsHighest | src/sys/vm/vm_region.c:199-239 | the place is free, and no free place of that length below some region is higher; NULL only if there is none but address 0 |
| AddressSpace.Space.CheckAccess | src/sys/vm/vm_prot.c:44-107 | with 32-bit addresses: yes exactly if the first byte may be accessed, every byte up to the computed end, also around the end of the address space, and the last region does not end with it. A byte may be accessed if some region has it that is readable, if that is asked for, and writable, if that is |
| AddressSpace.EndlessOtherwise | src/sys/vm/vm_prot.c:72-104 | what `CheckAccess` requires is exact: otherwise no round of the loop is the last one |
| AddressSpace.AccessIsExact | src/sys/vm/vm_prot.c:44-107 | for a range that is not empty and ends in the address space the answer is right, exactly unless it should be yes and the region of the last byte ends with the address space |
| AddressSpace.ForbiddenByte | src/sys/vm/vm_prot.c:88-90 | one byte in a region that is not writable, or not readable, is enough to refuse a range for writing, or for reading |
| AddressSpace.LastPageRefused | src/sys/vm/vm_prot.c:91-94 | vm_prot_accessible(0xfffff000, 4096) says no of a page that may be read |
| AddressSpace.AccessOfFirstByte | src/sys/vm/vm_prot.c:44-107 | otherwise only the first byte matters, or, if its region ends with the address space, all bytes around to the end of the range |
| AddressSpace.Space.MaxMemRange | src/sys/vm/vm_prot.c:111-169 | the number of bytes from the address on that may be accessed, modulo 2^32, up to the first one that may not |
| AddressSpace.ReachIsRight | src/sys/vm/vm_prot.c:111-169 | that is the longest range in the address space, exactly unless it goes on around its end to address 0 |
| Pmap.PageDirectory.constructor | src/sys/arch/i386/proc.c:74-101 | a new directory holds the kernel's entries and no other: it maps nothing for the user and what the kernel's maps for the kernel |
| Pmap.PageDirectory.MapPage | src/sys/arch/i386/pmap.c:47-94 | the entry of the page has this frame and is present, open to the user and writable as asked, below a directory entry that allows both; all other entries are as before. It fails exactly if a page table is needed and cannot be had |
| Pmap.PageDirectory.MarkPages | src/sys/arch/i386/pmap.c:98-140 | for all addresses: which pages of the linear address space lose the bits, the kernel's included; the kernel's pages stay as they are if the range is empty or starts in userland, and stay present and writable only then |
| Pmap.KernelMarked | src/sys/arch/i386/pmap.c:113-137 | marking a range from beyond userland reaches the kernel's pages, any other one does not |
| Pmap.PageDirectory.MarkPagesCow | src/sys/arch/i386/pmap.c:144-156 | exactly the user pages that touch the range lose the write bit, or all of them if it starts beyond userland; frame, present bit and user bit stay |
| Pmap.PageDirectory.UnmapPages | src/sys/arch/i386/pmap.c:160-171 | exactly the user pages that touch the range are unmapped, all three bits cleared, or all of them if it starts beyond userland |
| Pmap.UnmapsTheKernel | src/sys/arch/i386/pmap.c:113-137 | the page 0xff000000 with 16 MB of kernel: every page of the linear address space is unmapped |
| Pmap.PageDirectory.Mapped | src/sys/arch/i386/pmap.c:175-200 | yes exactly if the entry of the page is present |
| Pmap.PageDirectory.FreeMaps | src/sys/arch/i386/proc.c:219-244 | frees exactly the process' own page tables, not the shared ones of the kernel |
| Pmap.OneAbove | src/sys/arch/i386/pmap.c:47-94 | setting the entry of a user page changes no page of the kernel |
| Pmap.FlatMap | src/sys/arch/i386/pmap.c:47-94 | the map of all processes' entries, which `Kernel` uses, changes as `Kernel.MapPage` says when one process' directory changes as `MapPage` says |
| Pmap.FlatProtect | src/sys/arch/i386/pmap.c:144-156 | the same for `MarkPagesCow` and what `Kernel.VmFork` does |
| Pmap.FlatUnmap | src/sys/arch/i386/pmap.c:160-171 | the same for `UnmapPages` and `Kernel.UnmapPages` |
| Pmap.UnmapRangeIs | src/sys/arch/i386/pmap.c:113-119 | the clipped range on that map is the range asked for if it starts in userland, and all of the process if not |
| Pmap.ProtectRangeIs | src/sys/arch/i386/pmap.c:113-119 | the same for taking write bits |
| Pids.Bitmap.Remove | src/sys/kern/sys_fork.c:62-95 | frees exactly that id and tells apart ids in use, not in use and out of 2..32766 |
| Pids.Bitmap.GetUnused | src/sys/kern/sys_fork.c:99-158 | 0 exactly if all ids are in use; else the first unused one from the hint on around the circle, and only it is marked |
| ExecStack.ReadBack | src/sys/modules/emul/openbsd_aout/openbsd_aout.c:305-459 | a C program finds exactly its arguments and environment on the stack exactly if no string crosses a page boundary |
| ExecStack.SeesOne | src/sys/modules/emul/openbsd_aout/openbsd_aout.c:305-325 | a program can find one argument list and one environment only |
| ExecStack.StringsAt | src/sys/modules/emul/openbsd_aout/openbsd_aout.c:449-455 | where each string is, and what is there |
| ExecStack.CopiedBytes | src/sys/modules/emul/openbsd_aout/openbsd_aout.c:254-301 | byte by byte: a string continues from its beginning on every new page |
| ExecStack.HeaderFound | src/sys/modules/emul/openbsd_aout/openbsd_aout.c:401-447 | argc, the nulls and every pointer, to the place of its string, are where a program looks for them |
| ExecStack.ImageEnds | src/sys/modules/emul/openbsd_aout/openbsd_aout.c:366-409 | the image is a whole number of words and ends with its last page, at the end of userland |
| ExecStack.Stack.AddPage | src/sys/modules/emul/openbsd_aout/openbsd_aout.c:230-250 | one more page of zeroes after those there are |
| ExecStack.Stack.CopyStr | src/sys/modules/emul/openbsd_aout/openbsd_aout.c:254-301 | appends the string, begun again on each new page |
| ExecStack.PutPointers | src/sys/modules/emul/openbsd_aout/openbsd_aout.c:411-428 | appends the addresses of the strings, modulo 2^32, and a null |
| ExecStack.SetupArgvEnvp | src/sys/modules/emul/openbsd_aout/openbsd_aout.c:305-459 | the pages hold the image of `ReadBack`, which ends with the last page of the stack |
| BufferCache.NeverFetchedAgain | src/sys/vfs/vfs_block.c:193-215 | over every run of reads, a block that has been read or found is never asked of its device again |
| BufferCache.NeverTwice | src/sys/vfs/vfs_block.c:268-315 | if the devices' tips overlap in their first blocks at most, no block is ever twice in the cache |
| BufferCache.TwiceOtherwise | src/sys/vfs/vfs_block.c:268-315 | otherwise some run of two reads has a block twice: the condition is exact |
| BufferCache.FloppiesAreLean | src/sys/modules/bus/isa/fdc/fdc.c:724-783 | the tips of the floppy driver are of that kind, for drives of any geometries side by side and for devices that give no tips |
| BufferCache.TracksCover | src/sys/modules/bus/isa/fdc/fdc.c:724-783 | the tip for a block is the track it is on, which begins at a multiple of the number of sectors |
| BufferCache.OutcomeAsks | src/sys/vfs/vfs_block.c:180-261 | nothing is asked of the device for a block that is in the cache; else what its tip says, or EINVAL for a bad tip; of a device without tips the wanted block alone |
| BufferCache.LookupCached | src/sys/vfs/vfs_block.c:159-325 | a read adds exactly the blocks of the tip, if it reads the device, and removes none; every entry holds what the device holds |
| BufferCache.AddAllCopies | src/sys/vfs/vfs_block.c:268-315 | every block of the tip gets one more entry, except the first one if it has one already |
| BufferCache.Cache.Read | src/sys/vfs/vfs_block.c:159-325 | the answer is the device's block; the device is read only if the block is not cached, and asked for what `OutcomeAsks` says; errors leave buffer and cache as they are |
| BufferCache.Cache.BlockRead | src/sys/vfs/vfs_block.c:329-388 | the buffer is filled with the device's blocks, which are cached afterwards, and nothing leaves the cache; the device is not read if all of them are cached; on a sound device it fails exactly if one of them does not exist |
| Fat12.Unpacked | src/sys/modules/fs/msdosfs/msdosfs.c:79-115 | decoding gives back every entry of every packed 12-bit table |
| Fat12.FollowsTable | src/sys/modules/fs/msdosfs/msdosfs.c:70-115 | the next cluster is the entry in the table, 0 if that is 0xff0 or more or the cluster is beyond the number of entries |
| Fat12.NextCluster | src/sys/modules/fs/msdosfs/msdosfs.c:56-122 | computes that through the cache, for whatever table the disk holds, also for an entry in two sectors |
| Fat12.ClustersApart | src/sys/modules/fs/msdosfs/msdosfs.c:126-144 | where a cluster lies; different clusters lie in different sectors, inside the data area |
| Fat12.TableChain | src/sys/modules/fs/msdosfs/msdosfs.c:56-122 | clusters linked by the entries of the table on disk are the chain of the file, which ends with an entry of 0, or of 0xff0 and more, or beyond the number of entries |
| Fat12.ReadIsRight | src/sys/modules/fs/msdosfs/msdosfs.c:210-322 | a read gives the file's bytes from the offset on, up to its size, exactly if it stays within the size, starts beyond the last cluster, or the file fills its last cluster and the chain ends there |
| Fat12.ReadGives | src/sys/modules/fs/msdosfs/msdosfs.c:210-322 | what every read gives, bytes and count: nothing from the end of the last cluster on; else the file's bytes up to there, and of the next cluster of the chain, if it has one, as much as is left to read, or an error if it cannot be read |
| Fat12.Read | src/sys/modules/fs/msdosfs/msdosfs.c:210-322 | the two loops write to the buffer, and return, what `ReadIsRight` is about; the rest of the buffer stays |

## Left out

- Hardware: the TLB, descriptor tables, interrupts and the instructions that switch processes. A switch sets the current process; code with interrupts off is one step.
- Out of memory in the middle of `fork`, `exec` or a fault: the methods of `Kernel` then, and only then, return a failure (`Allocator.CanServe`) and promise nothing about the state, since the source's clean-up is incomplete.
- Reading past the end of a mapped file: the source panics; the model has that as an outcome (`PageinPanic`).
- VmTheorems.CopyOnWriteIsInvisible: does not cover a `munmap` that cuts a region in two whose object is a shadow, which are exactly the cuts after which it fails (`CutIsSafe`).
- VmKernel.Kernel.Munmap: requires the same of the region that contains the range, if there is one (`AllMaySplit`).
- `sys_break` and regions that grow again: pages cut off before reappear.
- `vm_region` structures as memory blocks: the lists are sequences per process, with insertion and removal where the source has them.
- VmKernel.Kernel.ProcExit: page tables are dropped with the regions; in the source they stay with the zombie, which never runs again, until `wait4` frees them.
- The type bits of a region other than readable, writable and copy-on-write, and the dates and sizes kept with objects.
- Malloc.Allocator.Malloc: takes no request in the last page of the address space, whose size wraps around to zero (`BlockSizeFits`), by which the source then divides; bitmaps are sets of bit numbers.
- Statistics of `malloc_showstats` and `malloc_getsize`.
- VmKernel.Kernel.RegionAttach: source offsets are multiples of the page size, and so are the file offsets of `MapFilePages`; `sys_mmap` does not check them, and with another offset a page of the file object would hold bytes from elsewhere in the file.
- Timer.Chain.Tick: the functions arm no timer with zero ticks (`Patient`), which is sufficient for the loop to end; the exact condition is that of `LoopEndsExactly`. Tick counts are unbounded; the kernel functions called are those that arm timers, given by a map, and none resets its own entry while it runs, which would be freed twice.
- The time of day, `timer_init`, and the rest of `timer()` after the chain.
- RunQueues.Scheduler.Sleep: message strings, `wakeup_proc` (with a single sleeper it leaves `sleepqueue` pointing at the process it has moved), signals, `wait4` and the queue part of `proc_exit`.
- The list of all processes and parents and children.
- AddressSpace.Space.CheckAccess: requires that the loop of the source ends (`CheckEnds`), which memory without address 0 is enough for (`ZeroEndsIt`); `EndlessOtherwise` shows that it does not otherwise.
- AddressSpace.Space.MaxMemRange: requires that some byte may not be accessed, without which the loop of the source goes on forever.
- VmKernel.Kernel.VmFault: the faulting address is in userland, as the segments that the hardware checks say (src/sys/arch/i386/vm.c:117-126). What happens to a kernel that has lost its own pages (`kernelWhole` is false) is up to the hardware; contracts then speak about memory only.
- VmSplit.FreeIn: says nothing about what lookups find through an object that has been freed.
- Pmap.PageDirectory.MapPage: page tables are arrays of words by their frame; that they come from `malloc` is a parameter.
- Pids.Bitmap.GetUnused: bytes of the bitmap are sets of bit numbers.
- ExecStack.SetupArgvEnvp: null pointers among its arguments, and stacks longer than the stack region; the pages are one sequence of bytes.
- Writing: `buffercache_write` bypasses the cache, so the cache is proved for read-only use. `block_readwrite` for files instead of devices returns an error in the source and is not part of this model.
- BufferCache.Cache.BlockRead: the block size of the device and the one of the mount are the same, as in all drivers; with different ones the source would overlap blocks.
- Device errors other than "not readable" and bad tips, and blocks that change on the device.
- Fat12.NextCluster: the device can read all that its tips ask for (`Healthy`), as a floppy can; `Fat12.Read` requires the same.
- Fat12.Read: offset, length and a cluster stay below 2^32 together; the buffer for one cluster is always allocated.
- Directories, file names, superblocks of the FAT file system; other file systems, the vnode cache, terminals, drivers, locks, modules and user programs.
