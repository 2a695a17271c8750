# Verified models of the riscv-pke kernel

This project models the parts of the riscv-pke teaching kernel in which invariants span many functions, and
proves them in Dafny. Each area has a value level, where the laws are stated and proved over whole runs, and
an imperative level, where the source's loops, linked lists, buffers and counters are written as methods and
proved to do exactly the value-level step.

| area | files | main results |
|---|---|---|
| shared notions | `Basics.dfy`, `Chains.dfy` | optional values; lists threaded through a `next` field |
| copy-on-write | `CopyOnWrite.dfy`, `CowRefinement.dfy`, `CowKernel.dfy` | fork with shared pages refines eager copying; counts are exact; heaps without gaps |
| physical pages | `PageLocks.dfy`, `PageInit.dfy` | alloc, free and the counting calls of fork and of the fault handler under every interleaving of their statements; the list built at boot |
| Sv39 tables | `Sv39.dfy`, `PteBits.dfy`, `PageSpaces.dfy`, `PageTables.dfy` | three levels of tables refine a flat map; over every run tables, data pages and free pages stay apart with exact counts |
| user heap | `HeapBlocks.dfy`, `HeapInvariant.dfy`, `HeapRuns.dfy`, `HeapFree.dfy`, `HeapFrames.dfy`, `UserHeap.dfy` | disjointness, conservation, order, exact success of malloc; what a process owns, read off its calls; no header written inside a live payload |
| scheduling | `Sched.dfy`, `SchedProofs.dfy`, `SchedLaws.dfy`, `SemaphoreRuns.dfy`, `SchedKernel.dfy` | one place per process, what every entry does and to whom, how long a parent sleeps, the semaphore law read off the run, round-robin bound |
| RFS files | `RfsFile.dfy`, `RfsBlocks.dfy` | files refine byte sequences; which overwrites are exact |
| RFS directories | `Strings.dfy`, `RfsDir.dfy`, `RfsNames.dfy` | compaction removes exactly one entry, across blocks; the bytes of a directory as a listing of names |
| RFS volumes | `RfsVolume.dfy`, `RfsOwnership.dfy`, `RfsHandles.dfy`, `RfsContents.dfy`, `RfsMountViews.dfy`, `RfsMount.dfy` | link counts, caches, block ownership with its exact condition; over every run the bytes of the directories list the names, and the files hold the bytes, that users expect |
| paths | `StrTok.dfy`, `HashTable.dfy`, `Paths.dfy` | strtok, the hash table, what a path with dots means, lookup of the current directory's path |
| shell parser | `ShellParser.dfy` | the command list, rebuilt over its old nodes, flattens back to the words of the line |

Seven promises that one would expect do not hold of the source, and are answered by a condition under which
they do, in both directions:

* An overwrite in the middle of an RFS file is exact if and only if it does not stop inside a block that it
  began at the start (`RfsFile.OverwriteIsExact`). For the other writes `RfsFile.Tail` says which bytes appear.
* A block is marked used if and only if exactly one live inode has it, after exactly those runs in which no
  unlink removes the last name of a file whose block count differs between `stat` and `disk_stat`
  (`RfsOwnership.BlockOwnership`, `RfsOwnership.LosesWhen`, and the run in `RfsOwnership.LosingRunLoses`).
* A directory takes another entry if and only if it has fewer than 128 (`RfsVolume.RoomIsCount`,
  `RfsDir.RoomIsExact`). `rfs_add_direntry` never allocates a second block and does not check;
  `RfsDir.OverfullUnlink` says what a later unlink makes of an entry stored behind the block.
* malloc succeeds, with pages available, if and only if some free block fits or the rounded request is neither
  4056 nor 4064 bytes (`HeapRuns.MallocSucceeds`).
* A V reaches the panic in `semaphore_V` if and only if the semaphore started below zero and has had as many
  P as V operations since (`SemaphoreRuns.SemaphoreTheorem`, and the run in `SemaphoreRuns.PanicRun`).
* wait for a given child blocks if and only if it is a child of the caller, even a zombie; the caller then
  sleeps exactly as long as no child of its exits (`SchedLaws.WaitedIs`, `SchedLaws.SleepsOverRun`,
  `SchedLaws.WaitForZombieSleeps`).
* A physical page is on the free list, counted, or in the hands of one call, after exactly those interleavings
  in which no `dec_page_ref` of a fault handler finds its count at one (`PageLocks.PagesConserved`). Two
  handlers that both ask before either gives up lose the page (`PageLocks.RaceLosesPage`).

One guard of the source has no effect, and the model does not rely on it: the test for a full inode table
compares a pointer that is never null. For volumes of any size, creating a file or directory keeps the volume
in order if and only if a disk inode is free; without one the root's inode is overwritten
(`RfsMount.Mount.Create`, `RfsMountViews.SecondRoot`). With more inodes than data blocks, as in the source with
320 and 100, one is always free (`RfsMountViews.InodeLeft`).

Machine integers that matter are written out: the comparison of heap addresses is truncated to 32 bits, the
dentry hash wraps at 64 bits, page table words are 64-bit vectors. The number of harts, processes, pages and
blocks is arbitrary. A kernel panic is an outcome of the operation, not a precondition.

## Model

| member | source | states |
|---|---|---|
| CopyOnWrite.StepKeepsInv | kernel/sched.c:272-298 | growth, fork, store fault, store and unmap each keep the counts, the sharing bits and the free list consistent |
| CowRefinement.RunsKeepInv | kernel/strap.c:71-89 | every state of every run from boot is consistent |
| CowRefinement.ReadsAreExpected | kernel/sched.c:272-298 | over every run each process reads at every heap address what it last stored or inherited at fork, as if fork had copied every page |
| CowRefinement.SharingIsReadOnly | kernel/pmm.c:49-122 | a page's count is the number of entries that map it; mapped twice it is COW and not writable everywhere; writable means count one |
| CowRefinement.FaultThenStore | kernel/strap.c:71-89 | a store to a mapped heap page can go ahead at once or after exactly one handled fault |
| CowRefinement.TopsAreGrown | kernel/syscall.c:240-248 | over every run the top of a heap is its bottom plus the pages grown by the process and, before its fork, by its ancestors |
| CowRefinement.HeapHasNoGaps | kernel/sched.c:272-298 | over every run a process has exactly the pages between bottom and top that were not unmapped: growth skips none and fork leaves none out |
| CopyOnWrite.ForkPagesShare | kernel/sched.c:272-298 | the fork loop shares every heap page pointwise between parent and child and touches nothing else |
| CopyOnWrite.SoleMapper | kernel/strap.c:77-81 | a page with count one has one mapper, which is why the last owner may keep it |
| CowKernel.Kernel.IncPageRef | kernel/pmm.c:49-56 | the count of that page goes up by one, the others stay |
| CowKernel.Kernel.DecPageRef | kernel/pmm.c:58-67 | the count goes down by one and never below zero |
| CowKernel.Kernel.AllocPage | kernel/pmm.c:111-122 | takes the head of the free list with count one, or changes nothing when the list is empty |
| CowKernel.Kernel.FreePage | kernel/pmm.c:83-105 | gives up one reference; the page goes back to the list when it was the last |
| CowKernel.Kernel.GrowHeap | kernel/syscall.c:240-248 | maps a fresh writable page at the top of the heap, a Grow step, or fails without effect |
| CowKernel.Kernel.ForkHeap | kernel/sched.c:272-298 | the loop over the heap pages is the Fork step of the machine |
| CowKernel.Kernel.HandleStoreFault | kernel/strap.c:71-89 | the copy-on-write branch is the StoreFault step: reclaim when last, private copy when shared |
| CowKernel.Kernel.UnmapPage | kernel/vmm.c:193-216 | one round of the unmap loop is one Unmap step |
| CowKernel.Kernel.UserVmUnmap | kernel/vmm.c:193-216 | the loop is the sequence of Unmap steps up to the first page that is not mapped, where it panics; without one, for all its pages |
| PageLocks.BootIsInv | kernel/pmm.c:36-43 | the state at boot is consistent |
| PageLocks.StepKeepsInv | kernel/pmm.c:49-122 | every statement of alloc_page, free_page, inc_page_ref, get_page_ref and dec_page_ref, by any hart, keeps the allocator consistent |
| PageLocks.RunsKeepInv | kernel/lock.h:8-26 | every state of every interleaving of the lock sections is consistent |
| PageLocks.PagesConserved | kernel/pmm.c:49-122 | over every interleaving the free list has no page twice and a count is the number of references owned or carried; a page is in exactly one place, on the list, counted, or in the hands of one call, iff no dec_page_ref of the run found its count at one, and nowhere otherwise |
| PageLocks.PlacesAfter | kernel/pmm.c:49-122 | each statement moves a page between its places, but for the one of dec_page_ref that takes the last reference |
| PageLocks.RaceLosesPage | kernel/strap.c:77-80 | two handlers on a page with count two, both asking before either gives up, leave it with count zero and on no list |
| PageLocks.UndisturbedCount | kernel/strap.c:77-80 | the count of a page in use does not fall while nobody else gives a reference up, so a handler that is not overtaken drops nothing |
| PageLocks.AllocatedPageIsExclusive | kernel/pmm.c:111-122 | the page about to be returned has one reference, is not on the list, and no caller and no other hart has it |
| PageLocks.CountAfter | kernel/pmm.c:49-105 | free_page and dec_page_ref take exactly one off a positive count, inc_page_ref adds one, nothing else changes the count of a page in use |
| PageLocks.LastReleasePushes | kernel/pmm.c:83-105 | of k references given up exactly one free_page pushes the page, over every interleaving, iff k is the count and no dec_page_ref took the last one; fewer push it nowhere |
| PageLocks.SumsAfterStep | kernel/pmm.c:83-122 | references in transit are accounted for by the hart that moves, and by no other |
| PageLocks.NoDeadlock | kernel/lock.h:8-26 | while a call is in progress some hart in a call can make a step |
| PageInit.PagesDownAre | kernel/pmm.c:36-43 | the list built so far is exactly the aligned pages from the start up to the cursor |
| PageInit.PageList.FreePage | kernel/pmm.c:83-105 | panics exactly for an address that is no page of the memory; else pushes the page, or lowers a count above one |
| PageInit.PageList.InitPage | kernel/pmm.c:41-42 | one page goes on the list and all counts stay zero, although the loop indexes the counts by a count |
| PageInit.PageList.CreateFreePageList | kernel/pmm.c:36-43 | the initial list is exactly the aligned pages p with p + PGSIZE below the end, highest first |
| Sv39.IndicesAreInjective | kernel/riscv.h:220-230 | below MAXVA the three table indices determine the page |
| Sv39.LowTablePlace | kernel/vmm.c:57-90 | a walk ends in the table that hangs at the two upper indices of its own root |
| Sv39.LeafWrite | kernel/vmm.c:57-107 | writing a leaf word changes the flat view of its own page of its own address space and of nothing else |
| Sv39.LeafAfterNewTable | kernel/vmm.c:76-82 | hanging a zeroed page into an empty upper entry changes no translation |
| Sv39.NewTableKeepsForest | kernel/vmm.c:76-82 | a new table page keeps the tables a forest of trees apart from the free pages |
| Sv39.NewRootKeepsForest | kernel/process.c:125-127 | a new page directory is a tree of its own in the forest |
| Sv39.LeafAfterNewRoot | kernel/process.c:125-127 | a new page directory maps nothing and changes no translation |
| Sv39.MappedTranslates | kernel/vmm.c:95-178 | after mapping, lookup_pa and user_va_to_pa give consecutive addresses inside the range and the old ones everywhere else |
| Sv39.RangeTranslates | kernel/vmm.c:21-178 | every byte of a mapped range translates to the physical address at the same distance, every address on a page without a byte of the range as before, in every address space |
| Sv39.TouchedIs | kernel/vmm.c:29-30 | a page holds a byte of the range iff its number lies between those of the first and the last byte |
| Sv39.UnmappedTranslates | kernel/vmm.c:193-216 | after unmapping, the pages of the range translate to nothing and all others as before |
| PageSpaces.TablesAndDataApart | kernel/vmm.c:21-90 | over every run of new address spaces, fresh and shared mappings, and unmapping with and without reclaim: the tables are disjoint trees, the frame of an entry with a reference is neither a table nor free, every count is the number of references, and the free list is exactly the pages without one |
| PageSpaces.StepKeepsInv | kernel/vmm.c:21-216 | every step keeps tables, data pages, counts and the free list consistent |
| PageSpaces.RunsKeepInv | kernel/vmm.c:21-216 | every state of every run is consistent |
| PageSpaces.BootIsInv | kernel/pmm.c:36-43 | the memory at boot is consistent |
| PageSpaces.OwnedApart | kernel/vmm.c:210-213 | a frame that an entry has a reference to is neither a table nor free |
| PageSpaces.MapKeepsInv | kernel/vmm.c:31-35 | handing a reference to a leaf entry keeps the counts exact and the tables a forest |
| PageSpaces.UnmapKeepsInv | kernel/vmm.c:204-214 | clearing an entry gives its reference back, and a frame with its last reference to the list that tables come from |
| PageTables.Mmu.NewSpace | kernel/process.c:125-127 | a page directory in which nothing is mapped, and every other translation as it was |
| PageTables.Mmu.AllocData | kernel/pmm.c:111-122 | a data page is an Alloc step: nothing else had a reference to it |
| PageTables.Mmu.ShareFrame | kernel/pmm.c:49-56 | one more reference is a Share step |
| PageTables.Mmu.ReleaseFrame | kernel/pmm.c:83-105 | one reference less is a Release step |
| PageTables.Mmu.Descend | kernel/vmm.c:66-86 | one level down, with a new table only where one is missing and wanted, all translations unchanged |
| PageTables.Mmu.PageWalk | kernel/vmm.c:57-90 | a panic exactly at or above MAXVA; else the slot of the leaf word with no translation changed, missing only without tables, or without pages for them |
| PageTables.Mmu.SetLeaf | kernel/vmm.c:35 | storing through the slot rewrites exactly that page's entry |
| PageTables.Mmu.ClearLeaf | kernel/vmm.c:210-214 | free_page and the store of zero clear exactly that page's entry |
| PageTables.Mmu.MapOne | kernel/vmm.c:31-35 | one round of the loop, with its panic and its failure |
| PageTables.Mmu.MapPages | kernel/vmm.c:21-38 | on success every byte of the range, and no other page, is mapped to the frame at its distance; otherwise exactly the pages up to the panic or the exhaustion, in order; the references handed to entries are exactly theirs and all others stay; a panic exactly at MAXVA or a page already mapped; consistent throughout |
| PageTables.Mmu.MapEach | kernel/vmm.c:29-36 | the loop, page by page |
| PageTables.AllMapped | kernel/vmm.c:29-36 | the pages counted by the loop are those of all bytes of the range |
| PageTables.EmptyRange | kernel/vmm.c:29-30 | a range without bytes still has one page, unless it starts on a page boundary |
| PageTables.HandedAt | kernel/vmm.c:31-35 | the entries of the range own consecutive frames afterwards; every other entry owns what it did |
| PageTables.ReleasedAt | kernel/vmm.c:31-35 | the caller has one reference less to each frame of the range and as many as before to every other |
| PageTables.Mmu.UnmapOne | kernel/vmm.c:204-214 | one round of the loop is one unmap step, or a panic |
| PageTables.Mmu.UserVmUnmap | kernel/vmm.c:193-216 | exactly the pages of the range are cleared and their frames released through free_page, one unmap step a page; each panic with its cause |
| PteBits.EntryRoundTrip | kernel/riscv.h:211-218 | PTE2PA and PTE_FLAGS undo PA2PTE and the flag bits on 64-bit words |
| PteBits.ForkWord | kernel/sched.c:280-284 | the shared entry has COW set, W clear, and the same page and other flags |
| PteBits.FaultWord | kernel/strap.c:82-85 | the private entry has W set, COW clear, the new page and the other flags |
| PteBits.IndicesRoundTrip | kernel/riscv.h:220-224 | the shifts and masks of PX give the three digits of the page number |
| HeapBlocks.CompareIsOrder | kernel/process.c:292-294 | below the stack the difference truncated to int is the order of the addresses |
| HeapBlocks.CompareIsExact | kernel/process.c:292-294 | for any two addresses the truncated difference is the true one iff that fits an int |
| HeapBlocks.CompareCanFail | kernel/process.c:292-294 | for addresses 2 GB apart the truncated difference has the wrong sign |
| HeapBlocks.FitIndexFits | kernel/process.c:394-452 | the scan finds the first block of size n or at least n + 24, and none only if none fits |
| HeapInvariant.InsertKeepsOrder | kernel/process.c:297-338 | sorting a new block in keeps the list strictly ascending and disjoint and adds its bytes |
| HeapInvariant.SortIsDropEmpty | kernel/process.c:341-353 | resorting an ordered list only drops zero-payload blocks behind the first |
| HeapInvariant.MergeKeeps | kernel/process.c:361-384 | merging keeps the covered bytes and leaves no two neighbours that touch and start in the same page, by addresses |
| HeapInvariant.MergeableIs | kernel/process.c:372-374 | the test by page hashes is the test for the same page |
| HeapRuns.MergeFreeKeeps | kernel/process.c:361-384 | the sort, the merge and the second sort together lose 24 bytes per dropped block and nothing else |
| HeapRuns.FreeKeepsInv | kernel/process.c:458-506 | free keeps the heap well formed and leaves the free list merged |
| HeapFree.FreeReleases | kernel/process.c:458-506 | free takes exactly the block at the address off the allocated list, keeps every other one in place and size, and makes exactly its bytes free besides those that were, up to the headers of empty blocks |
| HeapFree.FreeIsExact | kernel/process.c:458-486 | free panics exactly for an address at which no allocated block's payload starts |
| HeapFree.MergeCovers | kernel/process.c:369-381 | the merge pass changes no byte from free to not free or back |
| HeapFree.MergeFreeCovers | kernel/process.c:361-384 | sort, merge and sort free no byte and take none from a block with a payload |
| HeapRuns.MallocKeepsInv | kernel/syscall.c:222-355 | malloc, on every path, keeps the heap well formed while it stays below the stack |
| HeapRuns.FirstFitResult | kernel/process.c:387-455 | first fit fails exactly when nothing fits, changes nothing then, and otherwise hands out one block of the exact size |
| HeapRuns.FirstFitIsLowest | kernel/process.c:387-455 | the block handed out is the lowest-addressed free block that fits |
| HeapRuns.MallocAddsOne | kernel/syscall.c:222-355 | a successful malloc adds one block of the rounded size and touches no other allocation; a failed one touches none |
| HeapRuns.MallocSucceeds | kernel/syscall.c:222-355 | with pages available malloc succeeds iff some free block fits or the rounded request is neither 4056 nor 4064 |
| HeapRuns.MallocGrowth | kernel/syscall.c:222-355 | pages are mapped only if nothing fits: one for a request below a page, else enough for the missing bytes and less than two pages more |
| HeapRuns.MallocCanFail | kernel/syscall.c:234-265 | a request of 4056 bytes on an empty heap fails although every page is available |
| HeapRuns.RunsKeepInv | kernel/syscall.c:222-389 | every state of every run of malloc and free is well formed |
| HeapRuns.HeapTheorem | kernel/process.c:387-506 | over every run: all blocks inside the heap and pairwise disjoint, the free list strictly ascending, block bytes plus 24 per dropped block equal to the heap's extent, and the list merged after a free |
| HeapFree.OwnedOverRun | kernel/syscall.c:222-389 | over every run the allocated blocks are exactly the addresses returned and not freed since, with the rounded sizes asked for |
| HeapFree.OwnershipTheorem | kernel/syscall.c:222-389 | over every run the byte ranges a process owns lie inside the heap and are pairwise disjoint, and a free succeeds exactly for the addresses it owns |
| UserHeap.HeapManager.constructor | kernel/process.c:170-175 | a new process has an empty heap |
| UserHeap.HeapManager.Unlink | kernel/process.c:508-523 | the block leaves the list, the rest keeps its order |
| UserHeap.HeapManager.FindSpot | kernel/process.c:324-328 | the scan stops at the first block not below the item, with its predecessor |
| UserHeap.HeapManager.Splice | kernel/process.c:319-337 | the item is linked in at its place in the order |
| UserHeap.HeapManager.SortPdListAscend | kernel/process.c:297-338 | the changed head goes to its place, or is dropped when empty and not alone |
| UserHeap.HeapManager.InsertFreeBlock | kernel/process.c:278-290 | the linked list becomes the sorted insertion of the block |
| UserHeap.HeapManager.SortFreeListAscend | kernel/process.c:341-353 | repeated insertion computes Sort of the list |
| UserHeap.HeapManager.Absorb | kernel/process.c:371-377 | joining two neighbours keeps the result of the pass and writes only the left header |
| UserHeap.HeapManager.MergeNeighbours | kernel/process.c:369-381 | the loop over neighbours computes MergePass on the blocks |
| UserHeap.HeapManager.MergeFreeBlocks | kernel/process.c:361-384 | sort, merge, sort again on the linked list is MergeFree on the blocks |
| UserHeap.HeapManager.FindFit | kernel/process.c:391-418 | the scan returns the first fitting block and its predecessor |
| UserHeap.HeapManager.PushAllocated | kernel/process.c:265-275 | the block becomes the head of the allocated list |
| UserHeap.HeapManager.TakeWhole | kernel/process.c:395-413 | an exact fit moves from the free to the allocated list |
| UserHeap.HeapManager.TakePart | kernel/process.c:418-451 | a split hands out the front and leaves the rest free in its place |
| UserHeap.HeapManager.FirstFitAlloc | kernel/process.c:387-455 | the list code computes FirstFit on both lists |
| UserHeap.HeapManager.Release | kernel/process.c:489-496 | putting a block back sorts it in, merges, and counts what is dropped |
| UserHeap.HeapManager.FreeMem | kernel/syscall.c:367-389 | free releases exactly the block that malloc returned for the address, and for any other address it panics and changes nothing; no header word inside the payload of a block that stays allocated is written |
| UserHeap.HeapManager.AddFreeBlock | kernel/process.c:278-290 | a fresh header joins the free list and no other block moves |
| UserHeap.HeapManager.AddPage | kernel/syscall.c:240-257 | single-page growth: one more page at the top as one free block |
| UserHeap.HeapManager.FindHighest | kernel/syscall.c:277-282 | the free block with the highest address |
| UserHeap.HeapManager.AddPages | kernel/syscall.c:309-325 | the loop maps exactly the pages needed for the missing bytes |
| UserHeap.HeapManager.GrowLarge | kernel/syscall.c:276-353 | multi-page growth, onto the topmost free block or afresh, is GrowMulti on the heap |
| UserHeap.HeapManager.AllocateMem | kernel/syscall.c:222-355 | the whole entry is Malloc on the heap, result and new lists, and writes no header word inside the payload of an allocated block |
| UserHeap.HeapManager.FitInPage | kernel/syscall.c:234-265 | a page more and a second search, with all live payloads kept |
| UserHeap.HeapManager.FitInPages | kernel/syscall.c:276-353 | multi-page growth keeps all live payloads |
| UserHeap.HeapManager.FreeBlock | kernel/process.c:458-506 | the block found, and no other, is freed by writing headers of the two lists only |
| HeapFrames.HeadersKeepPayloads | kernel/process.c:387-506 | headers written only at blocks of the heap before or after, behind an allocated block or above the heap overlap no live payload |
| HeapFrames.MineIsOutside | kernel/process.c:387-506 | in a well-formed heap no such header overlaps the payload of an allocated block |
| SchedProofs.StepKeepsPlaces | kernel/sched.c:33-146 | every kernel entry keeps every process in exactly one place |
| SchedProofs.StepKeepsInv | kernel/sched.c:155-246 | places, tick counts and semaphore queues stay consistent under load, fork, yield, tick, wait, reap, exit, P, V and dispatch |
| SchedProofs.BootIsInv | kernel/process.c:87-95 | the pool as it is initialised, all processes FREE and all queues empty, is consistent |
| SchedProofs.RunsKeepInv | kernel/kernel.c:172-177 | every state of every run, from loading the first programs on, is consistent |
| SchedProofs.OnePlace | kernel/sched.c:33-146 | over every run a process is on at most one queue, READY on a ready queue, BLOCKED on a block queue, RUNNING current on exactly one hart |
| SemaphoreRuns.SemaphoreTheorem | kernel/semaphore.c:70-103 | over every run from boot, with the P and V events, the initial values, the sleepers and the woken all read off the run: value = initial - #P + #V, the queue is the sleepers not yet woken, woken in the order they slept, the P operations let through are min(#P, max(initial, 0) + #V), and V panics iff initial < 0 and #P = #V |
| SemaphoreRuns.PanicRun | kernel/semaphore.c:86-103 | after loading a program, dispatching it and making a semaphore with -1, a V panics |
| SemaphoreRuns.PAccounts | kernel/semaphore.c:70-84 | a P lowers the value by one and puts the caller to sleep at the tail exactly when it becomes negative |
| SemaphoreRuns.VAccounts | kernel/semaphore.c:86-103 | a V raises the value by one and makes the head of the queue ready, or nobody |
| SemaphoreRuns.OldSemaphore | kernel/semaphore.c:70-103 | the same law from any consistent state on |
| SemaphoreRuns.NewSemaphore | kernel/semaphore.c:38-51 | the same law for a semaphore created during the run |
| SchedProofs.StepAdvances | kernel/strap.c:109-124 | every step leaves a waiting process at least as close to the processor, and each tick of its hart brings it closer |
| SchedProofs.PatienceBound | kernel/strap.c:109-124 | the ticks left to wait bound the ticks until dispatch, from any consistent state |
| SchedProofs.RoundRobin | kernel/sched.c:237-241 | in every run the process at index k of a ready queue is dispatched within 2(k+1) ticks of its hart |
| SchedLaws.ExitWakesParent | kernel/syscall.c:155-217 | a parent asleep on a hart's wait queue leaves it, the others in their order, and is READY at the tail of that hart's ready queue, or runs at once where it is the only one; the exiting process is a ZOMBIE; every other queue and status stays but for the dispatch |
| SchedLaws.ExitWakesNobody | kernel/syscall.c:155-217 | without a parent asleep, exit wakes nobody |
| SchedLaws.SleepsUntilChildExits | kernel/sched.c:352-388 | a process asleep in wait stays asleep in a step iff the step is no exit of a child of its |
| SchedLaws.SleepsOverRun | kernel/sched.c:352-388 | over every run a process asleep in wait sleeps on exactly as long as no child of its exits |
| SchedLaws.WaitedIs | kernel/sched.c:352-388 | wait is refused exactly without the child asked for, reaps exactly the first child in use if it is a zombie and any will do, and blocks otherwise |
| SchedLaws.WaitForZombieSleeps | kernel/sched.c:356-363 | waiting by number for a child that is a zombie already sleeps through every run in which no other child exits |
| SchedLaws.WaitLaw | kernel/sched.c:382-386 | the caller sleeps at the tail of its hart's wait queue and the next process runs; nothing else changes |
| SchedLaws.YieldLaw | kernel/syscall.c:429-441 | the caller goes behind those that wait for its hart and the first of them runs; nothing else changes |
| SchedLaws.TickLaw | kernel/strap.c:109-124 | the first tick of a slice is counted, the second yields; nothing else changes |
| SchedLaws.ForkLaw | kernel/sched.c:344-349 | the child is READY at the tail of a ready queue with the caller as its parent; the caller goes on |
| SchedLaws.LoadLaw | kernel/kernel.c:172-177 | a loaded program is READY at the tail of its hart's queue, without a parent |
| SchedLaws.ReapLaw | kernel/sched.c:370-374 | the zombie's slot is FREE and nothing else changes |
| SchedLaws.DispatchLaw | kernel/sched.c:155-246 | an idle hart runs the first process that waits for it; nothing else changes |
| SchedLaws.PLaw | kernel/semaphore.c:70-84 | P lowers the value; from a value that is not positive the caller sleeps at the tail of the queue, else nothing else changes |
| SchedLaws.VLaw | kernel/semaphore.c:86-103 | V raises the value; from a negative one the longest sleeper is READY at the tail of the queue of the caller's hart, and nothing else changes |
| SchedKernel.Kernel.constructor | kernel/process.c:87-95 | the pool and the queue heads at start are the state in which all runs begin |
| SchedKernel.Kernel.FindTail | kernel/sched.c:52-66 | the scan ends at the last process, or reports that the process is there already |
| SchedKernel.Kernel.Append | kernel/sched.c:33-95 | a process not on the queue goes to its tail; one already there changes nothing |
| SchedKernel.Kernel.RemoveFrom | kernel/sched.c:97-118 | the process leaves the queue and the order of the others is kept |
| SchedKernel.Kernel.Cut | kernel/sched.c:97-118 | unlinking position i relinks that queue and no other |
| SchedKernel.Kernel.InsertToReadyQueue | kernel/sched.c:33-73 | the process joins the tail of the target hart's queue |
| SchedKernel.Kernel.InsertToBlockQueue | kernel/sched.c:75-95 | the process joins the tail of the block queue as BLOCKED |
| SchedKernel.Kernel.Dispatch | kernel/sched.c:155-246 | the hart takes the head of its ready queue, or goes idle |
| SchedKernel.Kernel.YieldEntry | kernel/syscall.c:429-441 | yield is the Yield step: tail of the own ready queue, then schedule |
| SchedKernel.Kernel.Rrsched | kernel/strap.c:109-124 | a tick counts up, or at the end of the slice parks the process and schedules |
| SchedKernel.Kernel.WaitEntry | kernel/sched.c:352-388 | refused, with -1, exactly without the child asked for; with -1 as argument the first child is reaped if it is a zombie, the Reap step; else the process parks on its hart's wait queue, the Wait step |
| SchedKernel.Kernel.LoadEntry | kernel/kernel.c:172-177 | a loaded program joins its ready queue: the Load step |
| SchedKernel.Kernel.ForkEntry | kernel/sched.c:344-349 | the child, with its parent, joins a ready queue: the Fork step |
| SchedKernel.Kernel.SemNewEntry | kernel/syscall.c:448-455 | a new semaphore has the given value and an empty queue: the SemNew step |
| SchedKernel.Kernel.SemaphoreP | kernel/semaphore.c:70-84 | P lowers the value and parks the caller exactly when it becomes negative |
| SchedKernel.Kernel.Wake | kernel/sched.c:120-146 | a woken process leaves its block queue and joins a ready queue |
| SchedKernel.Kernel.SemaphoreV | kernel/semaphore.c:86-103 | V raises the value and wakes the longest-blocked waiter, or panics without one |
| SchedKernel.Kernel.ExitEntry | kernel/syscall.c:155-217 | exit is the Exit step, whose law is ExitWakesParent: a waiting parent wakes, a zombie is left and the hart schedules |
| SchedKernel.Kernel.WakeWaiting | kernel/syscall.c:155-217 | the search over all wait queues wakes exactly the waiting parent |
| RfsFile.ProgressPatch | kernel/rfs.c:385-424 | writing the next bytes into a block extends the written prefix and keeps all other old bytes |
| RfsFile.ProgressGrow | kernel/rfs.c:402-406 | a new block at the end of the file keeps what has been written |
| RfsFile.ProgressDone | kernel/rfs.c:368-433 | a finished write leaves the old bytes with the buffer laid over them |
| RfsFile.OverwriteIsExact | kernel/rfs.c:385-425 | old bytes overlaid by the buffer, for all contents, iff the write does not stop inside a block begun at its start |
| RfsFile.WriteToTheEnd | kernel/rfs.c:368-433 | a write that reaches the end of the file or past it yields old[..offset] + buf |
| RfsFile.ReadBack | kernel/rfs.c:310-433 | reading back at the offset of any write of NUL-free bytes returns them |
| RfsFile.ReadIsExpected | kernel/rfs.c:310-363 | a read returns the bytes at the offset, none of them zero, as many as asked for unless the file ends or a zero follows |
| RfsFile.ReadIsUnique | kernel/rfs.c:310-363 | there is only one such answer |
| RfsFile.WholeRead | kernel/rfs.c:316-359 | asked for at least its size, a file without zeros is read in whole |
| RfsFile.WrittenAt | kernel/rfs.c:368-433 | every byte of the file after a write: the buffer where it was laid, the old bytes elsewhere, and in the last block of an inexact write what the block buffer held or the bytes one block earlier |
| RfsFile.UpToNulUnique | kernel/rfs.c:358-359 | what strcpy copies is determined by the first NUL |
| RfsBlocks.FreeCountAfter | kernel/rfs.c:187-200 | taking a block lowers the number of free ones by one |
| RfsBlocks.Volume.ReadBlock | kernel/ramdev.c:31-37 | the buffer gets the block, or a panic outside the disk |
| RfsBlocks.Volume.WriteBlock | kernel/ramdev.c:20-26 | the block gets the buffer and no other block changes, or a panic outside the disk |
| RfsBlocks.Volume.AllocBlock | kernel/rfs.c:187-200 | marks the lowest free block, and panics exactly when none is free |
| RfsBlocks.Volume.FreeBlock | kernel/rfs.c:205-209 | clears exactly that entry of the free map |
| RfsBlocks.Volume.NeedBlock | kernel/rfs.c:402-420 | a block past the end of the file is taken from the free map, an existing one is reused |
| RfsBlocks.Volume.FirstBlock | kernel/rfs.c:385-394 | the unaligned first block is patched in place |
| RfsBlocks.Volume.FullBlock | kernel/rfs.c:401-414 | one full block is written and stays in the block buffer |
| RfsBlocks.Volume.LastBlock | kernel/rfs.c:416-424 | the rest of the bytes, followed by what the block buffer held |
| RfsBlocks.Volume.Write | kernel/rfs.c:368-433 | panics iff the offset is past the end or the free blocks do not suffice; else the file holds Written, only its own and formerly free blocks change, and it grows by exactly the blocks needed |
| RfsBlocks.Volume.Gather | kernel/rfs.c:320-356 | the bytes collected block by block are that slice of the file |
| RfsBlocks.Volume.Read | kernel/rfs.c:310-363 | the bytes at the offset, none of them zero, as many as asked for unless the file ends or a zero follows; panics exactly for an offset past the end, or at the end on a block boundary without a valid next address |
| RfsBlocks.CopyString | util/string.c:58-62 | copies the bytes before the first NUL |
| RfsBlocks.OtherFilesKept | kernel/rfs.c:368-433 | a write leaves the blocks and bytes of a file with other blocks as they were; that files never share blocks is RfsOwnership.BlockOwnership |
| Strings.MemMove | util/string.c:123-137 | memmove is right for every overlap of source and destination |
| Strings.MoveBackwards | util/string.c:129-133 | the downward copy is right when the destination starts above the source |
| Strings.MoveForwards | util/string.c:134-135 | the upward copy is right when the destination does not start inside the source |
| Strings.StrCmp | util/string.c:47-56 | zero exactly for equal strings, else the difference of the first bytes that differ |
| RfsDir.CutFirst | kernel/rfs.c:672-679 | the block with the deleted entry, after memmove |
| RfsDir.FillLast | kernel/rfs.c:689-692 | the first entry of the next block completes the previous one |
| RfsDir.CutNext | kernel/rfs.c:694-696 | a following block moves forward by one entry |
| RfsDir.CompactingEnds | kernel/rfs.c:670-717 | blocks shifted this way hold the old directory with one entry cut out |
| RfsDir.CutEntries | kernel/rfs.c:670-717 | entries before the deleted one stay, those behind it move up by one, in order |
| RfsDir.Shrunk | kernel/rfs.c:712-720 | how the number of blocks follows the number of entries |
| RfsDir.CutEntry | kernel/rfs.c:670-710 | the loop over the blocks compacts the directory and touches no other block |
| RfsDir.CutBlock | kernel/rfs.c:684-705 | one round of the loop |
| RfsDir.RemoveEntry | kernel/rfs.c:670-729 | exactly the deleted entry is gone, and the last block is freed exactly when it became empty and is not the only one |
| RfsDir.EntryReads | kernel/rfs.c:227-231 | the inode number and name written into an entry are what a lookup reads |
| RfsDir.AddEntry | kernel/rfs.c:214-249 | the entry is appended and nothing else changes |
| RfsDir.RoomIsExact | kernel/rfs.c:214-249 | a directory with one entry more is in order iff its last block had room |
| RfsDir.OverfullUnlink | kernel/rfs.c:670-720 | with an entry stored behind the last block, an unlink leaves the last entry of the block there twice and the one behind it out |
| RfsDir.FindEntry | kernel/rfs.c:445-465 | the index of the first entry with the name, or the number of entries |
| RfsNames.CodedReads | kernel/rfs.c:227-231 | a name of at most 27 bytes other than NUL is what the entry written for it reads as |
| RfsNames.ListsAppend | kernel/rfs.c:214-249 | a directory listing its names lists the new one too after an entry is appended, each name once |
| RfsNames.ListsCut | kernel/rfs.c:670-717 | after an entry is cut out the directory lists all names but that one |
| RfsNames.FindDecides | kernel/rfs.c:445-465 | the scan of the entries finds the inode of the name, and nothing exactly if the directory has no such name |
| RfsVolume.PlaceUnique | kernel/vfs.c:670-713 | no two cached dentries stand for the same directory entry |
| RfsVolume.DirsFoundOnce | kernel/vfs.c:572-601 | a directory loaded by a lookup was not cached before |
| RfsVolume.NoEntryNoRef | kernel/vfs.c:368-376 | the last name of a file has the only dentry that refers to it |
| RfsVolume.LookupKeepsInv | kernel/vfs.c:572-601 | a lookup shares a cached vinode or loads one, and keeps the invariant |
| RfsVolume.MakeKeepsInv | kernel/rfs.c:472-527 | create and mkdir keep the invariant |
| RfsVolume.CloseKeepsInv | kernel/vfs.c:384-420 | close, with its write-back, keeps the invariant |
| RfsVolume.LinkKeepsInv | kernel/rfs.c:586-611 | link keeps the invariant |
| RfsVolume.UnlinkKeepsInv | kernel/rfs.c:616-729 | unlink never panics and keeps the invariant |
| RfsVolume.UnlinkIsSafe | kernel/rfs.c:644-668 | neither assertion of unlink fires, and the inode is freed exactly when its last entry goes |
| RfsVolume.StepKeepsInv | kernel/vfs.c:133-420 | every operation keeps link counts, reference counts and both caches consistent, without a panic |
| RfsVolume.StepKeepsLengths | kernel/rfs.c:214-729 | every operation keeps a directory's length at 32 bytes per name in it, in vinode and disk inode |
| RfsVolume.RoomIsCount | kernel/rfs.c:214-249 | there is room for an entry iff the directory has fewer than 128 names |
| RfsOwnership.StepOrphans | kernel/rfs.c:658-667 | an operation orphans exactly the blocks that it loses |
| RfsOwnership.LosesWhen | kernel/rfs.c:658-667 | an unlink loses blocks iff it removes the last name of a closed file whose vinode and disk inode differ in their block counts |
| RfsOwnership.RunsKeepInv | kernel/rfs.c:187-209 | over every run orphans only grow, and only by losing steps |
| RfsOwnership.BlockOwnership | kernel/rfs.c:98-115 | from a formatted volume, a block is marked used iff a live inode has it, after exactly the runs without a losing unlink; never do two inodes have one block |
| RfsOwnership.LinkCounts | kernel/rfs.c:586-668 | over every run a file's link count is the number of entries naming it and a directory's length 32 bytes per name in it, in vinode and disk inode alike, each inode has at most one cached vinode, and reference counts are exact |
| RfsHandles.StepOpens | kernel/vfs.c:384-420 | every call changes the open counter of a name by the handles it gives out and takes back |
| RfsHandles.HandlesTheorem | kernel/vfs.c:384-420 | over every run the open counter of a cached name is the number of its opens and creations less its closes, and a name that is not cached has no handle left |
| RfsOwnership.LosingRunLoses | kernel/vfs.c:384-420 | linking an open file, writing, closing and unlinking both names leaves a used block without an owner |
| RfsContents.FilesTheorem | kernel/rfs.c:310-729 | over every run of create, mkdir, lookup, open, write, close, link and unlink on a fresh volume: the bytes of every directory, read entry by entry, are the names created or linked in it and not unlinked, each once with its inode; a file is there exactly while it has a name; and every file reads as the bytes its writes left, through any of its names |
| RfsContents.ReadsAfterRun | kernel/rfs.c:310-433 | after every run, whatever is read through a cached name is read from the bytes that the writes under any name left, and in whole by asking for the size if they have no zero |
| RfsContents.TidyIsExact | kernel/rfs.c:385-425 | in runs without a write that stops inside a block begun at its start, the bytes are the plain overlay of the writes |
| RfsContents.CallHolds | kernel/vfs.c:133-420 | every operation does to names and bytes what users expect of it, and none panics |
| RfsContents.ManageHolds | kernel/vfs.c:133-420 | the operations other than write change no byte of any file and rewrite the bytes of the one directory they name |
| RfsContents.OpHolds | kernel/vfs.c:133-420 | an operation has to account for the inodes it changes; all others keep their bytes and listings |
| RfsContents.AddedIsGood | kernel/rfs.c:214-249 | the entry written into the directory's block makes it list the new name |
| RfsContents.RemovedIsGood | kernel/rfs.c:670-729 | the compacted block lists the names that are left |
| RfsContents.PutHolds | kernel/rfs.c:368-433 | a write replaces bytes of its file and leaves every other file alone |
| RfsContents.UnlinkKeepsFiles | kernel/rfs.c:616-668 | unlink takes the file away exactly when it takes its last name |
| RfsContents.BlocksApart | kernel/rfs.c:187-200 | no block belongs to two inodes, directories included |
| RfsContents.WriteSpares | kernel/rfs.c:368-433 | the blocks a write changes or takes belong to no other file |
| RfsMount.Mount.Format | kernel/rfs.c:63-128 | after format and mount, arrays, tables and disk stand for the fresh volume |
| RfsMount.Mount.FindInode | kernel/rfs.c:477-486 | the lowest free disk inode, or 0 when none is free |
| RfsMount.Mount.FindName | kernel/rfs.c:436-467 | the scan of the directory's blocks returns the inode of the name, none exactly if the directory has no such name |
| RfsMount.Mount.Lookup | kernel/vfs.c:572-601 | through the hash tables, the directory's entries and the inode array it is the Lookup step; found exactly if the directory has the name |
| RfsMount.Mount.Create | kernel/rfs.c:472-527 | with the searches of inode array and free map and the entry written into the directory's block it is the Make step if an inode is free, panics exactly without a free block, and breaks the volume exactly without a free inode |
| RfsMount.Mount.MakeNode | kernel/rfs.c:472-520 | inode, block and directory entry on disk |
| RfsMount.Mount.AddName | kernel/rfs.c:214-249 | the entry goes behind the last one of the directory and its length is written back; nothing else changes |
| RfsMountViews.SecondRoot | kernel/rfs.c:477-490 | a second vinode for the root's inode always breaks the volume |
| RfsMountViews.InodeLeft | kernel/rfs.c:70-74 | with more inodes than data blocks some inode is always free |
| RfsMount.Mount.OpenFile | kernel/vfs.c:629-640 | the code path of open is the Open step |
| RfsMount.Mount.CloseFile | kernel/vfs.c:384-420 | the code path of close, with write-back and both tables, is the Close step; the vinode is dropped exactly on the last close of its only dentry |
| RfsMount.Mount.LinkFile | kernel/vfs.c:287-331 | the code path of link, with directory entry, write-back and dentry table, is the Link step |
| RfsMount.Mount.LinkNode | kernel/rfs.c:586-611 | one link more in vinode and disk inode, and the entry in the directory's block |
| RfsMount.Mount.UnlinkFile | kernel/vfs.c:337-379 | the code path of unlink, with both assertions in place and the directory compacted, is the Unlink step, refused exactly while the file is open under the name |
| RfsMount.Mount.UnlinkOnDisk | kernel/rfs.c:644-668 | one link less on disk and in memory; at zero the disk inode and its blocks are free |
| RfsMount.Mount.CutLink | kernel/rfs.c:644-729 | the disk's part of unlink: links, inode, blocks and directory entry |
| RfsMount.Mount.UnlinkNode | kernel/vfs.c:356-379 | the disk's part and then the caches', with every part of the volume afterwards |
| RfsMount.Mount.RemoveName | kernel/rfs.c:670-729 | the compaction takes the entry out of the directory's bytes and its length is written back; no block is freed |
| RfsMount.Mount.FreeBlocks | kernel/rfs.c:659-662 | the loop clears exactly the listed blocks in the free map |
| RfsMount.Mount.WriteFile | kernel/rfs.c:368-433 | writing an open file is the Put step on the volume; panics iff the offset is past the end or the free blocks do not suffice |
| RfsMount.Mount.ReadFile | kernel/rfs.c:310-363 | reading returns the bytes of the file at the offset, as many as asked for unless the file ends or a zero follows, moves the offset by the clipped length and changes nothing else |
| StrTok.TokensStep | util/string.c:79-95 | skipping delimiters and taking a word splits off the first token |
| StrTok.NextWord | util/string.c:79-95 | after the cut the buffer holds the word, and the rest still has the remaining tokens |
| StrTok.Tokenizer.Begin | util/string.c:75-97 | the first call returns the first token of the string |
| StrTok.Tokenizer.Next | util/string.c:75-97 | each further call returns the next token, NULL exactly at the end, and leaves earlier words alone |
| HashTables.HashTable.constructor | util/hash_table.c:46-59 | an empty map |
| HashTables.HashTable.Get | util/hash_table.c:21-30 | the value of the key in the finite map, or none |
| HashTables.HashTable.Put | util/hash_table.c:7-19 | adds the key, refused exactly if it is present |
| HashTables.HashTable.Erase | util/hash_table.c:32-44 | removes the key, failing exactly if it is absent |
| HashTables.AddedOk | util/hash_table.c:13-17 | linking a node behind its bucket head keeps all chains and adds one key |
| HashTables.DroppedOk | util/hash_table.c:35-41 | unlinking a node keeps all chains and removes one key |
| HashTables.WalkEnds | util/hash_table.c:21-30 | a walk that meets the key, or the end, decides membership in the map |
| Paths.ComputeDentryHash | kernel/vfs.c:679-690 | the loop computes the hash with 64-bit wrap-around |
| Paths.TokensOfJoined | util/string.c:75-97 | strtok undoes the joining of names with slashes |
| Paths.WalkOneMore | kernel/vfs.c:558-605 | one more component continues the walk from where it ended |
| Paths.WalkAppend | kernel/vfs.c:558-605 | a walk over two parts of a path is the second walk from where the first ended |
| Paths.WalkGrows | kernel/vfs.c:572-601 | a path that led somewhere leads there still after more names are cached |
| Paths.WalkDown | kernel/vfs.c:558-605 | walking the names on the way to a cached dentry leads to it |
| Paths.WalkNormalizes | kernel/vfs.c:558-605 | where a lookup ends has the names that the path means: those of where it began, with a name added, one taken back for ".." and none at the root |
| Paths.DownAndUp | kernel/vfs.c:562-566 | into a directory and ".." leads back |
| Paths.UpFromRoot | kernel/vfs.c:562-566 | ".." at the root stays at the root |
| Paths.UpToTheRoot | kernel/vfs.c:562-566 | as many times ".." as a dentry is deep lead to the root, and fewer do not |
| Paths.NamesKept | kernel/vfs.c:572-601 | loading more names changes the names of no cached dentry |
| Paths.PathRoundTrip | kernel/proc_file.c:242-273 | looking up the path written for a cached directory returns that same dentry |
| Paths.AddKeepsTree | kernel/vfs.c:645-708 | a new dentry under an uncached name keeps the cache equal to the dentry tree, with every dentry below the root |
| Paths.DropKeepsTree | kernel/vfs.c:660-713 | dropping a dentry without children keeps it so |
| Paths.Vfs.constructor | kernel/vfs.c:44-100 | the mounted root alone is a tree that the cache agrees with |
| Paths.Vfs.AddDentry | kernel/vfs.c:645-708 | a name that is not cached gets a dentry, and the cache stays the dentry tree, directories below directories |
| Paths.Vfs.DropDentry | kernel/vfs.c:660-713 | the dentry of a file leaves the cache and the tree; directories stay |
| Paths.Vfs.RoundTrip | kernel/proc_file.c:242-273 | in every state of the cache, looking up the path written for a dentry leads back to it |
| Paths.Vfs.Rcwd | kernel/proc_file.c:242-273 | always writes the path of the current directory: the error exit is not reached |
| Paths.Vfs.RcwdThenLookup | kernel/proc_file.c:242-291 | in every state, looking up the path that do_rcwd returned finds the current directory |
| Paths.Vfs.Ancestors | kernel/proc_file.c:251-263 | the loop collects the names from the directory up to the root |
| Paths.JoinNames | kernel/proc_file.c:264-268 | the strcat loop joins them from the top down |
| Paths.Vfs.Lookup | kernel/vfs.c:532-607 | lookup computes the walk over the tokens of the path in the cache as it is afterwards, and what it finds has the names that the path means; what is added comes from the disk, and the name it misses is neither cached nor on the disk |
| Paths.Vfs.Component | kernel/vfs.c:572-601 | one name: from the table, else from the directory on disk, else missing in both |
| Paths.Vfs.Advance | kernel/vfs.c:558-605 | one round of the loop continues the walk by one component |
| Paths.Vfs.Ccwd | kernel/proc_file.c:278-291 | the current directory becomes the dentry found, exactly if it is a cached directory, and has the names that the path means; for ".." it is the parent |
| Paths.Vfs.CcwdThenRcwd | kernel/proc_file.c:242-291 | changing the directory and reading it gives the path asked for, without its dots |
| ShellParser.FlattenOfParse | zshell/parser.c:62-210 | flattening the parse of a line gives back its words |
| ShellParser.ParseOfFlatten | zshell/parser.c:62-210 | every well-formed list of commands is the parse of its own words, so the parse is unique |
| ShellParser.FirstIs | zshell/parser.c:98-119 | the line is split at its first connector, no parameter is one, and each of the three connectors gives its own type |
| ShellParser.WordCut | zshell/parser.c:10-47 | the cut leaves the word terminated and the remaining words readable behind it |
| ShellParser.WordKept | zshell/parser.c:29-47 | words found earlier are not touched by later cuts |
| ShellParser.Scan | zshell/parser.c:10-47 | the two loops find and cut the next word, or report that there is none |
| ShellParser.GetToken | zshell/parser.c:10-27 | the first word of the line |
| ShellParser.SkipCurrent | zshell/parser.c:29-47 | the word behind the current one; everything before it is unchanged |
| ShellParser.ReadParas | zshell/parser.c:129-157 | stores the words up to the next connector, with their number |
| ShellParser.OneCommand | zshell/parser.c:89-193 | one node holds operation, parameters and connector: the words up to the first ampersand pair, ampersand or bar, which make it OP_MULTICORE, OP_MULTISTART or OP_PIPLINE; it fails exactly for a connector with nothing behind it |
| ShellParser.CommandList.Clear | zshell/parser.c:242-253 | all nodes are dead and empty, and stay linked as they were |
| ShellParser.CommandList.Append | zshell/parser.c:195-207 | a new node behind the last one; the others keep their places |
| ShellParser.CommandList.Commands | zshell/parser.c:87-209 | the loop over the commands builds the parse on the reused nodes |
| ShellParser.CommandList.Build | zshell/parser.c:62-210 | whatever the list held before, its live part flattens to the words of the line with exact parameter counts; a trailing connector or an empty line leaves nothing alive; the old nodes are reused in their order |

## Left out

- CowRefinement.ReadsAreExpected: heap pages only; stack, code and data segments are copied or shared without counting in fork, and the kernel's own writes into the user heap lists bypass the COW check.
- CowKernel.Kernel.HandleStoreFault: needs a free page when the frame is shared, because the source does not test the result of alloc_page there.
- CopyOnWrite.StepKeepsInv: a fault is one step of the machine, so what is proved of memory contents is for handlers that do not overlap on a page; their statements interleave in PageLocks, which has no contents.
- PageLocks.NoDeadlock: says that some hart can move, not that every hart is served.
- UserHeap.HeapManager.AllocateMem: pages are always available, so the two out-of-page exits of multi-page growth are not modelled; headers are kept by virtual address, so a header that straddles two pages is one header.
- HeapRuns.MallocKeepsInv: only while the heap stays below the user stack; the source does not check this.
- SchedKernel.Kernel.Dispatch: an idle hart waits outside the model, and the shutdown branch is not modelled.
- SemaphoreRuns.SemaphoreTheorem: free_semaphore, which nothing in the source calls, is not modelled, and there is always room for another semaphore.
- SchedKernel.Kernel.ExitEntry: queue effects only; heap teardown is not modelled.
- SchedKernel.Kernel.ForkEntry: the queue effect at the end of do_fork; the copying before it is CowKernel.Kernel.ForkHeap for heap pages and not modelled for the others.
- SchedKernel.Kernel.SemNewEntry: there is always room for another semaphore.
- RfsBlocks.Volume.Write: at most ten blocks per file, because the source does not check the bound of the address array.
- RfsBlocks.Volume.Read: the offset lies below ten blocks, for the same reason.
- RfsDir.AddEntry: needs room in the last block and a name of at most 27 bytes, because the source checks neither.
- RfsDir.RemoveEntry: the search that precedes it is FindEntry; the read of the inode number before the not-found test, on an empty directory, is not modelled.
- RfsVolume.LookupKeepsInv: a name under a regular file, which the source looks up in the file's bytes, is excluded.
- RfsVolume.StepKeepsInv: create and link need room in the directory, that is fewer than 128 names, and a name of at most 27 bytes, because the source checks neither; beyond that see RfsDir.OverfullUnlink.
- RfsOwnership.BlockOwnership: over the runs in which create and link find that room.
- RfsOwnership.LinkCounts: likewise.
- RfsContents.CallHolds: likewise.
- RfsContents.FilesTheorem: over the runs in which create and link find room for the entry and the name.
- RfsMount.Mount.Create: needs room in the directory and a name of at most 27 bytes, as RfsDir.AddEntry does.
- RfsMount.Mount.LinkFile: likewise.
- RfsMount.Mount.Lookup: names are bytes other than NUL.
- RfsMount.Mount.WriteFile: at most ten blocks per file, as in RfsBlocks.Volume.Write.
- PageSpaces.TablesAndDataApart: entries written without a reference of their own, as the kernel's identity map and the code pages that fork shares are, have no claim on their frame; the theorem says nothing about what becomes of it.
- PageTables.Mmu.UserVmUnmap: pages that are reclaimed must have a reference of their own, because free_page gives one up.
- Paths.Vfs.Lookup: a name under a regular file is never found on disk.
- Paths.Vfs.Rcwd: paths and directory depths stay within MAX_PATH_LEN, because the source does not check its buffers.
- Paths.Vfs.CcwdThenRcwd: likewise.
- ShellParser.CommandList.Build: allocation succeeds, and the parameters of a node are a sequence rather than a linked list.
- hostfs, HTIF, console I/O, ELF loading, exec, debug information and the machine-mode code are not modelled: they depend on the simulator or only read fixed layouts.
- TLB flushing, trap entry and context switching are part of the atomic steps.
- readdir, lseek, stat, pipes, aliases and command execution are not modelled: they would add easy members only.
- Reading and writing disk inodes inside their blocks is not modelled: the inode area is an array of records, read and written whole. The block buffer those reads and writes go through holds an arbitrary block afterwards.
