# A verified model of the xv6-riscv kernel with copy-on-write memory, threads and semaphores

This project models the parts of the kernel and its user library whose correctness does not show in any one
function: the redo log over the buffer cache, the block and inode layer, copy-on-write virtual memory on the
three-level page tables of Sv39 (section 4.4 of the RISC-V Privileged Architecture, version 1.12), the blocking
protocols (futex, semaphores, pipes), the feedback-queue scheduler, the user allocator, mmap, and the driver half
of the disk's virtqueue (sections 2.6 and 5.2 of Virtual I/O Device (VIRTIO) Version 1.1).

Code that updates structures in place is a class whose methods are proved against functions of the old state.
Pointers into static tables are indices, a C structure is a field of type `seq` or `map`, and ghost fields
(`refs`, `flat`, `owner`, `ring`, `flights`, ...) hold the abstract value that `Valid()` ties to the concrete
fields. Protocols are step systems over any number of threads, where a step is what one thread does between two
lock operations. A panic of the source is a result of its own, and the contracts say exactly when it happens.

| file | models |
|---|---|
| BufferCache, Log, Journal, LogSpace | the buffer list, the log on top of it, every crash of commit and recovery, and log space |
| Fs, FsBudget | bitmap, direct and indirect blocks, truncation, reading, writing; exactly which blocks a write takes and logs |
| Kalloc, PageTable, Cow, Vm | page allocator, radix tree, the copy-on-write machine against eager memory, the code that implements it |
| Vma, MappedFile | the table of mapped regions: placement, removal, and the page fault that reads the file |
| Futex, FutexLock, Semaphore, SemaphoreClient, ProdCons, ReadersWriters | kernel wait and wake, the lock, the semaphore, programs that use it, and two of them |
| Pipe, Mlfq, Virtio, Malloc | pipes, scheduling, the disk queue, malloc and free |
| Counting | cardinalities and sums used by the others |

Where the code does less than one would hope, the exact condition is proved:

- A commit panics for want of a buffer exactly when it has blocks to write and every buffer is referenced
  (`Log.Log.Commit`). LOGBLOCKS and NBUF are both 30, and three operations that fill the log get there
  (`Log.CommitRunsOut`).
- A write of a block that is already in the log panics exactly when the log is full (`LogSpace.PanicsExactly`),
  and a full log is reachable (`LogSpace.FullLogPanics`). Appends always find room.
- begin_op refuses exactly if the log could be overrun were every operation, the new one too, still to append its
  MAXOPBLOCKS blocks (`LogSpace.RefusesExactly`). Against what they really have left that is too strict: the refusal
  is needless exactly if the log, what is left and the new share fit where the full shares do not
  (`LogSpace.NeedlessExactly`), as with two operations of which one has logged a block (`LogSpace.NeedlessRefusal`).
- Releasing the last reference to a buffer keeps the cache in step with the disk exactly if the disk has the
  buffer's bytes (`BufferCache.Cache.Brelse`).
- mmap adds a region without addresses exactly if the length is above 2^64 - PGSIZE, which rounds to 0, the checks
  pass, a slot is free and there is a gap anywhere (`Vma.Regions.Mmap`, `Vma.MmapTooLong`). A place at address 0 is
  taken for failure (`Vma.FindAddr`).
- copyin has no test for MAXVA, and neither has vmfault: they panic exactly for addresses from there up
  (`Vm.Vm.Copyin`, `Vm.Vm.Vmfault`), where copyout only fails (`Vm.CopyAtMaxva`).
- Eager sbrk does not look at the mapped regions: it panics exactly if some page of the range is mapped already and
  there are free pages for those below it, for the tables these lack, and one more (`Vm.Vm.GrowEagerly`,
  `Vm.GrowOntoRegion`).
- malloc passes sbrk the size of a new block as an int. The heap stays valid exactly unless sbrk is asked for a request
  above 2^31 - 32 bytes (`Malloc.Heap.Malloc`). malloc(2^32 - 1) gets 16 bytes for a block of 2^28 + 1 headers, and
  what sbrk gives next is inside it (`Malloc.OneUnitForMany`); malloc(2^31) succeeds without any memory
  (`Malloc.NothingForMany`).
- A semaphore's value agrees with its initial value plus ups minus downs exactly as long as that is an int
  (`Semaphore.ConservationInt`).
- The sector of a block, computed in 32 bits, is where the block is exactly below block 2^31
  (`Virtio.SectorExactly`, `Virtio.SectorsApart`).
- The disk interrupt panics exactly on a status other than 0 (`Virtio.Disk.Interrupt`).
- fork makes a stack guard page copy-on-write, after which copyout writes to it (`Vm.ForkOpensGuard`), and passes on
  no page of a mapped file above the size (`Vm.ForkInherits`).
- A writer killed after it has put bytes into an empty pipe, with more to come, leaves without waking the readers,
  and that is the only way a turn can leave somebody asleep without a reason (`Pipe.Pipe.Write`,
  `Pipe.ReaderLeftAsleep`).

The comment on vmfault says it fails for a page that is already mapped; the code breaks copy-on-write pages there,
and the model follows the code.

## Model

| member | source | states |
|---|---|---|
| BufferCache.Cache.constructor | xv6-riscv/kernel/bio.c:36-53 | all buffers are on one cycle through the head and none holds a block |
| BufferCache.Cache.FindCached | xv6-riscv/kernel/bio.c:66-74 | the forward walk finds the buffer of the block, or the head exactly if no buffer holds it |
| BufferCache.Cache.FindUnused | xv6-riscv/kernel/bio.c:78-87 | the backward walk finds the least recently used unreferenced buffer, or the head exactly if all are referenced |
| BufferCache.Cache.Choose | xv6-riscv/kernel/bio.c:58-89 | bget panics exactly if the block is not referenced and all buffers are |
| BufferCache.Cache.Bread | xv6-riscv/kernel/bio.c:92-103 | the block gains one reference and shows the referenced copy if there is one, else the disk; no other reference moves |
| BufferCache.Cache.Bwrite | xv6-riscv/kernel/bio.c:106-112 | exactly one disk write, of the buffer's bytes to its block |
| BufferCache.Cache.Bpin | xv6-riscv/kernel/bio.c:139-144 | one more reference to the block, bytes unchanged |
| BufferCache.Cache.Bunpin | xv6-riscv/kernel/bio.c:146-151 | one reference less, in place in the list; the cache stays in step with the disk exactly if references remain or the disk has the bytes |
| BufferCache.Cache.Brelse | xv6-riscv/kernel/bio.c:116-137 | the same, and the last reference moves the buffer to the front; the others keep their order and the list stays a cycle through all |
| BufferCache.Unique | xv6-riscv/kernel/bio.c:58-89 | no two buffers hold the same block of a nonzero device |
| BufferCache.UnlinkCycle | xv6-riscv/kernel/bio.c:128-129 | taking an entry out of the doubly linked list leaves a cycle through the others |
| BufferCache.PushCycle | xv6-riscv/kernel/bio.c:130-133 | inserting it behind the head gives a cycle through all |
| Journal.HeadRoundTrip | xv6-riscv/kernel/log.c:87-115 | the header block read back gives the block numbers written |
| Journal.CommitStepState | xv6-riscv/kernel/log.c:194-204 | after each single write of a commit the disk stands for the old state up to the header write and for the new one after it |
| Journal.PendingRecovers | xv6-riscv/kernel/log.c:117-124 | recovery of a committed transaction ends with exactly its state, however often recovery itself crashes |
| Journal.CrashAtomicity | xv6-riscv/kernel/log.c:66-204 | a crash after any number of commit writes, then any crashes of recovery: the first recovery to finish leaves all home blocks old or all new, decided by the header write, and the header empty |
| Journal.Durability | xv6-riscv/kernel/log.c:117-204 | in a run of transactions a crash in the last one loses at most that one |
| Log.Log.constructor | xv6-riscv/kernel/log.c:53-63 | initlog makes exactly the writes of a recovery and leaves an empty log over an empty cache |
| Log.Log.Recover | xv6-riscv/kernel/log.c:117-124 | makes exactly the recovery writes of the crash model |
| Log.Log.WriteLogBlock | xv6-riscv/kernel/log.c:184-191 | the cached bytes of a logged block go to its log block in one write; references are as before |
| Log.Log.InstallBlock | xv6-riscv/kernel/log.c:71-83 | a log block goes home in one write, and outside recovery exactly one pin is dropped |
| Log.Log.WriteHead | xv6-riscv/kernel/log.c:103-115 | one write, of the count and block numbers over the old header |
| Log.Log.ReadHead | xv6-riscv/kernel/log.c:87-98 | the in-memory header is the one on disk, nothing is written |
| Log.Log.WriteLog | xv6-riscv/kernel/log.c:179-192 | every log block gets the latest bytes of its block, in order, or the cache has no spare buffer |
| Log.Log.Install | xv6-riscv/kernel/log.c:66-84 | every logged block reaches its home and every log pin is gone |
| Log.Log.Commit | xv6-riscv/kernel/log.c:194-204 | the disk writes are exactly those of the crash model; pins are gone, cache and home blocks agree, no reader sees a home block change |
| Log.Log.LogWrite | xv6-riscv/kernel/log.c:215-236 | a new block is appended and pinned once, a logged one is absorbed; panics exactly when the space model says so |
| Log.Log.BeginOp | xv6-riscv/kernel/log.c:127-143 | refuses exactly while a commit is under way, or if some run of appends by the operations there are and the new one, up to the given number of blocks each, would end in the panic of log_write |
| Log.Log.EndOp | xv6-riscv/kernel/log.c:147-176 | the last operation commits, others only leave; panics exactly without a spare buffer or while committing |
| Log.CommittedAgrees | xv6-riscv/kernel/log.c:66-84 | after a commit every remaining reference agrees with the disk and what is read of any home block is unchanged |
| Log.Log.Update | xv6-riscv/kernel/log.c:210-236 | bread, change, log_write and brelse of a block leave it logged and pinned once with the new bytes; panics exactly without a buffer, outside an operation or with a full log |
| Log.NoSpareBuffer | xv6-riscv/kernel/log.c:127-192 | whenever NBUF is LOGBLOCKS, operations that are all admitted and fill the log make the last end_op panic |
| Log.CommitRunsOut | xv6-riscv/kernel/param.h:9-11 | the same from boot with the sizes of the source |
| LogSpace.InvNext | xv6-riscv/kernel/log.c:127-236 | every event keeps: logged blocks plus unused budgets fit the log, committing means nobody is inside, a sleeper has a waker |
| LogSpace.PanicsExactly | xv6-riscv/kernel/log.c:215-236 | the only panic is a write to a full log, and then the block is one already logged |
| LogSpace.LogSpaceSafe | xv6-riscv/kernel/log.c:127-236 | in every run of any operations every append finds room and the header is frozen during a commit |
| LogSpace.FullLogPanics | xv6-riscv/kernel/log.c:221-222 | a run that fills the log exactly, after which an absorbed write panics |
| LogSpace.BurstsExactly | xv6-riscv/kernel/log.c:215-236 | some run of log_writes of new blocks by outstanding operations ends in the panic exactly if they may append more than there is room for |
| LogSpace.BreaksExactly | xv6-riscv/kernel/log.c:221-222 | with writes of blocks already logged among them some run ends in the panic exactly if they can fill the log |
| LogSpace.RefusesExactly | xv6-riscv/kernel/log.c:127-143 | in every reachable state without a commit under way, begin_op puts the caller to sleep exactly if, with it let in, some such run within MAXOPBLOCKS for each operation would end in the panic; otherwise it is let in |
| LogSpace.NeedlessExactly | xv6-riscv/kernel/log.c:134-136 | against the budgets really left: with one more operation let in the log can be overrun exactly if log, budgets and its share exceed it, and filled, so that any log_write panics, exactly if they are no less; a caller that could overrun it is always refused; and exactly which others are refused too |
| LogSpace.NeedlessRefusal | xv6-riscv/kernel/param.h:9-10 | with the sizes of the source: two operations, a block logged by one; a third is refused though no run could overrun the log |
| Fs.FileSystem.Balloc | xv6-riscv/kernel/fs.c:66-89 | the first free block, marked and zeroed, or 0 exactly when the disk is full |
| Fs.FileSystem.Bfree | xv6-riscv/kernel/fs.c:92-106 | panics exactly on a free block |
| Fs.FileSystem.Bmap | xv6-riscv/kernel/fs.c:405-444 | the block of a file block, allocated and zeroed if missing; every other pointer of every file is unchanged and ownership stays disjoint; exactly which blocks are logged |
| Fs.FileSystem.Writei | xv6-riscv/kernel/fs.c:528-562 | exactly the written prefix replaces or extends the file's bytes and no other file changes, across the indirect boundary; short only when the disk is full, at a file block that has none; exactly which pointers are new and which blocks are logged, every changed one among them, at most the cost in all |
| Fs.FileSystem.WriteChunk | xv6-riscv/kernel/fs.c:539-551 | one block's share of a write: the bytes in flight are patched at the offset |
| Fs.FileSystem.Readi | xv6-riscv/kernel/fs.c:494-519 | exactly the requested slice of the file's bytes, cut at the end, nothing changed; -1 exactly if they cannot all be copied out, and then a prefix was |
| Fs.FileSystem.Itrunc | xv6-riscv/kernel/fs.c:448-476 | frees exactly the blocks of the file, direct, indirect and listed in the indirect one, without a panic; other files keep theirs; logs exactly the bitmap blocks that change and the inode block |
| Fs.PointersDistinct | xv6-riscv/kernel/fs.c:405-476 | no two pointers of any files name the same block |
| Fs.FilewriteBudget | xv6-riscv/kernel/file.c:149-158 | for every offset and alignment the cost of a chunk is at most MAXOPBLOCKS |
| FsBudget.Allocated | xv6-riscv/kernel/fs.c:405-562 | a write takes exactly the blocks of the new pointers from the free ones; none leaks and none is taken twice |
| FsBudget.CompleteIff | xv6-riscv/kernel/fs.c:528-562 | a write is complete exactly if there are as many free blocks as file blocks without one in the range, plus one for an indirect block it has to make |
| FsBudget.LogsExactly | xv6-riscv/kernel/fs.c:405-562 | a write that makes the indirect block logs the old blocks it fills, the blocks it takes and their bitmap blocks, and nothing else |
| FsBudget.SmallDisk | xv6-riscv/kernel/file.c:149-165 | with one bitmap block, as FSSIZE gives, a transaction of filewrite logs at most seven blocks |
| FsBudget.TightTransaction | xv6-riscv/kernel/file.c:149-165 | on an image with four bitmap blocks a transaction of filewrite logs exactly MAXOPBLOCKS blocks |
| FsBudget.LongerChunk | xv6-riscv/kernel/file.c:149-165 | on another a write two bytes longer than the chunk logs one block more |
| FsBudget.TruncLogs | xv6-riscv/kernel/fs.c:448-476 | what itrunc logs are the bitmap blocks of the blocks of the file and the inode block, at most one more than there are bitmap blocks |
| Fs.BitmapBlock | xv6-riscv/kernel/fs.c:66-106 | the bitmap block of a block is the one whose bits include it |
| Fs.FileSystem.WriteTransaction | xv6-riscv/kernel/file.c:156-165 | one chunk between begin_op and end_op logs at most MAXOPBLOCKS blocks, among them every block, bitmap block and inode block it changed, and patches the file by what it wrote |
| Fs.FileSystem.Filewrite | xv6-riscv/kernel/file.c:148-173 | the file holds the written prefix at the offset, the offset moves by as much, -1 exactly if it is not all, and why; every transaction is within budget |
| Kalloc.Kmem.constructor | xv6-riscv/kernel/kalloc.c:33-50 | every managed page is free, once |
| Kalloc.Kmem.Kfree | xv6-riscv/kernel/kalloc.c:56-81 | one reference less, and onto the free list exactly with the last one; panics exactly on a page with none |
| Kalloc.Kmem.Kalloc | xv6-riscv/kernel/kalloc.c:86-102 | a page nobody references, with count 1; 0 exactly if none is free |
| Kalloc.Kmem.Krefinc | xv6-riscv/kernel/kalloc.c:104-116 | one reference more; panics exactly on a page with none |
| Kalloc.Kmem.Krefcnt | xv6-riscv/kernel/kalloc.c:118-128 | the number of references |
| Kalloc.Kmem.Kfreepages | xv6-riscv/kernel/kalloc.c:130-144 | the number of unreferenced managed pages |
| PageTable.SlotInjective | xv6-riscv/kernel/vm.c:100-118 | walks of different pages, or in different address spaces, end in different entries |
| PageTable.PageTables.Uvmcreate | xv6-riscv/kernel/vm.c:181-190 | a new empty root, or 0 exactly if memory is exhausted |
| PageTable.PageTables.Walk | xv6-riscv/kernel/vm.c:100-118 | the bottom table on the page's path; missing tables are created empty so that no mapping changes; exactly which tables there are then and how many free pages that took; 0 exactly if one is missing and may not be made or there are too few free pages |
| PageTable.MissingMore | xv6-riscv/kernel/vm.c:100-118 | of any set of pages, once the tables they lack are made, what one more page lacks is exactly what walk makes for it |
| PageTable.PageTables.SetPte | xv6-riscv/kernel/vm.c:170 | a store through walk's pointer changes the flat map at that page and nowhere else |
| PageTable.PageTables.GetPte | xv6-riscv/kernel/vm.c:123-141 | a load through walk's pointer is a lookup in the flat map |
| PageTable.PageTables.MapPage | xv6-riscv/kernel/vm.c:166-170 | the flat map gains the page, or nothing; "remap" exactly if it was mapped; out of memory exactly if there are fewer free pages than tables missing |
| PageTable.PageTables.Mappages | xv6-riscv/kernel/vm.c:148-177 | the flat map gains consecutive pages, all or the first ones; out of memory, or met by a mapped page, exactly as the free pages and the tables missing before the first mapped page say beforehand |
| PageTable.PageTables.Freewalk | xv6-riscv/kernel/vm.c:265-281 | frees each table under the root exactly once and no other page; the leaf panic cannot happen on a table without leaves |
| PageTable.PageTables.FreeRoot | xv6-riscv/kernel/vm.c:285-291 | the tables of an empty address space are gone, other address spaces keep theirs |
| Cow.InvNext | xv6-riscv/kernel/vm.c:299-508 | every event, out-of-memory paths included, keeps: counts equal mappings plus kernel references, and a writable page has count 1 and one mapping |
| Cow.ForkAbs | xv6-riscv/kernel/vm.c:299-330 | fork by sharing shows what copying every page would show |
| Cow.ForkFailsAbs | xv6-riscv/kernel/vm.c:299-330 | a fork that runs out of memory at any page shows nothing |
| Cow.FaultAbs | xv6-riscv/kernel/vm.c:464-508 | breaking a copy-on-write page or filling a lazy one shows nothing |
| Cow.StoreAbs | xv6-riscv/kernel/vm.c:348-385 | a store to a writable page changes that page of that address space and no other |
| Cow.ForkPage | xv6-riscv/kernel/vm.c:299-330 | what the eager machine does, page by page: fork gives the child exactly the parent's pages below its size |
| Cow.ResizePage | xv6-riscv/kernel/vm.c:220-261 | growth adds readable and writable pages of 4096 zeros and changes no other; shrinking takes exactly the pages above the new size |
| Cow.MunmapPage | xv6-riscv/kernel/vm.c:195-215 | unmapping takes exactly the range; heap pages in it read as zeros again |
| Cow.TouchPage | xv6-riscv/kernel/vm.c:464-560 | a store changes the bytes of its page, a fault nothing but the page of a mapped file |
| Cow.CowRefinesEager | xv6-riscv/kernel/vm.c:299-560 | over every run of forks, faults, stores, growth, shrinking and unmapping, programs see exactly what eager copying would show |
| Cow.Isolation | xv6-riscv/kernel/vm.c:299-560 | over every run, an address space that no event touches looks the same, whatever it shares |
| Vm.Vm.Uvmunmap | xv6-riscv/kernel/vm.c:195-215 | unmaps and releases exactly the pages of the range |
| Vm.Vm.Uvmcopy | xv6-riscv/kernel/vm.c:299-330 | the child maps the parent's pages read-only and copy-on-write, or nothing; fails exactly if there are fewer free pages than tables the child lacks for the pages the parent has mapped |
| Vm.Vm.BreakSharing | xv6-riscv/kernel/vm.c:473-493 | a sole mapper gets the page writable, others a private copy; 0 exactly if the page has other references and there is no free page; how many free pages that leaves |
| Vm.Vm.MapNewPage | xv6-riscv/kernel/vm.c:497-508 | a filled page is mapped, or given back when the page tables cannot grow; panics exactly if the page was mapped and there was memory |
| Vm.Vm.Vmfault | xv6-riscv/kernel/vm.c:464-560 | panics exactly from MAXVA up; 0 exactly if the access is an error of the program or there are fewer free pages than it takes: none for the only reference to a copy-on-write page, one for a shared one, one and the tables missing for a page not there; otherwise the page is mapped, writable for a write, that many pages are gone, and programs see no change but a file page that appears |
| Vm.RefusedRightly | xv6-riscv/kernel/vm.c:473-525 | of a page the program sees a fault is an error exactly if the program has no right to the access, whatever the entry lacks for now |
| Vm.Vm.ForkMemory | xv6-riscv/kernel/proc.c:357-415 | the child sees what the parent sees below its size, or nothing has changed, exactly if there are fewer free pages than tables the child lacks |
| Vm.ForkInherits | xv6-riscv/kernel/vm.c:299-330 | the child has a page exactly if the parent has it below the size, with the same bytes; pages of mapped files above it stay with the parent |
| Vm.KernelWrites | xv6-riscv/kernel/vm.c:348-413 | of the mapped pages a program may not access the kernel reads none, and writes exactly the copy-on-write ones |
| Vm.ForkOpensGuard | xv6-riscv/kernel/vm.c:299-343 | a stack guard page is closed to copyout before a fork and open to it, in both processes, afterwards |
| Vm.Vm.NewSpace | xv6-riscv/kernel/proc.c:278-285 | an address space of size 0 that no page belongs to, or 0 exactly if memory is exhausted |
| Vm.Vm.GrowLazily | xv6-riscv/kernel/sysproc.c:78-104 | the address space grows by pages that read as zero; fails exactly above TRAPFRAME(NPROC) |
| Vm.Vm.GrowEagerly | xv6-riscv/kernel/proc.c:333-353 | the same by uvmalloc, all pages or none; runs out of memory, or panics on a page mapped already, exactly as the number of free pages, the tables missing and the first mapped page say beforehand |
| Vm.GrowOntoRegion | xv6-riscv/kernel/vm.c:166-168 | from boot: a region where the heap ends, a read of its first page, then eager growth by a page panics |
| Vm.Vm.ShrinkTo | xv6-riscv/kernel/vm.c:249-261 | exactly the pages above the new size are gone |
| Vm.Vm.Uvmfree | xv6-riscv/kernel/vm.c:285-291 | the address space and its tables are gone, all others look the same |
| Vm.Vm.Copyout | xv6-riscv/kernel/vm.c:348-385 | what programs see changes by the bytes of the pages copied, all of them or the first; fails exactly if some page of the range is not for writing or there are fewer free pages than the range takes, counted beforehand: pages not there, tables they lack, and copies of shared pages; and at the first page that is not open |
| Vm.CopyBytes | xv6-riscv/kernel/vm.c:348-385 | byte by byte: the target range holds the source, every other byte is what it was |
| Vm.CopyIsolated | xv6-riscv/kernel/vm.c:348-385 | a copy to one address space changes no page of another |
| Vm.Vm.Copyin | xv6-riscv/kernel/vm.c:390-413 | exactly the bytes the program sees at the address; nothing it sees changes but file pages that appear; panics exactly if it starts at MAXVA or above, otherwise fails exactly if some page of the range is not for reading or there are fewer free pages than pages not there and tables they lack |
| Vm.UsedMore | xv6-riscv/kernel/vm.c:348-413 | page by page the free pages, the tables and the reference counts after a copy are what the count beforehand says, also where the range maps one page twice |
| Vm.CopyAtMaxva | xv6-riscv/kernel/vm.c:348-413 | in every state a copy of one byte from MAXVA panics and one to MAXVA fails |
| Vma.SortByAddr | xv6-riscv/kernel/sysfile.c:74-82 | the exchange sort orders the entries by address and permutes them |
| Vma.FindAddr | xv6-riscv/kernel/sysfile.c:64-100 | the highest page-aligned place clear of the heap and of every region, for length 0 the end of the highest gap; 0 exactly if there is none, or none but 0 |
| Vma.Regions.AllocSlot | xv6-riscv/kernel/sysfile.c:55-62 | an unused slot, or -1 exactly if there is none |
| Vma.Regions.Mmap | xv6-riscv/kernel/sysfile.c:158-212 | for every length: each reason for failure, and no other; adds exactly that region, disjoint from all, with one reference to its file; exactly when it leaves a region without addresses |
| Vma.MmapTooLong | xv6-riscv/kernel/sysfile.c:194-211 | length 2^64 - 1 in a fresh process maps nothing at TRAPFRAME(NPROC) and succeeds |
| Vma.Regions.ProcMunmap | xv6-riscv/kernel/proc.c:64-106 | 0 exactly if the range is valid, meets a region and makes no hole; then exactly that range is gone from every region, every other address keeps its file offset, no page stays mapped outside, and each region keeps one reference to its file; -1 changes nothing |
| Vma.Regions.Munmap | xv6-riscv/kernel/sysfile.c:214-230 | the same for the rounded length |
| Vma.HoleAlone | xv6-riscv/kernel/proc.c:85-86 | a range that would leave a hole in one region meets no other, so nothing was changed before the -1 |
| MappedFile.FindRegion | xv6-riscv/kernel/vm.c:511-516 | the one region that has the address, or -1 exactly if none has |
| MappedFile.ReadPage | xv6-riscv/kernel/vm.c:539-553 | the bytes of the file at the offset with zeros after its end; the read never comes up short |
| MappedFile.Fault | xv6-riscv/kernel/vm.c:510-560 | a page not there yet appears exactly if a region allows the access and there are free pages for it and the tables it lacks; its byte k is byte o + k of the file or 0 past the end, with o the offset of the region plus the distance of the page from its start, modulo 2^64; protection as the region has it; no other page changes |
| MappedFile.MappedAllows | xv6-riscv/kernel/fcntl.h:7-9 | in a region mmap has just placed a fault is allowed exactly if PROT_READ or PROT_EXEC, for a store PROT_WRITE, was asked for |
| Futex.StepInv | xv6-riscv/kernel/proc.c:704-749 | every kernel step of every thread keeps the locks consistent and loses no wakeup: a waiter still sees its value or its waker is on the way |
| Futex.StrayInv | xv6-riscv/kernel/proc.c:754-775 | so does a kill or a wakeup meant for somebody else |
| Futex.WakeInv | xv6-riscv/user/ulib.c:187-194 | a store followed by futex_wake loses no wakeup, whatever is stored |
| Futex.QuietInv | xv6-riscv/user/ulib.c:173-185 | a store without futex_wake loses none if no waiter waits for the old value |
| Futex.Progress | xv6-riscv/kernel/proc.c:704-749 | while some thread is in the kernel and not asleep, some thread can step: the lock order has no deadlock |
| Futex.StepDescends | xv6-riscv/kernel/proc.c:704-749 | every kernel step brings the kernel nearer to rest |
| Futex.Settles | xv6-riscv/kernel/proc.c:704-749 | from every state of the protocol the kernel comes to rest: every thread is out of it or asleep on the value the word has |
| FutexLock.MutualExclusion | xv6-riscv/user/ulib.c:172-197 | in every run at most one thread has the lock, and one has exactly when the word is 1 |
| FutexLock.NoLostWakeup | xv6-riscv/user/ulib.c:172-197 | in every run a sleeper has a holder to wait for or an unlocker whose wakeup has not yet come past it |
| FutexLock.NoDeadlock | xv6-riscv/user/ulib.c:172-197 | while some thread is in a call or has the lock, some thread can go on |
| FutexLock.Obtains | xv6-riscv/user/ulib.c:172-197 | from every reachable state, a thread that wants the lock has it at the end of some run of the program's own steps: unlocking frees it, waiters wake and try again |
| FutexLock.TakesFree | xv6-riscv/user/ulib.c:172-185 | with the word 0 the next step of a thread that tries takes the lock |
| Semaphore.Conservation | xv6-riscv/user/semaphore.c:14-39 | in every run the value is the initial one plus ups minus downs whenever the inner lock is free, and never negative |
| Semaphore.ConservationInt | xv6-riscv/user/semaphore.c:14-39 | with the value an int, it is initial plus ups minus downs modulo 2^32 in every run, and equal exactly if that is an int |
| Semaphore.IntRuns | xv6-riscv/user/semaphore.c:36 | a run with no increment at 2^31 - 1 is a run with an unbounded value, so that all that is proved of those holds |
| Semaphore.NoLostWakeup | xv6-riscv/user/semaphore.c:14-39 | in every run a sleeper means a spent value or a waker on the way |
| Semaphore.NoDeadlock | xv6-riscv/user/semaphore.c:14-39 | a pending call lets some thread go on unless it sleeps on a spent value |
| Semaphore.UpReturns | xv6-riscv/user/semaphore.c:33-39 | from every reachable state a sem_up under way returns at the end of some run of the program's own steps |
| Semaphore.DownReturns | xv6-riscv/user/semaphore.c:14-31 | so does a sem_down, unless of the value, raised by all calls of sem_up under way, the thread with the inner lock takes the last |
| Semaphore.DownExactly | xv6-riscv/user/semaphore.c:14-31 | and then no run without another call lets it return: both directions, for every initial value, negative ones too |
| Semaphore.RefinesAtomic | xv6-riscv/user/semaphore.c:14-39 | every run is a run of one atomic counter that blocks at 0 |
| Semaphore.OnceEach | xv6-riscv/user/semaphore.c:14-39 | in it each returned call of each thread has taken effect exactly once |
| ProdCons.Fifo | xv6-riscv/user/prod-cons.c:19-55 | in every run the items read are a prefix of those stored, the rest is in the buffer in order, never more than it holds |
| ProdCons.Provenance | xv6-riscv/user/prod-cons.c:19-55 | in every run those records are the stores and reads; each thread has stored the items handed to its calls of produce, in order, but the one it still carries, and its calls of consume have returned the items it read, in order, but the one it still carries |
| ProdCons.NothingLost | xv6-riscv/user/prod-cons.c:19-55 | the items handed to produce are, with their multiplicities, those stored and those carried in; the items read are those returned by consume and those carried out |
| ProdCons.OneInside | xv6-riscv/user/prod-cons.c:19-55 | the buffer is touched by one thread at a time |
| ProdCons.AtRest | xv6-riscv/user/prod-cons.c:19-55 | with no call in progress full and empty count the items and the free slots |
| ProdCons.NoDeadlock | xv6-riscv/user/prod-cons.c:19-55 | in every run some thread can go on: one in the middle of a call if there is one, else a producer or a consumer |
| ProdCons.Finishes | xv6-riscv/user/prod-cons.c:19-55 | from every reachable state all calls under way can be finished, in exactly the number of steps they have left together |
| ProdCons.Produces | xv6-riscv/user/prod-cons.c:19-36 | with nobody in a call produce goes through exactly if the buffer is not full, and stores its item last |
| ProdCons.Consumes | xv6-riscv/user/prod-cons.c:38-55 | and consume exactly if there is an item, and reads the oldest |
| ProdCons.OverSemaphores | xv6-riscv/user/prod-cons.c:19-55 | every run uses each of the three semaphores as a run of the atomic counter that Semaphore implements |
| SemaphoreClient.Refines | xv6-riscv/user/semaphore.c:14-39 | every run of any program over the semaphores of the library, down to the kernel steps of each call, is a run of it over atomic counters with the same values |
| SemaphoreClient.GoesOn | xv6-riscv/user/semaphore.c:14-39 | and a thread that could go on there lets some thread go on here |
| ProdCons.LibraryFifo | xv6-riscv/user/prod-cons.c:19-55 | over those semaphores too the items consumed are a prefix of those produced, never more are stored than fit, and one thread is at the buffer |
| ProdCons.LibraryItems | xv6-riscv/user/prod-cons.c:19-55 | there too what is stored is, thread by thread and in order, what the threads chose to produce, but what is still on its way in, and what is read is what consume returned, but what is still on its way out |
| ProdCons.LibraryNoDeadlock | xv6-riscv/user/prod-cons.c:19-55 | and some thread can go on while one is in the middle of a call or wants what is there |
| ReadersWriters.Exclusion | xv6-riscv/user/rw.c:24-53 | in every run a writer overlaps no reader and no other writer |
| ReadersWriters.NoLostWrite | xv6-riscv/user/rw.c:45-53 | the shared value is the number of increments done, though each is a read and a write |
| ReadersWriters.EveryWrite | xv6-riscv/user/rw.c:45-53 | in every run the shared value is the number of calls of write begun less those that have yet to store |
| ReadersWriters.StableReads | xv6-riscv/user/rw.c:24-42 | no step changes the shared value while anybody reads |
| ReadersWriters.NoDeadlock | xv6-riscv/user/rw.c:24-53 | while some thread is in the middle of a call, some thread can take a step |
| ReadersWriters.Finishes | xv6-riscv/user/rw.c:24-53 | from every reachable state all calls under way can be finished, and then both semaphores are free |
| ReadersWriters.ReaderJoins | xv6-riscv/user/rw.c:24-42 | unless somebody writes, or is just coming in or going out, another reader gets in by its own steps alone, whoever reads |
| ReadersWriters.WriterWrites | xv6-riscv/user/rw.c:45-53 | with nobody in a call a writer goes through and the shared value is one more |
| ReadersWriters.OverSemaphores | xv6-riscv/user/rw.c:24-53 | every run uses both semaphores as runs of that counter |
| ReadersWriters.LibraryExclusion | xv6-riscv/user/rw.c:24-53 | over the semaphores of the library too a writer overlaps nobody and no write is lost |
| ReadersWriters.LibraryNoDeadlock | xv6-riscv/user/rw.c:24-53 | and some thread can go on while one is in the middle of a call |
| Pipe.Pipe.constructor | xv6-riscv/kernel/pipe.c:33-37 | an empty pipe, both ends open |
| Pipe.Pipe.Write | xv6-riscv/kernel/pipe.c:76-103 | exactly how many bytes are taken and join the end, across counter wrap, and how the turn ends; if everybody asleep had a reason, so it is afterwards, exactly unless the writer is killed between the bytes it puts into an empty pipe with readers asleep |
| Pipe.Pipe.Read | xv6-riscv/kernel/pipe.c:105-134 | exactly the oldest bytes leave, as many as asked for, there and copyable; sleeps exactly on an empty open pipe; if everybody asleep had a reason, so it is afterwards |
| Pipe.Pipe.Close | xv6-riscv/kernel/pipe.c:58-74 | the end is closed and the other side woken; freed exactly with both closed, and then nobody sleeps if everybody asleep had a reason before |
| Pipe.ReaderLeftAsleep | xv6-riscv/kernel/pipe.c:82-87 | a reader asleep, a writer of two bytes killed after one: the reader sleeps on with a byte in the pipe |
| Pipe.Distance | xv6-riscv/kernel/pipe.c:88 | 32-bit counters are equal, or PIPESIZE apart, exactly when the true ones are |
| Mlfq.Scheduler.Choose | xv6-riscv/kernel/proc.c:563-577 | the first of the runnable processes with the lowest priority number, -1 exactly if none is runnable |
| Mlfq.Scheduler.MlfqTick | xv6-riscv/kernel/proc.c:627-649 | exactly the running process is charged a tick, and the table stays in range |
| Mlfq.LevelAfter | xv6-riscv/kernel/proc.c:627-649 | in every run without a boost the level of a process, and its charge there, are what its charged ticks make them: slices of 1, 2, 4, and then of 8 at the lowest level for good |
| Mlfq.Scheduler.MlfqBoost | xv6-riscv/kernel/proc.c:652-664 | every used entry at the highest priority with nothing charged |
| Mlfq.Scheduler.Timer | xv6-riscv/kernel/trap.c:158-187 | a timer interrupt of the running process is one round of the run model |
| Mlfq.Scheduler.SetPriority | xv6-riscv/kernel/proc.c:993-1011 | changes the first entry with the pid and keeps every priority in range, or nothing |
| Mlfq.InvRound | xv6-riscv/kernel/proc.c:553-664 | every round keeps priorities in 0..NMLFQ-1 and exactly one process running |
| Mlfq.Served | xv6-riscv/kernel/proc.c:553-649 | a process waiting at the highest priority is chosen before the others have used up their ticks there |
| Mlfq.BoostBound | xv6-riscv/kernel/proc.c:553-664 | every runnable process is chosen within NPROC slices of a boost, though ties go to the lowest index and the counter wraps |
| Mlfq.NoStarvation | xv6-riscv/kernel/trap.c:171-187 | from any moment a runnable process runs within one boost interval and NPROC slices |
| Malloc.Heap.FindPlace | xv6-riscv/user/umalloc.c:30-32 | free's search ends, from any start, at the last free block below the one given back |
| Malloc.Heap.Free | xv6-riscv/user/umalloc.c:24-44 | the block is free, joined with its neighbours; the list is one address-ordered ring without adjacent blocks; every unit has one owner; no live block's memory is touched; the break is where it was |
| Malloc.Heap.Morecore | xv6-riscv/user/umalloc.c:46-61 | a block of the wanted size at the old break joins the free memory, null exactly if sbrk fails for the amount as an int; the heap stays inside the memory sbrk gave exactly for fewer than 2^27 units |
| Malloc.Heap.Sbrk | xv6-riscv/kernel/sysproc.c:78-104 | returns the old break and moves it by the amount, not below nothing; an amount that is not positive always succeeds |
| Malloc.Heap.Malloc | xv6-riscv/user/umalloc.c:63-90 | a new live block of the units needed, or null exactly if nothing fits and sbrk fails; sbrk is asked exactly if nothing fits, once; where the break and the heap then end; the heap stays valid exactly unless that was for more than 2^31 - 32 bytes |
| Malloc.LiveApart | xv6-riscv/user/umalloc.c:24-90 | live blocks are disjoint and end inside the heap |
| Malloc.Run | xv6-riscv/user/umalloc.c:24-90 | after any calls of malloc for at most 2^31 - 32 bytes, of free on blocks held and of sbrk by others, live blocks are disjoint and below the break |
| Malloc.TooMuch | xv6-riscv/user/umalloc.c:46-61 | on a fresh heap every larger request for which sbrk succeeds is a block at the old break, for which sbrk was asked 2^28 units too few |
| Malloc.OneUnitForMany | xv6-riscv/user/umalloc.c:54 | malloc(2^32 - 1) is a block of 2^28 + 1 units of which sbrk gave one, and the next sbrk answers with an address inside it |
| Malloc.NothingForMany | xv6-riscv/user/umalloc.c:54 | malloc(2^31) succeeds with no memory left, with a block at or above the break |
| Malloc.SearchStep | xv6-riscv/user/umalloc.c:30-32 | of all entries of the ring only that one meets free's two tests |
| Malloc.Conserved | xv6-riscv/user/umalloc.c:24-90 | the sizes of free and live blocks add up to the units obtained from sbrk |
| Virtio.Disk.AllocDesc | xv6-riscv/kernel/virtio_disk.c:156-166 | the first free descriptor, or -1 exactly if none is free |
| Virtio.Disk.FreeDesc | xv6-riscv/kernel/virtio_disk.c:169-182 | panics exactly on a bad or free descriptor |
| Virtio.Disk.Alloc3 | xv6-riscv/kernel/virtio_disk.c:201-213 | three descriptors exactly if three are free, otherwise none taken |
| Virtio.Disk.FreeChain | xv6-riscv/kernel/virtio_disk.c:185-197 | frees exactly the three of the chain, without a panic |
| Virtio.Disk.Submit | xv6-riscv/kernel/virtio_disk.c:215-281 | a chain of three free descriptors with the right command, buffer and direction is offered; -1 exactly if fewer than three are free |
| Virtio.SectorExactly | xv6-riscv/kernel/virtio_disk.c:218 | 512 times the sector is 1024 times the block exactly below block 2^31 |
| Virtio.SectorsApart | xv6-riscv/kernel/virtio_disk.c:218 | two blocks have no sector in common exactly if they differ modulo 2^31 |
| Virtio.Disk.Interrupt | xv6-riscv/kernel/virtio_disk.c:312-323 | the next used entry completes the buffer submitted under its id, across index wrap; panics exactly if the device gave it a status other than 0 |
| Virtio.Disk.Intr | xv6-riscv/kernel/virtio_disk.c:294-327 | everything the device has completed is seen; panics exactly at the first status other than 0 |
| Virtio.Disk.Complete | xv6-riscv/kernel/virtio_disk.c:283-289 | exactly the request's three descriptors become free, without a panic |
| Virtio.Disk.DeviceTake | xv6-riscv/kernel/virtio_disk.c:271-277 | the device finds the oldest offered chain in the avail ring, across index wrap |
| Virtio.Disk.DeviceFinish | xv6-riscv/kernel/virtio_disk.c:312-323 | a completion in any order and with any status never overwrites a used entry not yet seen |
| Virtio.Disjoint | xv6-riscv/kernel/virtio_disk.c:156-213 | requests in flight share no descriptor and no buffer, and none of their descriptors is free |

## Left out

- FsBudget.TightTransaction: the images have 24577 blocks, more than the FSSIZE of mkfs; fs.c takes the size from the superblock.
- Fs.FileSystem.Writei: copies from user memory succeed; a copy that fails half way changes a cached block without logging it, which is not modelled.
- Fs.FileSystem.Filewrite: the same.
- Fs.FileSystem.Balloc: the bitmap is a sequence of bits, not bytes inside cached blocks; the log is the set of blocks passed to log_write.
- Vm.Vm.Vmfault: the region and its bytes are a parameter, which MappedFile.Fault computes before and not between the allocations.
- Vm.Vm.NewSpace: the trampoline and trapframe pages that proc_pagetable maps next are not modelled, only that such pages are not the program's.
- Vm.Vm.ForkMemory: one thread per address space and one fault at a time; clone and join are not modelled.
- Vma.Regions.ProcMunmap: what MAP_SHARED writes back to the file is not modelled.
- Futex.StepInv: all threads share one address space, and copyin of the word succeeds.
- Semaphore.Conservation: the value is unbounded; Semaphore.ConservationInt and IntRuns say when that makes no difference.
- Malloc.Heap.Malloc: the break is a multiple of a header's size; a store to memory that sbrk did not give, after a request above 2^31 - 32 bytes, is taken to go through, where the program may be killed; sizes of joined blocks stay below 2^32 units, as memory does; block contents other than headers are not modelled beyond being untouched.
- Mlfq.BoostBound: one CPU, and runs without sleep, exit, fork and setpriority.
- Pipe.Pipe.Close: that nobody uses a freed pipe is a matter of file reference counts, which are not modelled.
- Virtio.Disk.Submit: one caller per buffer, as its sleep-lock ensures; sleeping for descriptors is a retry by the caller.
- BufferCache.Cache.Bread: one device; sleep-locks on buffers are represented by the references their holders have.
- Junk fills, TLB flushes, memory fences and weak memory are not modelled; steps are sequentially consistent and a block write is atomic.
- Path walking, directories, inode allocation and its on-disk encoding, exec, syscall argument decoding and traps are not modelled.
- Boot, assembly, PLIC, UART, printf, the shell and the other user programs are not modelled.
